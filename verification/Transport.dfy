/**
  The TCP round trip of `internal/solarman/transport.go`: one request out, then
  frames in until one is not logger chatter; every piece of chatter is answered
  with the time. The connection is the byte stream still to be read and the bytes
  written so far; `clock(k)` is the k-th reading of the wall clock.
 */
module Transport {
  import opened Crc16
  import opened Frame

  const MAX_FRAME_SIZE: nat := 512

  datatype ReadError = ShortRead | DeclaredTooLarge

  datatype ReadResult = Frame(frame: seq<Byte>, rest: seq<Byte>) | Failed(error: ReadError)

  /** What a round trip comes to: the bytes written in reply to chatter, and how it ended. */
  datatype Exchange = Exchange(replies: seq<Byte>, chatter: nat, end: ReadResult)

  function DeclaredSize(header: seq<Byte>): nat
    requires |header| >= HEADER_SIZE
  {
    HEADER_SIZE + Length(header[1], header[2]) + TRAILER_SIZE
  }

  /** A frame exactly as long as its own length field says, and not over the limit. */
  predicate WellDeclared(frame: seq<Byte>) {
    HEADER_SIZE + TRAILER_SIZE <= |frame| <= MAX_FRAME_SIZE && |frame| == DeclaredSize(frame)
  }

  function NextFrame(stream: seq<Byte>): ReadResult {
    if |stream| < HEADER_SIZE then Failed(ShortRead)
    else if DeclaredSize(stream) > MAX_FRAME_SIZE then Failed(DeclaredTooLarge)
    else if |stream| < DeclaredSize(stream) then Failed(ShortRead)
    else Frame(stream[..DeclaredSize(stream)], stream[DeclaredSize(stream)..])
  }

  predicate LoggerCommand(b: Byte) { b == 0x41 || b == 0x42 || b == 0x43 || b == 0x47 || b == 0x48 }

  predicate IsLoggerProtocolFrame(frame: seq<Byte>) {
    |frame| >= HEADER_SIZE + TRAILER_SIZE &&
    frame[0] == V5_START && frame[|frame| - 1] == V5_END &&
    Checksum(frame[1..|frame| - 2]) == frame[|frame| - 2] &&
    frame[3] == 0x10 && LoggerCommand(frame[4])
  }

  function AnswerCommand(b: Byte): Byte { b - 0x30 }

  function TimePayload(now: bv32): (payload: seq<Byte>)
    ensures |payload| == 10
  {
    PutLe16(0x0100) + PutLe32(now) + [0, 0, 0, 0]
  }

  /** The reply: the command byte less 0x30, the same serial, the low sequence byte plus one, the time. */
  function TimeResponse(request: seq<Byte>, now: bv32): (reply: seq<Byte>)
    requires |request| >= HEADER_SIZE
    ensures |reply| == 23
  {
    FrameOf(Le16(0x10, AnswerCommand(request[4])), Le32(request[7], request[8], request[9], request[10]),
            Le16(Sum(request[5], 1), request[6]), TimePayload(now))
  }

  function RunExchange(stream: seq<Byte>, clock: nat -> bv32, k: nat): Exchange
    decreases |stream|
  {
    match NextFrame(stream)
    case Failed(e) => Exchange([], 0, Failed(e))
    case Frame(frame, rest) =>
      if !IsLoggerProtocolFrame(frame) then Exchange([], 0, Frame(frame, rest))
      else
        var later := RunExchange(rest, clock, k + 1);
        Exchange(TimeResponse(frame, clock(k)) + later.replies, later.chatter + 1, later.end)
  }

  class Connection {
    const input: seq<Byte>
    var position: nat
    var written: seq<Byte>
    var closed: bool

    constructor (input: seq<Byte>)
      ensures this.input == input && position == 0 && written == [] && !closed
    {
      this.input := input;
      position, written, closed := 0, [], false;
    }

    ghost predicate Valid()
      reads this
    {
      position <= |input|
    }

    function Unread(): seq<Byte>
      requires Valid()
      reads this
    {
      input[position..]
    }

    /** Reads exactly `n` bytes, or everything that is left. */
    method ReadFull(n: nat) returns (data: seq<Byte>)
      requires Valid()
      modifies this`position
      ensures Valid()
      ensures n <= |old(Unread())| ==> data == old(Unread())[..n] && Unread() == old(Unread())[n..]
      ensures n > |old(Unread())| ==> data == old(Unread()) && Unread() == []
    {
      var end := if position + n <= |input| then position + n else |input|;
      data := input[position..end];
      position := end;
    }

    method Write(data: seq<Byte>)
      modifies this`written
      ensures written == old(written) + data
    {
      written := written + data;
    }

    method ReadFrame() returns (r: ReadResult)
      requires Valid()
      modifies this
      ensures Valid() && written == old(written)
      ensures r.Frame? ==> r == NextFrame(old(Unread())) && Unread() == r.rest && closed == old(closed)
      ensures r.Failed? ==> r == NextFrame(old(Unread())) && closed
    {
      hide Length;
      ghost var stream := Unread();
      var header := ReadFull(HEADER_SIZE);
      if |header| < HEADER_SIZE {
        closed := true;
        return Failed(ShortRead);
      }
      var frameSize := DeclaredSize(header);
      if frameSize > MAX_FRAME_SIZE {
        closed := true;
        return Failed(DeclaredTooLarge);
      }
      var payload := ReadFull(frameSize - HEADER_SIZE);
      if |payload| < frameSize - HEADER_SIZE {
        closed := true;
        return Failed(ShortRead);
      }
      assert stream[..frameSize] == header + payload;
      assert stream[frameSize..] == Unread();
      r := Frame(header + payload, input[position..]);
    }

    method RoundTrip(request: seq<Byte>, clock: nat -> bv32) returns (r: ReadResult, chatter: nat)
      requires Valid()
      modifies this
      ensures Valid()
      ensures var e := RunExchange(old(Unread()), clock, 0);
              written == old(written) + request + e.replies && chatter == e.chatter && r == e.end
      ensures r.Frame? ==> Unread() == r.rest && closed == old(closed)
      ensures r.Failed? ==> closed
    {
      hide IsLoggerProtocolFrame, NextFrame, TimeResponse;
      ghost var stream := Unread();
      Write(request);
      chatter := 0;
      ghost var replies := [];
      while true
        invariant Valid() && closed == old(closed)
        invariant written == old(written) + request + replies
        invariant var rest := RunExchange(Unread(), clock, chatter);
                  RunExchange(stream, clock, 0) == Exchange(replies + rest.replies, chatter + rest.chatter, rest.end)
        decreases |Unread()|
      {
        ghost var before := Unread();
        ghost var tail := RunExchange(before, clock, chatter);
        r := ReadFrame();
        if r.Failed? || !IsLoggerProtocolFrame(r.frame) {
          return;
        }
        NextFrameShrinks(before);
        var reply := BuildLoggerTimeResponse(r.frame, clock(chatter));
        Write(reply);
        ghost var later := RunExchange(Unread(), clock, chatter + 1);
        assert replies + tail.replies == replies + reply + later.replies;
        replies := replies + reply;
        chatter := chatter + 1;
      }
    }
  }

  lemma NextFrameShrinks(stream: seq<Byte>)
    ensures NextFrame(stream).Frame? ==>
              WellDeclared(NextFrame(stream).frame) && stream == NextFrame(stream).frame + NextFrame(stream).rest
  {}

  method BuildLoggerTimeResponse(request: seq<Byte>, now: bv32) returns (reply: seq<Byte>)
    requires |request| >= HEADER_SIZE
    ensures reply == TimeResponse(request, now)
  {
    hide FrameOf, TimePayload, Le16, Le32, Sum, AnswerCommand, WithNextLowByte, AnswerControl;
    var sequence := WithNextLowByte(Le16(request[5], request[6]), request[5]);
    NextSequence(request[5], request[6]);
    var payload := BuildTimePayload(now);
    AnswerControlBytes(request[4]);
    reply := BuildFrame(AnswerControl(request[4]), Le32(request[7], request[8], request[9], request[10]), sequence, payload);
  }

  function WithNextLowByte(sequence: bv16, low: Byte): bv16 { (sequence & 0xFF00) | ((low + 1) as bv16) }

  function AnswerControl(command: Byte): bv16 { (((command - 0x30) as bv16) << 8) | 0x10 }

  method BuildTimePayload(now: bv32) returns (data: seq<Byte>)
    ensures data == TimePayload(now)
  {
    hide PutLe16, PutLe32;
    var payload := new Byte[10](_ => 0);
    Put(payload, 0, PutLe16(0x0100));
    assert payload[6..] == payload[2..][4..];
    Put(payload, 2, PutLe32(now));
    data := payload[..];
    assert data == payload[..6] + payload[6..];
  }

  lemma AnswerControlBytes(command: Byte)
    ensures AnswerControl(command) == Le16(0x10, AnswerCommand(command))
  {}

  lemma NextSequence(low: Byte, high: Byte)
    ensures WithNextLowByte(Le16(low, high), low) == Le16(Sum(low, 1), high)
  {}

  // ----- splitting the stream

  function Flatten(frames: seq<seq<Byte>>): seq<Byte> {
    if frames == [] then [] else frames[0] + Flatten(frames[1..])
  }

  /** One reply per skipped frame, in order, the k-th carrying the k-th clock reading. */
  function Replies(frames: seq<seq<Byte>>, clock: nat -> bv32, k: nat): seq<Byte>
    requires forall i :: 0 <= i < |frames| ==> WellDeclared(frames[i])
    decreases frames
  {
    if |frames| == 0 then [] else assert WellDeclared(frames[0]); TimeResponse(frames[0], clock(k)) + Replies(frames[1..], clock, k + 1)
  }

  ghost predicate Chatter(frames: seq<seq<Byte>>) {
    forall i :: 0 <= i < |frames| ==> WellDeclared(frames[i]) && IsLoggerProtocolFrame(frames[i])
  }

  lemma NextFrameOfConcat(frame: seq<Byte>, rest: seq<Byte>)
    requires WellDeclared(frame)
    ensures NextFrame(frame + rest) == Frame(frame, rest)
  {
    hide Length;
    assert (frame + rest)[..|frame|] == frame && (frame + rest)[|frame|..] == rest;
  }

  /**
    Chatter followed by an answer: the stream is split at the declared lengths, the answer is
    returned, and the replies are exactly one per skipped frame, in order.
   */
  lemma {:induction false} ExchangeSkipsChatter(skipped: seq<seq<Byte>>, answer: seq<Byte>, rest: seq<Byte>,
                                                clock: nat -> bv32, k: nat)
    requires Chatter(skipped) && WellDeclared(answer) && !IsLoggerProtocolFrame(answer)
    ensures RunExchange(Flatten(skipped) + answer + rest, clock, k)
         == Exchange(Replies(skipped, clock, k), |skipped|, Frame(answer, rest))
    decreases skipped
  {
    hide IsLoggerProtocolFrame, WellDeclared, NextFrame, TimeResponse;
    if skipped == [] {
      NextFrameOfConcat(answer, rest);
      assert Flatten(skipped) + answer + rest == answer + rest;
    } else {
      var tail := Flatten(skipped[1..]) + answer + rest;
      NextFrameOfConcat(skipped[0], tail);
      assert Flatten(skipped) + answer + rest == skipped[0] + tail;
      ExchangeSkipsChatter(skipped[1..], answer, rest, clock, k + 1);
    }
  }

  function Skipped(stream: seq<Byte>): seq<seq<Byte>>
    decreases |stream|
  {
    match NextFrame(stream)
    case Failed(_) => []
    case Frame(frame, rest) => if IsLoggerProtocolFrame(frame) then [frame] + Skipped(rest) else []
  }

  /** What is left of the stream behind the frames that are skipped. */
  function Unskipped(stream: seq<Byte>): seq<Byte>
    decreases |stream|
  {
    match NextFrame(stream)
    case Failed(_) => stream
    case Frame(frame, rest) => if IsLoggerProtocolFrame(frame) then Unskipped(rest) else stream
  }

  /**
    Conversely, every stream is chatter and then what ends the exchange, be it an answer, a short read
    or an oversized frame; and the replies are exactly one per skipped frame, in order.
   */
  lemma {:induction false} ExchangeIsASplit(stream: seq<Byte>, clock: nat -> bv32, k: nat)
    ensures var e, skipped, rest := RunExchange(stream, clock, k), Skipped(stream), Unskipped(stream);
            && Chatter(skipped) && stream == Flatten(skipped) + rest
            && e == Exchange(Replies(skipped, clock, k), |skipped|, NextFrame(rest))
            && (e.end.Frame? ==> WellDeclared(e.end.frame) && !IsLoggerProtocolFrame(e.end.frame) && rest == e.end.frame + e.end.rest)
    decreases |stream|
  {
    hide IsLoggerProtocolFrame, WellDeclared, NextFrame, TimeResponse;
    NextFrameShrinks(stream);
    if NextFrame(stream).Frame? && IsLoggerProtocolFrame(NextFrame(stream).frame) {
      var frame, rest := NextFrame(stream).frame, NextFrame(stream).rest;
      NextFrameNonEmpty(stream);
      ExchangeIsASplit(rest, clock, k + 1);
      assert Skipped(stream) == [frame] + Skipped(rest);
      assert Skipped(stream)[1..] == Skipped(rest);
    }
  }

  lemma NextFrameNonEmpty(stream: seq<Byte>)
    ensures NextFrame(stream).Frame? ==> |NextFrame(stream).rest| < |stream|
  {}

  // ----- chatter, answers and replies never overlap

  lemma ResponseControlBytes()
    ensures Lo(RESPONSE_CONTROL) == 0x10 && Hi(RESPONSE_CONTROL) == 0x15
  {}

  lemma AcceptedControl(frame: seq<Byte>, serial: bv32, sequence: bv16, slave: Byte, count: bv16)
    requires Parse(frame, serial, sequence, slave, count).Ok?
    ensures |frame| >= 32 && Le16(frame[3], frame[4]) == RESPONSE_CONTROL
    ensures Length(frame[1], frame[2]) == |frame| - 13
  {
    hide Checksum, CrcMatches, Length, Le16, Le32, Lo, ValueOf, RegistersOf;
  }

  /** No frame that would parse as an answer is ever skipped as chatter, whatever the request was. */
  lemma AcceptedIsNeverSkipped(frame: seq<Byte>, serial: bv32, sequence: bv16, slave: Byte, count: bv16)
    requires Parse(frame, serial, sequence, slave, count).Ok?
    ensures WellDeclared(frame) && !IsLoggerProtocolFrame(frame)
  {
    hide Parse, Le16, Lo, Hi, Length, Checksum, EnvelopeError, Response;
    AcceptedControl(frame, serial, sequence, slave, count);
    AcceptedIsResponse(frame, serial, sequence, slave, count);
    Le16Inverse(0, frame[3], frame[4]);
    ResponseControlBytes();
  }

  lemma AnswersAreNotCommands(command: Byte)
    requires LoggerCommand(command)
    ensures !LoggerCommand(AnswerCommand(command)) && AnswerCommand(command) != 0x15
  {}

  lemma FrameOfFields(control: bv16, serial: bv32, sequence: bv16, payload: seq<Byte>)
    requires |payload| < 65536
    ensures var f := FrameOf(control, serial, sequence, payload);
            Length(f[1], f[2]) == |payload| && f[3] == Lo(control) && f[4] == Hi(control) &&
            f[5] == Lo(sequence) && f[6] == Hi(sequence) && Le32(f[7], f[8], f[9], f[10]) == serial
  {
    hide Le16, Le32, Lo, Hi, Byte32, Length, PutLength, Checksum;
    var f := FrameOf(control, serial, sequence, payload);
    HeaderFields(control, serial, sequence, |payload|);
    assert f[..HEADER_SIZE] == Header(control, serial, sequence, |payload|);
  }

  /**
    A reply is a well-declared frame for the same logger with the next low sequence byte; it is
    neither chatter nor an acceptable answer, so two such endpoints cannot answer each other for ever.
   */
  lemma ReplyIsNotChatter(request: seq<Byte>, now: bv32)
    requires WellDeclared(request) && IsLoggerProtocolFrame(request)
    ensures var reply := TimeResponse(request, now);
            WellDeclared(reply) && !IsLoggerProtocolFrame(reply) &&
            reply[5] == Sum(request[5], 1) && reply[6] == request[6] &&
            Le32(reply[7], reply[8], reply[9], reply[10]) == Le32(request[7], request[8], request[9], request[10])
    ensures forall serial, sequence, slave, count :: Parse(TimeResponse(request, now), serial, sequence, slave, count).Err?
  {
    hide Parse, Le16, Le32, Lo, Hi, Sum, Length, Checksum, FrameOf, LoggerCommand, AnswerCommand;
    var reply := TimeResponse(request, now);
    var control, sequence := Le16(0x10, AnswerCommand(request[4])), Le16(Sum(request[5], 1), request[6]);
    FrameOfFields(control, Le32(request[7], request[8], request[9], request[10]), sequence, TimePayload(now));
    Le16Inverse(0, 0x10, AnswerCommand(request[4]));
    Le16Inverse(0, Sum(request[5], 1), request[6]);
    AnswersAreNotCommands(request[4]);
    ResponseControlBytes();
    forall serial, sequence, slave, count
      ensures Parse(reply, serial, sequence, slave, count).Err?
    {
      if Parse(reply, serial, sequence, slave, count).Ok? {
        AcceptedControl(reply, serial, sequence, slave, count);
      }
    }
  }

  /** End to end: through any chatter, the registers an honest logger sends are the registers read. */
  lemma RegistersArriveThroughChatter(skipped: seq<seq<Byte>>, rest: seq<Byte>, clock: nat -> bv32,
                                      serial: bv32, sequence: bv16, answered: bv16, metadata: seq<Byte>, slave: Byte,
                                      registers: seq<bv16>, count: bv16)
    requires Chatter(skipped)
    requires |metadata| == RESPONSE_METADATA - 2 && 1 <= |registers| == count as int <= MAX_REGISTERS
    requires Lo(answered) == Lo(sequence)
    ensures var answer := Response(serial, answered, metadata, slave, registers);
            var e := RunExchange(Flatten(skipped) + answer + rest, clock, 0);
            e == Exchange(Replies(skipped, clock, 0), |skipped|, Frame(answer, rest)) &&
            Parse(e.end.frame, serial, sequence, slave, count) == Ok(registers)
  {
    hide Parse, Response, RunExchange, Flatten, Replies, Lo;
    var answer := Response(serial, answered, metadata, slave, registers);
    ParseOfResponse(serial, sequence, answered, metadata, slave, registers, count);
    AcceptedIsNeverSkipped(answer, serial, sequence, slave, count);
    ExchangeSkipsChatter(skipped, answer, rest, clock, 0);
  }
}
