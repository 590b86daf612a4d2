/** What travels between client and logger, byte by byte: where a frame ends, which frames are chatter, what is replied. */
module ExchangeFields {
  import opened Crc16
  import opened Frame
  import opened FrameFields
  import opened Transport

  /** The length a frame announces: header, payload and trailer. */
  function Announced(stream: seq<Byte>): nat
    requires |stream| >= 11
  {
    13 + ValueOf(stream[1]) + 256 * ValueOf(stream[2])
  }

  /** A frame is cut off at the length it announces; over 512 bytes it is refused, and what ends too early is short. */
  lemma FramesEndWhereAnnounced(stream: seq<Byte>)
    ensures var r := NextFrame(stream);
            if |stream| < 11 then r == Failed(ShortRead)
            else if Announced(stream) > 512 then r == Failed(DeclaredTooLarge)
            else if |stream| < Announced(stream) then r == Failed(ShortRead)
            else r == Frame(stream[..Announced(stream)], stream[Announced(stream)..])
  {
    hide ValueOf;
  }

  /** Chatter is a sound frame with one of the logger's five commands. */
  lemma ChatterIs(frame: seq<Byte>)
    ensures IsLoggerProtocolFrame(frame) <==>
              && |frame| >= 13 && frame[0] == 0xA5 && frame[|frame| - 1] == 0x15
              && ValueOf(frame[|frame| - 2]) == Total(frame[1..|frame| - 2]) % 256
              && frame[3] == 0x10 && frame[4] in {0x41, 0x42, 0x43, 0x47, 0x48}
  {
    hide ValueOf, Total, Checksum;
    if |frame| >= 13 {
      ChecksumIsTotal(frame[1..|frame| - 2]);
      EqualValues(Checksum(frame[1..|frame| - 2]), frame[|frame| - 2]);
    }
  }

  lemma ReplyBytes(command: Byte, low: Byte, high: Byte)
    ensures Lo(Le16(0x10, AnswerCommand(command))) == 0x10 && Hi(Le16(0x10, AnswerCommand(command))) == AnswerCommand(command)
    ensures Lo(Le16(Sum(low, 1), high)) == Sum(low, 1) && Hi(Le16(Sum(low, 1), high)) == high
    ensures Lo(0x0100) == 0 && Hi(0x0100) == 1
  {}

  lemma Changed(b: Byte)
    ensures AnswerCommand(b) == b - 0x30 && Sum(b, 1) == b + 1
  {}

  lemma ReplyHeader(request: seq<Byte>, now: bv32)
    requires |request| >= 11
    ensures var reply := TimeResponse(request, now);
            && |reply| == 23 && reply[0] == 0xA5 && reply[22] == 0x15
            && reply[1] == ByteOf(10) && reply[2] == ByteOf(0)
            && reply[3] == 0x10 && reply[4] == AnswerCommand(request[4])
            && reply[5] == Sum(request[5], 1) && reply[6] == request[6]
            && reply[7] == request[7] && reply[8] == request[8] && reply[9] == request[9] && reply[10] == request[10]
            && reply[11..21] == TimePayload(now) && reply[21] == Checksum(reply[1..21])
  {
    hide Le16, Le32, Lo, Hi, Byte32, ByteOf, Checksum, Sum, AnswerCommand, TimePayload;
    var reply := TimeResponse(request, now);
    ReplyBytes(request[4], request[5], request[6]);
    Byte32Inverse(request[7], request[8], request[9], request[10]);
    assert reply[..21][1..] == reply[1..21];
  }

  lemma ReplyPayload(now: bv32)
    ensures var p := TimePayload(now);
            && p[0] == 0x00 && p[1] == 0x01 && p[6] == p[7] == p[8] == p[9] == 0
            && (p[2] as bv32) + 0x100 * (p[3] as bv32) + 0x1_0000 * (p[4] as bv32) + 0x100_0000 * (p[5] as bv32) == now
  {
    hide Le32, Byte32;
    Le32Inverse(now);
    DoubleWords(Byte32(now, 0), Byte32(now, 1), Byte32(now, 2), Byte32(now, 3));
  }

  /** What a reply looks like to its reader. */
  ghost predicate Answers(reply: seq<Byte>, request: seq<Byte>, now: bv32)
    requires |request| >= 11
  {
    && |reply| == 23 && reply[0] == 0xA5 && reply[22] == 0x15
    && ValueOf(reply[1]) == 10 && ValueOf(reply[2]) == 0
    && reply[3] == 0x10 && reply[4] == request[4] - 0x30
    && reply[5] == request[5] + 1 && reply[6] == request[6] && reply[7..11] == request[7..11]
    && reply[11] == 0x00 && reply[12] == 0x01
    && (reply[13] as bv32) + 0x100 * (reply[14] as bv32) + 0x1_0000 * (reply[15] as bv32) + 0x100_0000 * (reply[16] as bv32) == now
    && reply[17..21] == [0, 0, 0, 0]
    && ValueOf(reply[21]) == Total(reply[1..21]) % 256
  }

  /**
    The reply to chatter: the command less 0x30, the sequence with its low byte raised by one (modulo
    256), the same serial, and as payload a fixed word, the time in seconds, lowest byte first, and four zeros.
   */
  lemma ReplyIs(request: seq<Byte>, now: bv32)
    requires |request| >= 11
    ensures Answers(TimeResponse(request, now), request, now)
  {
    hide ByteOf, ValueOf, Total, Checksum, Sum, AnswerCommand, TimeResponse, TimePayload;
    ReplyHeader(request, now);
    ReplyPayload(now);
    Changed(request[4]);
    Changed(request[5]);
    ByteValue(10);
    ByteValue(0);
    var reply := TimeResponse(request, now);
    ChecksumIsTotal(reply[1..21]);
    PayloadBytes(reply, TimePayload(now));
  }

  lemma PayloadBytes(reply: seq<Byte>, payload: seq<Byte>)
    requires |reply| == 23 && reply[11..21] == payload
    ensures |payload| == 10 && forall i :: 0 <= i < 10 ==> reply[11 + i] == payload[i]
    ensures reply[17..21] == payload[6..]
  {
    forall i | 0 <= i < 10 ensures reply[11 + i] == payload[i] {
      assert reply[11..21][i] == reply[11 + i];
    }
  }
}
