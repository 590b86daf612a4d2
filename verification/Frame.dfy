/**
  Solarman V5 frames around Modbus read-holding-registers messages
  (`internal/solarman/frame.go`): building, checking and parsing, and the two
  directions of the round trip between them.

  The Modbus part follows section 6.3 of "MODBUS Application Protocol
  Specification V1.1b3".
 */
module Frame {
  import opened Crc16

  datatype Error = MalformedFrame | IdentityMismatch | UnsupportedFunction | ModbusException | CrcMismatch

  datatype Result<+T> = Ok(value: T) | Err(error: Error)

  const V5_START: Byte := 0xA5
  const V5_END: Byte := 0x15
  const REQUEST_CONTROL: bv16 := 0x4510
  const RESPONSE_CONTROL: bv16 := 0x1510
  const HEADER_SIZE: nat := 11
  const TRAILER_SIZE: nat := 2
  const REQUEST_METADATA: nat := 15
  const RESPONSE_METADATA: nat := 14
  const READ_HOLDING: Byte := 0x03
  const READ_EXCEPTION: Byte := 0x83
  const MAX_REGISTERS: nat := 125

  // ----- byte order

  function Le16(a: Byte, b: Byte): bv16 { (a as bv16) | ((b as bv16) << 8) }

  function Be16(a: Byte, b: Byte): bv16 { Le16(b, a) }

  function Le32(a: Byte, b: Byte, c: Byte, d: Byte): bv32 {
    (a as bv32) | ((b as bv32) << 8) | ((c as bv32) << 16) | ((d as bv32) << 24)
  }

  function PutLe16(w: bv16): (s: seq<Byte>) ensures |s| == 2 { [Lo(w), Hi(w)] }

  function PutBe16(w: bv16): (s: seq<Byte>) ensures |s| == 2 { [Hi(w), Lo(w)] }

  function Byte32(w: bv32, k: nat): Byte
    requires k < 4
  {
    if k == 0 then (w & 0xFF) as bv8
    else if k == 1 then ((w >> 8) & 0xFF) as bv8
    else if k == 2 then ((w >> 16) & 0xFF) as bv8
    else (w >> 24) as bv8
  }

  function PutLe32(w: bv32): (s: seq<Byte>) ensures |s| == 4 {
    [Byte32(w, 0), Byte32(w, 1), Byte32(w, 2), Byte32(w, 3)]
  }

  /** The 16-bit length field: larger sizes are truncated, as the conversion to uint16 does. */
  function PutLength(n: nat): (s: seq<Byte>) ensures |s| == 2 { [ByteOf(n % 256), ByteOf(n / 256 % 256)] }

  function ByteOf(n: nat): Byte requires n < 256 { n as bv8 }

  function ValueOf(b: Byte): (n: nat) ensures n < 256 { b as int }

  function Length(a: Byte, b: Byte): (n: nat) ensures n < 65536 { ValueOf(a) + 256 * ValueOf(b) }

  lemma Le16Inverse(w: bv16, a: Byte, b: Byte)
    ensures Le16(Lo(w), Hi(w)) == w
    ensures Lo(Le16(a, b)) == a && Hi(Le16(a, b)) == b
  {}

  lemma Le32Inverse(w: bv32)
    ensures Le32(Byte32(w, 0), Byte32(w, 1), Byte32(w, 2), Byte32(w, 3)) == w
  {}

  lemma Byte32Inverse(a: Byte, b: Byte, c: Byte, d: Byte)
    ensures Byte32(Le32(a, b, c, d), 0) == a && Byte32(Le32(a, b, c, d), 1) == b
    ensures Byte32(Le32(a, b, c, d), 2) == c && Byte32(Le32(a, b, c, d), 3) == d
  {}

  lemma ValueByte(b: Byte)
    ensures ByteOf(ValueOf(b)) == b
  {}

  /** The value of a byte spelled out bit by bit, which the solver can add with. */
  function BinaryValue(b: Byte): nat {
    (if b & 1 != 0 then 1 else 0) + (if b & 2 != 0 then 2 else 0) + (if b & 4 != 0 then 4 else 0) +
    (if b & 8 != 0 then 8 else 0) + (if b & 16 != 0 then 16 else 0) + (if b & 32 != 0 then 32 else 0) +
    (if b & 64 != 0 then 64 else 0) + (if b & 128 != 0 then 128 else 0)
  }

  lemma ValueIsBinary(b: Byte)
    ensures ValueOf(b) == BinaryValue(b)
  {}

  lemma BinaryIncrement(b: Byte)
    requires b != 255
    ensures BinaryValue(Sum(b, 1)) == BinaryValue(b) + 1
  {}

  lemma {:induction false} SomeByteHasValue(n: nat) returns (b: Byte)
    requires n < 256
    ensures ValueOf(b) == n
    decreases n
  {
    hide ValueOf, BinaryValue, Sum;
    ValueIsBinary(255);
    ValueIsBinary(0);
    BinaryExtremes();
    if n == 0 {
      b := 0;
    } else {
      var c := SomeByteHasValue(n - 1);
      BinaryIncrement(c);
      b := Sum(c, 1);
      ValueIsBinary(b);
      ValueIsBinary(c);
    }
  }

  lemma BinaryExtremes()
    ensures BinaryValue(0) == 0 && BinaryValue(255) == 255
  {}

  lemma ByteValue(n: nat)
    requires n < 256
    ensures ValueOf(ByteOf(n)) == n
  {
    hide ByteOf, ValueOf;
    var b := SomeByteHasValue(n);
    ValueByte(b);
  }

  lemma LengthOfPut(n: nat)
    ensures Length(PutLength(n)[0], PutLength(n)[1]) == n % 65536
  {
    hide ByteOf, ValueOf;
    ByteValue(n % 256);
    ByteValue(n / 256 % 256);
    TwoDigits(n, n / 256, n / 256 / 256);
  }

  lemma TwoDigits(n: nat, m: nat, q: nat)
    requires m == n / 256 && q == m / 256
    ensures n % 65536 == n % 256 + 256 * (m % 256)
  {
    assert n == 65536 * q + (n % 256 + 256 * (m % 256));
  }

  lemma PutOfLength(a: Byte, b: Byte)
    ensures PutLength(Length(a, b)) == [a, b]
  {
    hide ByteOf, ValueOf, Length;
    LengthDigits(a, b);
    ValueByte(a);
    ValueByte(b);
  }

  lemma LengthDigits(a: Byte, b: Byte)
    ensures Length(a, b) % 256 == ValueOf(a) && Length(a, b) / 256 % 256 == ValueOf(b)
  {
    hide ValueOf;
  }

  // ----- the additive checksum

  function Sum(a: Byte, b: Byte): Byte { a + b }

  function Checksum(data: seq<Byte>): Byte {
    if data == [] then 0 else Sum(Checksum(data[..|data| - 1]), data[|data| - 1])
  }

  method AdditiveChecksum(data: seq<Byte>) returns (checksum: Byte)
    ensures checksum == Checksum(data)
  {
    hide Sum;
    checksum := 0;
    for i := 0 to |data|
      invariant checksum == Checksum(data[..i])
    {
      assert data[..i + 1][..i] == data[..i];
      checksum := Sum(checksum, data[i]);
    }
    assert data[..|data|] == data;
  }

  lemma SumInjective(a: Byte, b: Byte, x: Byte)
    ensures Sum(a, x) == Sum(b, x) ==> a == b
    ensures Sum(x, a) == Sum(x, b) ==> a == b
  {}

  /** Changing exactly one byte always changes the additive checksum. */
  lemma {:induction false} ChecksumSeesOneByte(data: seq<Byte>, i: nat, b: Byte)
    requires i < |data| && data[i] != b
    ensures Checksum(data[i := b]) != Checksum(data)
    decreases |data|
  {
    hide Sum;
    var n := |data| - 1;
    var changed := data[i := b];
    if i == n {
      assert changed[..n] == data[..n];
      SumInjective(data[n], b, Checksum(data[..n]));
    } else {
      assert changed[..n] == data[..n][i := b] && changed[n] == data[n];
      ChecksumSeesOneByte(data[..n], i, b);
      SumInjective(Checksum(changed[..n]), Checksum(data[..n]), data[n]);
    }
  }

  // ----- building

  function Header(control: bv16, serial: bv32, sequence: bv16, size: nat): (h: seq<Byte>)
    ensures |h| == HEADER_SIZE
  {
    [V5_START] + PutLength(size) + PutLe16(control) + PutLe16(sequence) + PutLe32(serial)
  }

  function Sealed(body: seq<Byte>): (frame: seq<Byte>)
    requires |body| >= 1
    ensures |frame| == |body| + TRAILER_SIZE
  {
    body + [Checksum(body[1..]), V5_END]
  }

  function FrameOf(control: bv16, serial: bv32, sequence: bv16, payload: seq<Byte>): (frame: seq<Byte>)
    ensures |frame| == HEADER_SIZE + |payload| + TRAILER_SIZE
  {
    Sealed(Header(control, serial, sequence, |payload|) + payload)
  }

  method BuildFrame(control: bv16, serial: bv32, sequence: bv16, payload: seq<Byte>) returns (frame: seq<Byte>)
    ensures frame == FrameOf(control, serial, sequence, payload)
  {
    hide Checksum, PutLength, PutLe16, PutLe32;
    var n := |payload|;
    var buffer := new Byte[HEADER_SIZE + n + TRAILER_SIZE];
    buffer[0] := V5_START;
    assert buffer[..1] == [V5_START];
    Put(buffer, 1, PutLength(n));
    Put(buffer, 3, PutLe16(control));
    Put(buffer, 5, PutLe16(sequence));
    Put(buffer, 7, PutLe32(serial));
    ghost var header := Header(control, serial, sequence, n);
    assert buffer[..HEADER_SIZE] == header;
    Put(buffer, HEADER_SIZE, payload);
    var checksum := AdditiveChecksum(buffer[1..HEADER_SIZE + n]);
    assert buffer[1..HEADER_SIZE + n] == (header + payload)[1..];
    Put(buffer, HEADER_SIZE + n, [checksum, V5_END]);
    assert buffer[..] == buffer[..HEADER_SIZE + n + 2];
    frame := buffer[..];
  }

  /** Overwrites the bytes from `at` on, as the fixed-width `Put` calls on a sub-slice do. */
  method Put(buffer: array<Byte>, at: nat, bytes: seq<Byte>)
    requires at + |bytes| <= buffer.Length
    modifies buffer
    ensures buffer[..at] == old(buffer[..at])
    ensures buffer[..at + |bytes|] == old(buffer[..at]) + bytes
    ensures buffer[at + |bytes|..] == old(buffer[at + |bytes|..])
  {
    for i := 0 to |bytes|
      invariant buffer[..at] == old(buffer[..at])
      invariant buffer[at..at + i] == bytes[..i]
      invariant buffer[at + |bytes|..] == old(buffer[at + |bytes|..])
    {
      buffer[at + i] := bytes[i];
    }
    assert buffer[..at + |bytes|] == buffer[..at] + buffer[at..at + |bytes|];
  }

  function WithCrc(body: seq<Byte>): (modbus: seq<Byte>)
    ensures |modbus| == |body| + 2
  {
    body + PutLe16(Crc(body))
  }

  function ReadRequest(slave: Byte, start: bv16, count: bv16): seq<Byte> {
    WithCrc([slave, READ_HOLDING] + PutBe16(start) + PutBe16(count))
  }

  /** The client request: one type byte, fourteen zeros, then the Modbus request. */
  function RequestPayload(slave: Byte, start: bv16, count: bv16): seq<Byte> {
    [0x02] + seq(REQUEST_METADATA - 1, _ => 0) + ReadRequest(slave, start, count)
  }

  method BuildReadRequest(serial: bv32, sequence: bv16, slave: Byte, start: bv16, count: bv16)
    returns (r: Result<seq<Byte>>)
    ensures r == if 1 <= count <= 125
                 then Ok(FrameOf(REQUEST_CONTROL, serial, sequence, RequestPayload(slave, start, count)))
                 else Err(MalformedFrame)
  {
    hide Crc, Lo, Hi, FrameOf;
    if count == 0 || count > 125 {
      return Err(MalformedFrame);
    }
    var modbus := new Byte[8];
    modbus[0], modbus[1] := slave, READ_HOLDING;
    modbus[2], modbus[3] := Hi(start), Lo(start);
    modbus[4], modbus[5] := Hi(count), Lo(count);
    var crc := CRC16(modbus[..6]);
    assert modbus[..6] == [slave, READ_HOLDING] + PutBe16(start) + PutBe16(count);
    modbus[6], modbus[7] := Lo(crc), Hi(crc);
    assert modbus[..] == ReadRequest(slave, start, count);
    var payload := seq(REQUEST_METADATA, i => if i == 0 then 0x02 else 0) + modbus[..];
    assert payload == RequestPayload(slave, start, count);
    var frame := BuildFrame(REQUEST_CONTROL, serial, sequence, payload);
    r := Ok(frame);
  }

  // ----- parsing

  /** The outer checks, in the order in which they are made; `None` when all of them pass. */
  function EnvelopeError(frame: seq<Byte>, serial: bv32, sequence: bv16): (e: Result<seq<Byte>>)
    ensures e.Ok? ==> |frame| >= 32 && e.value == frame[25..|frame| - 2]
  {
    var n := |frame|;
    if n < HEADER_SIZE + RESPONSE_METADATA + 5 + TRAILER_SIZE then Err(MalformedFrame)
    else if frame[0] != V5_START || frame[n - 1] != V5_END then Err(MalformedFrame)
    else if Length(frame[1], frame[2]) != n - HEADER_SIZE - TRAILER_SIZE then Err(MalformedFrame)
    else if Le16(frame[3], frame[4]) != RESPONSE_CONTROL then Err(MalformedFrame)
    else if Checksum(frame[1..n - 2]) != frame[n - 2] then Err(MalformedFrame)
    else if frame[5] != Lo(sequence) || Le32(frame[7], frame[8], frame[9], frame[10]) != serial then Err(IdentityMismatch)
    else if frame[11] != 0x02 || frame[12] != 0x01 then Err(MalformedFrame)
    else Ok(frame[25..n - 2])
  }

  predicate CrcMatches(modbus: seq<Byte>)
    requires |modbus| >= 2
  {
    Le16(modbus[|modbus| - 2], modbus[|modbus| - 1]) == Crc(modbus[..|modbus| - 2])
  }

  function ModbusResult(modbus: seq<Byte>, slave: Byte, count: bv16): Result<seq<bv16>>
    requires |modbus| >= 5
  {
    var bytes := ValueOf(modbus[2]);
    if !CrcMatches(modbus) then Err(CrcMismatch)
    else if modbus[0] != slave then Err(IdentityMismatch)
    else if modbus[1] == READ_EXCEPTION then Err(if |modbus| != 5 then MalformedFrame else ModbusException)
    else if modbus[1] != READ_HOLDING then Err(UnsupportedFunction)
    else if bytes == 0 || bytes % 2 != 0 || bytes / 2 > MAX_REGISTERS then Err(MalformedFrame)
    else if |modbus| != 3 + bytes + 2 then Err(MalformedFrame)
    else if bytes != count as int * 2 then Err(IdentityMismatch)
    else Ok(RegistersOf(modbus[3..3 + bytes]))
  }

  function Parse(frame: seq<Byte>, serial: bv32, sequence: bv16, slave: Byte, count: bv16): Result<seq<bv16>> {
    match EnvelopeError(frame, serial, sequence)
    case Err(e) => Err(e)
    case Ok(modbus) => ModbusResult(modbus, slave, count)
  }

  function RegistersOf(data: seq<Byte>): (registers: seq<bv16>)
    requires |data| % 2 == 0
    ensures |registers| == |data| / 2
  {
    if data == [] then [] else [Be16(data[0], data[1])] + RegistersOf(data[2..])
  }

  function BytesOf(registers: seq<bv16>): (data: seq<Byte>)
    ensures |data| == 2 * |registers|
  {
    if registers == [] then [] else PutBe16(registers[0]) + BytesOf(registers[1..])
  }

  method ValidateModbusCRC(modbus: seq<Byte>) returns (ok: bool)
    requires |modbus| >= 2
    ensures ok == CrcMatches(modbus)
  {
    var want := CRC16(modbus[..|modbus| - 2]);
    var got := Le16(modbus[|modbus| - 2], modbus[|modbus| - 1]);
    ok := got == want;
  }

  lemma {:induction false} RegisterAt(data: seq<Byte>, i: nat)
    requires |data| % 2 == 0 && i < |data| / 2
    ensures RegistersOf(data)[i] == Be16(data[2 * i], data[2 * i + 1])
    decreases i
  {
    hide Le16;
    if i > 0 {
      RegisterAt(data[2..], i - 1);
    }
  }

  method ParseReadResponse(frame: seq<Byte>, serial: bv32, sequence: bv16, slave: Byte, count: bv16)
    returns (r: Result<seq<bv16>>)
    ensures r == Parse(frame, serial, sequence, slave, count)
  {
    hide Le16, Le32, Lo, Checksum, Crc, CrcMatches, Length, ValueOf;
    var n := |frame|;
    if n < HEADER_SIZE + RESPONSE_METADATA + 5 + TRAILER_SIZE {
      return Err(MalformedFrame);
    }
    if frame[0] != V5_START || frame[n - 1] != V5_END {
      return Err(MalformedFrame);
    }
    if Length(frame[1], frame[2]) != n - HEADER_SIZE - TRAILER_SIZE {
      return Err(MalformedFrame);
    }
    if Le16(frame[3], frame[4]) != RESPONSE_CONTROL {
      return Err(MalformedFrame);
    }
    var checksum := AdditiveChecksum(frame[1..n - 2]);
    if checksum != frame[n - 2] {
      return Err(MalformedFrame);
    }
    if frame[5] != Lo(sequence) || Le32(frame[7], frame[8], frame[9], frame[10]) != serial {
      return Err(IdentityMismatch);
    }
    var payload := frame[HEADER_SIZE..n - TRAILER_SIZE];
    if payload[0] != 0x02 || payload[1] != 0x01 {
      return Err(MalformedFrame);
    }
    var modbus := payload[RESPONSE_METADATA..];
    assert modbus == frame[25..n - 2];
    r := ParseModbus(modbus, slave, count);
  }

  method ParseModbus(modbus: seq<Byte>, slave: Byte, count: bv16) returns (r: Result<seq<bv16>>)
    requires |modbus| >= 5
    ensures r == ModbusResult(modbus, slave, count)
  {
    hide Le16, Crc, CrcMatches, ValueOf;
    var ok := ValidateModbusCRC(modbus);
    if !ok {
      return Err(CrcMismatch);
    }
    var function' := modbus[1];
    if modbus[0] != slave {
      return Err(IdentityMismatch);
    }
    if function' == READ_EXCEPTION {
      return Err(if |modbus| != 5 then MalformedFrame else ModbusException);
    }
    if function' != READ_HOLDING {
      return Err(UnsupportedFunction);
    }
    var byteCount := ValueOf(modbus[2]);
    if byteCount == 0 || byteCount % 2 != 0 || byteCount / 2 > MAX_REGISTERS {
      return Err(MalformedFrame);
    }
    if |modbus| != 3 + byteCount + 2 {
      return Err(MalformedFrame);
    }
    if byteCount != count as int * 2 {
      return Err(IdentityMismatch);
    }
    var registers := ReadRegisters(modbus[3..3 + byteCount]);
    r := Ok(registers);
  }

  method ReadRegisters(data: seq<Byte>) returns (registers: seq<bv16>)
    requires |data| % 2 == 0
    ensures registers == RegistersOf(data)
  {
    hide Le16;
    var out := new bv16[|data| / 2];
    for i := 0 to out.Length
      invariant out[..i] == RegistersOf(data)[..i]
    {
      out[i] := Be16(data[2 * i], data[2 * i + 1]);
      RegisterAt(data, i);
      assert out[..i + 1] == out[..i] + [out[i]];
    }
    registers := out[..];
    assert out[..out.Length] == out[..];
    assert RegistersOf(data)[..out.Length] == RegistersOf(data);
  }

  // ----- the round trip

  /** What an honest logger answers: the sequence high byte and the metadata are its own choice. */
  function Response(serial: bv32, sequence: bv16, metadata: seq<Byte>, slave: Byte, registers: seq<bv16>): (frame: seq<Byte>)
    requires |metadata| == RESPONSE_METADATA - 2 && |registers| <= MAX_REGISTERS
    ensures |frame| == 32 + 2 * |registers|
  {
    FrameOf(RESPONSE_CONTROL, serial, sequence, [0x02, 0x01] + metadata + ReadResponse(slave, registers))
  }

  function ReadResponse(slave: Byte, registers: seq<bv16>): (modbus: seq<Byte>)
    requires |registers| <= MAX_REGISTERS
    ensures |modbus| == 5 + 2 * |registers|
  {
    WithCrc([slave, READ_HOLDING, ByteOf(2 * |registers|)] + BytesOf(registers))
  }

  lemma {:induction false} RegistersInverse(registers: seq<bv16>)
    ensures RegistersOf(BytesOf(registers)) == registers
    decreases registers
  {
    hide Le16, Lo, Hi;
    if registers != [] {
      var data := BytesOf(registers);
      assert data[2..] == BytesOf(registers[1..]);
      Le16Inverse(registers[0], 0, 0);
      RegistersInverse(registers[1..]);
    }
  }

  lemma {:induction false} BytesInverse(data: seq<Byte>)
    requires |data| % 2 == 0
    ensures BytesOf(RegistersOf(data)) == data
    decreases data
  {
    hide Le16, Lo, Hi;
    if data != [] {
      Le16Inverse(0, data[1], data[0]);
      BytesInverse(data[2..]);
      assert RegistersOf(data)[1..] == RegistersOf(data[2..]);
      assert data == [data[0], data[1]] + data[2..];
    }
  }

  lemma HeaderFields(control: bv16, serial: bv32, sequence: bv16, size: nat)
    requires size < 65536
    ensures var h := Header(control, serial, sequence, size);
            h[0] == V5_START && Length(h[1], h[2]) == size && Le16(h[3], h[4]) == control &&
            h[5] == Lo(sequence) && h[6] == Hi(sequence) && Le32(h[7], h[8], h[9], h[10]) == serial
  {
    hide Le16, Le32, Lo, Hi, Byte32, ByteOf, ValueOf, Length;
    LengthOfPut(size);
    Le16Inverse(control, 0, 0);
    Le32Inverse(serial);
  }

  lemma HeaderFromFields(h: seq<Byte>)
    requires |h| == HEADER_SIZE && h[0] == V5_START
    ensures h == Header(Le16(h[3], h[4]), Le32(h[7], h[8], h[9], h[10]), Le16(h[5], h[6]), Length(h[1], h[2]))
  {
    hide Le16, Le32, Lo, Hi, Byte32, ByteOf, ValueOf, Length, PutLength;
    PutOfLength(h[1], h[2]);
    Le16Inverse(0, h[3], h[4]);
    Le16Inverse(0, h[5], h[6]);
    Byte32Inverse(h[7], h[8], h[9], h[10]);
  }

  /** The envelope checks accept a sealed response and hand on its Modbus part ... */
  lemma EnvelopeOfBuilt(serial: bv32, sequence: bv16, answered: bv16, metadata: seq<Byte>, modbus: seq<Byte>)
    requires |metadata| == RESPONSE_METADATA - 2 && 5 <= |modbus| < 65536 - RESPONSE_METADATA
    requires Lo(answered) == Lo(sequence)
    ensures EnvelopeError(FrameOf(RESPONSE_CONTROL, serial, answered, [0x02, 0x01] + metadata + modbus), serial, sequence)
         == Ok(modbus)
  {
    hide Le16, Le32, Lo, Hi, Byte32, ByteOf, ValueOf, Length, Checksum, Header;
    var payload := [0x02, 0x01] + metadata + modbus;
    var header := Header(RESPONSE_CONTROL, serial, answered, |payload|);
    HeaderFields(RESPONSE_CONTROL, serial, answered, |payload|);
    var frame := FrameOf(RESPONSE_CONTROL, serial, answered, payload);
    assert frame[..HEADER_SIZE] == header;
    assert frame[1..|frame| - 2] == (header + payload)[1..];
    assert frame[25..|frame| - 2] == modbus;
  }

  /** ... and accept nothing else. */
  lemma EnvelopeAccepts(frame: seq<Byte>, serial: bv32, sequence: bv16)
    requires EnvelopeError(frame, serial, sequence).Ok?
    ensures var answered := Le16(frame[5], frame[6]);
            Lo(answered) == Lo(sequence) &&
            frame == FrameOf(RESPONSE_CONTROL, serial, answered, [0x02, 0x01] + frame[13..25] + frame[25..|frame| - 2])
  {
    hide Le16, Le32, Lo, Hi, Byte32, ByteOf, ValueOf, Length, Checksum, Header;
    var n := |frame|;
    var header, payload := frame[..HEADER_SIZE], frame[HEADER_SIZE..n - 2];
    HeaderFromFields(header);
    Le16Inverse(0, frame[5], frame[6]);
    assert payload == [0x02, 0x01] + frame[13..25] + frame[25..n - 2];
    assert (header + payload)[1..] == frame[1..n - 2];
    assert frame == header + payload + [frame[n - 2], frame[n - 1]];
  }

  lemma CrcMatchesBuilt(body: seq<Byte>)
    ensures CrcMatches(WithCrc(body))
  {
    hide Crc, Le16, Lo, Hi;
    Le16Inverse(Crc(body), 0, 0);
    assert WithCrc(body)[..|body|] == body;
  }

  /** The Modbus check passes exactly when the whole message leaves a zero register. */
  lemma CrcMatchesIffResidueZero(modbus: seq<Byte>)
    requires |modbus| >= 2
    ensures CrcMatches(modbus) <==> Crc(modbus) == 0
  {
    hide Crc, Lo, Hi, CrcMatches;
    var n := |modbus| - 2;
    assert modbus == modbus[..n] + [modbus[n], modbus[n + 1]];
    CrcResidue(modbus[..n], modbus[n], modbus[n + 1]);
    CrcMatchesBytes(modbus);
  }

  lemma CrcMatchesIffBuilt(modbus: seq<Byte>)
    requires |modbus| >= 2
    ensures CrcMatches(modbus) <==> modbus == WithCrc(modbus[..|modbus| - 2])
  {
    hide Crc, Lo, Hi, CrcMatches;
    var n := |modbus| - 2;
    var body := modbus[..n];
    assert modbus == body + [modbus[n], modbus[n + 1]];
    CrcMatchesBytes(modbus);
    assert WithCrc(body)[n] == Lo(Crc(body)) && WithCrc(body)[n + 1] == Hi(Crc(body));
  }

  lemma CrcMatchesBytes(modbus: seq<Byte>)
    requires |modbus| >= 2
    ensures var w := Crc(modbus[..|modbus| - 2]);
            CrcMatches(modbus) <==> modbus[|modbus| - 2] == Lo(w) && modbus[|modbus| - 1] == Hi(w)
  {
    hide Crc, Le16, Lo, Hi;
    Le16Inverse(Crc(modbus[..|modbus| - 2]), modbus[|modbus| - 2], modbus[|modbus| - 1]);
  }

  lemma ModbusOfBuilt(slave: Byte, registers: seq<bv16>, count: bv16)
    requires 1 <= |registers| == count as int <= MAX_REGISTERS
    ensures ModbusResult(ReadResponse(slave, registers), slave, count) == Ok(registers)
  {
    hide Crc, Le16, Lo, Hi, ByteOf, ValueOf, CrcMatches, BytesOf, RegistersOf;
    var modbus, n := ReadResponse(slave, registers), 2 * |registers|;
    CrcMatchesBuilt([slave, READ_HOLDING, ByteOf(n)] + BytesOf(registers));
    ByteValue(n);
    RegistersInverse(registers);
    assert modbus[3..3 + n] == BytesOf(registers);
  }

  lemma ModbusAccepts(modbus: seq<Byte>, slave: Byte, count: bv16)
    requires |modbus| >= 5 && ModbusResult(modbus, slave, count).Ok?
    ensures var registers := ModbusResult(modbus, slave, count).value;
            1 <= |registers| == count as int <= MAX_REGISTERS && modbus == ReadResponse(slave, registers)
  {
    hide Crc, Le16, Lo, Hi, ByteOf, ValueOf, CrcMatches, BytesOf, RegistersOf;
    var bytes := ValueOf(modbus[2]);
    var body := modbus[..|modbus| - 2];
    CrcMatchesIffBuilt(modbus);
    BytesInverse(modbus[3..3 + bytes]);
    ValueByte(modbus[2]);
    assert body == [modbus[0], modbus[1], modbus[2]] + modbus[3..3 + bytes];
  }

  /** Parsing what an honest logger builds returns the registers it was built from. */
  lemma ParseOfResponse(serial: bv32, sequence: bv16, answered: bv16, metadata: seq<Byte>, slave: Byte,
                        registers: seq<bv16>, count: bv16)
    requires |metadata| == RESPONSE_METADATA - 2
    requires 1 <= |registers| == count as int <= MAX_REGISTERS
    requires Lo(answered) == Lo(sequence)
    ensures Parse(Response(serial, answered, metadata, slave, registers), serial, sequence, slave, count) == Ok(registers)
  {
    hide EnvelopeError, ModbusResult, FrameOf, ReadResponse, Lo;
    EnvelopeOfBuilt(serial, sequence, answered, metadata, ReadResponse(slave, registers));
    ModbusOfBuilt(slave, registers, count);
  }

  /** Every accepted frame is such a build: only the sequence high byte and twelve metadata bytes are free. */
  lemma AcceptedIsResponse(frame: seq<Byte>, serial: bv32, sequence: bv16, slave: Byte, count: bv16)
    requires Parse(frame, serial, sequence, slave, count).Ok?
    ensures var registers := Parse(frame, serial, sequence, slave, count).value;
            1 <= |registers| == count as int <= MAX_REGISTERS &&
            |frame| == 32 + 2 * |registers| &&
            Lo(Le16(frame[5], frame[6])) == Lo(sequence) &&
            frame == Response(serial, Le16(frame[5], frame[6]), frame[13..25], slave, registers)
  {
    hide EnvelopeError, ModbusResult, FrameOf, ReadResponse, Lo, Le16;
    EnvelopeAccepts(frame, serial, sequence);
    ModbusAccepts(frame[25..|frame| - 2], slave, count);
  }

  // ----- what corruption cannot get past

  lemma AcceptedMarkersAndChecksum(frame: seq<Byte>, serial: bv32, sequence: bv16, slave: Byte, count: bv16)
    requires Parse(frame, serial, sequence, slave, count).Ok?
    ensures |frame| >= 32 && frame[0] == V5_START && frame[|frame| - 1] == V5_END
    ensures Checksum(frame[1..|frame| - 2]) == frame[|frame| - 2]
    ensures CrcMatches(frame[25..|frame| - 2])
  {
    hide Checksum, CrcMatches, Length, Le16, Le32, Lo, ValueOf, RegistersOf;
  }

  /** Changing exactly one byte of an accepted frame always makes it rejected. */
  lemma OneByteChangedIsRejected(frame: seq<Byte>, serial: bv32, sequence: bv16, slave: Byte, count: bv16, i: nat, b: Byte)
    requires Parse(frame, serial, sequence, slave, count).Ok?
    requires i < |frame| && b != frame[i]
    ensures Parse(frame[i := b], serial, sequence, slave, count).Err?
  {
    hide Parse, Checksum, CrcMatches;
    var n, changed := |frame|, frame[i := b];
    AcceptedMarkersAndChecksum(frame, serial, sequence, slave, count);
    if Parse(changed, serial, sequence, slave, count).Ok? {
      AcceptedMarkersAndChecksum(changed, serial, sequence, slave, count);
      if 0 < i < n - 2 {
        assert changed[1..n - 2] == frame[1..n - 2][i - 1 := b];
        ChecksumSeesOneByte(frame[1..n - 2], i - 1, b);
      }
    }
  }

  /**
    Two adjacent Modbus bytes cannot be corrupted together unnoticed, not even by a swap
    or any other change that leaves the additive checksum as it was.
   */
  lemma TwoModbusBytesChangedIsRejected(frame: seq<Byte>, other: seq<Byte>, serial: bv32, sequence: bv16, slave: Byte,
                                        count: bv16, i: nat)
    requires Parse(frame, serial, sequence, slave, count).Ok?
    requires |other| == |frame| && other != frame
    requires 25 <= i < |frame| - 3
    requires forall k :: 0 <= k < |frame| && k != i && k != i + 1 ==> other[k] == frame[k]
    ensures Parse(other, serial, sequence, slave, count).Err?
  {
    hide Parse, Checksum, CrcMatches, Crc;
    var n := |frame|;
    AcceptedMarkersAndChecksum(frame, serial, sequence, slave, count);
    if Parse(other, serial, sequence, slave, count).Ok? {
      AcceptedMarkersAndChecksum(other, serial, sequence, slave, count);
      var f, g := frame[25..n - 2], other[25..n - 2];
      CrcMatchesIffResidueZero(f);
      CrcMatchesIffResidueZero(g);
      assert f[i - 25] == frame[i] && g[i - 25] == other[i] && f[i - 24] == frame[i + 1] && g[i - 24] == other[i + 1];
      assert frame == frame[..25] + f + frame[n - 2..] && other == other[..25] + g + other[n - 2..];
      assert frame[..25] == other[..25] && frame[n - 2..] == other[n - 2..];
      AdjacentBytesDetected(f, g, i - 25);
    }
  }
}
