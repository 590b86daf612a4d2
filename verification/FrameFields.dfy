/**
  What stands where in a frame, byte by byte: what the logger reads out of a request, what a client
  reads out of an answer, and what exactly each kind of refusal means.
 */
module FrameFields {
  import opened Crc16
  import opened Frame

  // ----- byte order

  lemma Words(a: Byte, b: Byte)
    ensures Le16(a, b) == (a as bv16) + 256 * (b as bv16)
    ensures Be16(a, b) == 256 * (a as bv16) + (b as bv16)
  {}

  lemma DoubleWords(a: Byte, b: Byte, c: Byte, d: Byte)
    ensures Le32(a, b, c, d) == (a as bv32) + 0x100 * (b as bv32) + 0x1_0000 * (c as bv32) + 0x100_0000 * (d as bv32)
  {}

  // ----- the additive checksum is a sum

  lemma SumOfSuccessor(a: Byte, c: Byte)
    ensures Sum(a, Sum(c, 1)) == Sum(Sum(a, c), 1) && Sum(a, 0) == a
  {}

  lemma Successor(b: Byte)
    ensures ValueOf(Sum(b, 1)) == (ValueOf(b) + 1) % 256
  {
    hide ValueOf, BinaryValue, Sum;
    ValueIsBinary(b);
    ValueIsBinary(Sum(b, 1));
    if b == 255 {
      ValueIsBinary(0);
      BinaryExtremes();
      Wraps();
    } else {
      BinaryIncrement(b);
    }
  }

  lemma Wraps()
    ensures Sum(255, 1) == 0
  {}

  lemma ModularStep(x: nat)
    ensures (x % 256 + 1) % 256 == (x + 1) % 256
  {}

  lemma {:induction false} SumIsModular(a: Byte, b: Byte)
    ensures ValueOf(Sum(a, b)) == (ValueOf(a) + ValueOf(b)) % 256
    decreases ValueOf(b)
  {
    hide ValueOf, BinaryValue, Sum;
    ValueIsBinary(0);
    BinaryExtremes();
    if b == 0 {
      SumOfSuccessor(a, 0);
    } else {
      NonZeroValue(b);
      var c := SomeByteHasValue(ValueOf(b) - 1);
      Successor(c);
      ValueByte(b);
      ValueByte(Sum(c, 1));
      SumIsModular(a, c);
      SumOfSuccessor(a, c);
      Successor(Sum(a, c));
      assert ValueOf(b) == ValueOf(c) + 1;
      ModularStep(ValueOf(a) + ValueOf(c));
    }
  }

  lemma NonZeroValue(b: Byte)
    requires b != 0
    ensures ValueOf(b) > 0
  {
    hide ValueOf;
    ValueIsBinary(b);
  }

  lemma ModularSum(x: nat, y: nat)
    ensures (x % 256 + y) % 256 == (x + y) % 256
  {}

  function Total(data: seq<Byte>): nat {
    if data == [] then 0 else Total(data[..|data| - 1]) + ValueOf(data[|data| - 1])
  }

  /** The checksum is the sum of all bytes modulo 256. */
  lemma {:induction false} ChecksumIsTotal(data: seq<Byte>)
    ensures ValueOf(Checksum(data)) == Total(data) % 256
    decreases |data|
  {
    hide ValueOf, Sum;
    if data == [] {
      ValueIsBinary(0);
      BinaryExtremes();
    } else {
      var n := |data| - 1;
      ChecksumIsTotal(data[..n]);
      SumIsModular(Checksum(data[..n]), data[n]);
      ModularSum(Total(data[..n]), ValueOf(data[n]));
    }
  }

  // ----- every frame

  /** A frame with this payload, as its reader takes it apart: little-endian fields at fixed places. */
  ghost predicate Carries(frame: seq<Byte>, control: bv16, serial: bv32, sequence: bv16, payload: seq<Byte>) {
    && |frame| == 13 + |payload|
    && frame[0] == 0xA5 && frame[|frame| - 1] == 0x15
    && ValueOf(frame[1]) + 256 * ValueOf(frame[2]) == |payload|
    && (frame[3] as bv16) + 256 * (frame[4] as bv16) == control
    && (frame[5] as bv16) + 256 * (frame[6] as bv16) == sequence
    && (frame[7] as bv32) + 0x100 * (frame[8] as bv32) + 0x1_0000 * (frame[9] as bv32) + 0x100_0000 * (frame[10] as bv32) == serial
    && frame[11..|frame| - 2] == payload
    && ValueOf(frame[|frame| - 2]) == Total(frame[1..|frame| - 2]) % 256
  }

  lemma BuiltCarries(control: bv16, serial: bv32, sequence: bv16, payload: seq<Byte>)
    requires |payload| < 65536
    ensures Carries(FrameOf(control, serial, sequence, payload), control, serial, sequence, payload)
  {
    hide Le16, Le32, Lo, Hi, Byte32, ByteOf, ValueOf, Checksum, Header, Total, Crc;
    var header := Header(control, serial, sequence, |payload|);
    var frame := FrameOf(control, serial, sequence, payload);
    HeaderFields(control, serial, sequence, |payload|);
    assert frame[..11] == header;
    Le16Inverse(sequence, 0, 0);
    Words(frame[3], frame[4]);
    Words(frame[5], frame[6]);
    DoubleWords(frame[7], frame[8], frame[9], frame[10]);
    assert frame[1..|frame| - 2] == (header + payload)[1..];
    ChecksumIsTotal(frame[1..|frame| - 2]);
  }

  // ----- what the logger reads

  /**
    A request as the logger takes it apart: its own serial, the sequence, and a Modbus read of `count`
    registers from `start` on, high bytes first, with a matching checksum.
   */
  lemma RequestArrives(serial: bv32, sequence: bv16, slave: Byte, start: bv16, count: bv16)
    ensures var frame := FrameOf(REQUEST_CONTROL, serial, sequence, RequestPayload(slave, start, count));
            && |frame| == 36 && Carries(frame, 0x4510, serial, sequence, frame[11..34])
            && frame[11] == 0x02 && (forall i :: 12 <= i < 26 ==> frame[i] == 0)
            && frame[26] == slave && frame[27] == 0x03
            && 256 * (frame[28] as bv16) + (frame[29] as bv16) == start
            && 256 * (frame[30] as bv16) + (frame[31] as bv16) == count
            && Crc(frame[26..32]) == (frame[32] as bv16) + 256 * (frame[33] as bv16)
            && Crc(frame[26..34]) == 0
  {
    hide Le16, Lo, Hi, Crc, FrameOf, Carries, CrcMatches;
    var payload := RequestPayload(slave, start, count);
    var frame := FrameOf(REQUEST_CONTROL, serial, sequence, payload);
    BuiltCarries(0x4510, serial, sequence, payload);
    CarriedPayload(frame, 0x4510, serial, sequence, payload);
    RequestPayloadFields(payload, slave, start, count);
    assert frame[26..32] == payload[15..21] && frame[26..34] == payload[15..23];
  }

  lemma CarriedPayload(frame: seq<Byte>, control: bv16, serial: bv32, sequence: bv16, payload: seq<Byte>)
    requires Carries(frame, control, serial, sequence, payload)
    ensures |frame| == 13 + |payload| && frame[11..|frame| - 2] == payload
    ensures forall i :: 0 <= i < |payload| ==> frame[11 + i] == payload[i]
  {
    hide ValueOf, Total;
    forall i | 0 <= i < |payload| ensures frame[11 + i] == payload[i] {
      assert frame[11..|frame| - 2][i] == frame[11 + i];
    }
  }

  lemma RequestPayloadFields(payload: seq<Byte>, slave: Byte, start: bv16, count: bv16)
    requires payload == RequestPayload(slave, start, count)
    ensures |payload| == 23 && payload[0] == 0x02 && forall i :: 1 <= i < 15 ==> payload[i] == 0
    ensures payload[15] == slave && payload[16] == 0x03
    ensures 256 * (payload[17] as bv16) + (payload[18] as bv16) == start
    ensures 256 * (payload[19] as bv16) + (payload[20] as bv16) == count
    ensures Crc(payload[15..21]) == (payload[21] as bv16) + 256 * (payload[22] as bv16)
    ensures Crc(payload[15..23]) == 0
  {
    hide Le16, Lo, Hi, Crc, CrcMatches;
    var body := [slave, READ_HOLDING] + PutBe16(start) + PutBe16(count);
    assert payload[15..21] == body && payload[15..23] == WithCrc(body);
    Le16Inverse(start, 0, 0);
    Le16Inverse(count, 0, 0);
    Le16Inverse(Crc(body), 0, 0);
    Words(payload[17], payload[18]);
    Words(payload[19], payload[20]);
    Words(payload[21], payload[22]);
    CrcMatchesBuilt(body);
    CrcMatchesIffResidueZero(WithCrc(body));
  }

  // ----- what the client reads

  ghost predicate Enclosed(frame: seq<Byte>) {
    && |frame| >= 32 && frame[0] == 0xA5 && frame[|frame| - 1] == 0x15
    && ValueOf(frame[1]) + 256 * ValueOf(frame[2]) == |frame| - 13
    && frame[3] == 0x10 && frame[4] == 0x15
    && ValueOf(frame[|frame| - 2]) == Total(frame[1..|frame| - 2]) % 256
  }

  /** From the right logger, to the request with this low sequence byte. */
  predicate Addressed(frame: seq<Byte>, serial: bv32, sequence: bv16)
    requires |frame| >= 32
  {
    && (frame[5] as bv16) == sequence % 256
    && (frame[7] as bv32) + 0x100 * (frame[8] as bv32) + 0x1_0000 * (frame[9] as bv32) + 0x100_0000 * (frame[10] as bv32) == serial
  }

  /** An inverter's answer with a sound Modbus message. */
  predicate Sound(frame: seq<Byte>)
    requires |frame| >= 32
  {
    frame[11] == 0x02 && frame[12] == 0x01 && Crc(frame[25..|frame| - 2]) == 0
  }

  /** One to 125 registers, and as many bytes as announced. */
  predicate WellSized(frame: seq<Byte>)
    requires |frame| >= 32
  {
    var bytes := ValueOf(frame[27]);
    bytes % 2 == 0 && 2 <= bytes <= 250 && |frame| == 32 + bytes
  }

  lemma LowByte(w: bv16, b: Byte)
    ensures b == Lo(w) <==> (b as bv16) == w % 256
  {}

  lemma ResponseControl(a: Byte, b: Byte)
    ensures Le16(a, b) == RESPONSE_CONTROL <==> a == 0x10 && b == 0x15
  {}

  lemma EqualValues(a: Byte, b: Byte)
    ensures ValueOf(a) == ValueOf(b) <==> a == b
  {
    hide ValueOf, ByteOf;
    ValueByte(a);
    ValueByte(b);
  }

  lemma EnvelopeVerdict(frame: seq<Byte>, serial: bv32, sequence: bv16)
    ensures var e := EnvelopeError(frame, serial, sequence);
            && (e == Err(IdentityMismatch) <==> Enclosed(frame) && !Addressed(frame, serial, sequence))
            && (e.Ok? <==> Enclosed(frame) && Addressed(frame, serial, sequence) && frame[11] == 0x02 && frame[12] == 0x01)
            && (e.Err? ==> e.error == IdentityMismatch || e.error == MalformedFrame)
  {
    hide Le16, Le32, Lo, ValueOf, Checksum, Total;
    if |frame| >= 32 {
      var n := |frame|;
      ResponseControl(frame[3], frame[4]);
      LowByte(sequence, frame[5]);
      DoubleWords(frame[7], frame[8], frame[9], frame[10]);
      ChecksumIsTotal(frame[1..n - 2]);
      EqualValues(Checksum(frame[1..n - 2]), frame[n - 2]);
    }
  }

  lemma ModbusVerdict(modbus: seq<Byte>, slave: Byte, count: bv16)
    requires |modbus| >= 5
    ensures var r, bytes := ModbusResult(modbus, slave, count), ValueOf(modbus[2]);
            var heard := CrcMatches(modbus) && modbus[0] == slave;
            var sized := bytes % 2 == 0 && 2 <= bytes <= 250 && |modbus| == 5 + bytes;
            && (r.Ok? <==> heard && modbus[1] == 0x03 && sized && bytes == 2 * (count as int))
            && (r == Err(CrcMismatch) <==> !CrcMatches(modbus))
            && (r == Err(ModbusException) <==> heard && modbus[1] == 0x83 && |modbus| == 5)
            && (r == Err(UnsupportedFunction) <==> heard && modbus[1] != 0x03 && modbus[1] != 0x83)
            && (r == Err(IdentityMismatch) <==>
                  || (CrcMatches(modbus) && modbus[0] != slave)
                  || (heard && modbus[1] == 0x03 && sized && bytes != 2 * (count as int)))
  {
    hide CrcMatches, ValueOf, RegistersOf;
  }

  /**
    When a frame is accepted, and for each error what it means; what is left is malformed. A frame
    is another's if its envelope says so, or its Modbus message, or the number of registers.
   */
  lemma Verdicts(frame: seq<Byte>, serial: bv32, sequence: bv16, slave: Byte, count: bv16)
    ensures var r := Parse(frame, serial, sequence, slave, count);
            var ours := Enclosed(frame) && Addressed(frame, serial, sequence);
            var heard := ours && Sound(frame) && frame[25] == slave;
            var fits := |frame| >= 32 && WellSized(frame);
            && (r.Ok? <==> heard && frame[26] == 0x03 && fits && ValueOf(frame[27]) == 2 * (count as int))
            && (r == Err(CrcMismatch) <==> ours && frame[11] == 0x02 && frame[12] == 0x01 && !Sound(frame))
            && (r == Err(ModbusException) <==> heard && frame[26] == 0x83 && |frame| == 32)
            && (r == Err(UnsupportedFunction) <==> heard && frame[26] != 0x03 && frame[26] != 0x83)
            && (r == Err(IdentityMismatch) <==>
                  || (Enclosed(frame) && !ours)
                  || (ours && Sound(frame) && frame[25] != slave)
                  || (heard && frame[26] == 0x03 && fits && ValueOf(frame[27]) != 2 * (count as int)))
  {
    hide EnvelopeError, ModbusResult, Enclosed, Addressed, CrcMatches, Crc, ValueOf;
    EnvelopeVerdict(frame, serial, sequence);
    EnclosedSize(frame);
    if |frame| >= 32 {
      var modbus := frame[25..|frame| - 2];
      assert modbus[0] == frame[25] && modbus[1] == frame[26] && modbus[2] == frame[27];
      CrcMatchesIffResidueZero(modbus);
      ModbusVerdict(modbus, slave, count);
    }
  }

  lemma EnclosedSize(frame: seq<Byte>)
    ensures Enclosed(frame) ==> |frame| >= 32
  {
    hide ValueOf, Total;
  }

  /** The registers of an accepted frame, high byte first. */
  lemma AcceptedRegisters(frame: seq<Byte>, serial: bv32, sequence: bv16, slave: Byte, count: bv16, i: nat)
    requires Parse(frame, serial, sequence, slave, count).Ok? && i < count as int
    ensures var registers := Parse(frame, serial, sequence, slave, count).value;
            |registers| == count as int && |frame| == 32 + 2 * |registers| &&
            registers[i] == 256 * (frame[28 + 2 * i] as bv16) + (frame[29 + 2 * i] as bv16)
  {
    hide EnvelopeError, ModbusResult, Response, Le16, Lo, ReadResponse;
    AcceptedIsResponse(frame, serial, sequence, slave, count);
    ModbusRegisters(frame[25..|frame| - 2], slave, count, i);
    Words(frame[28 + 2 * i], frame[29 + 2 * i]);
  }

  lemma ModbusRegisters(modbus: seq<Byte>, slave: Byte, count: bv16, i: nat)
    requires |modbus| >= 5 && ModbusResult(modbus, slave, count).Ok? && i < count as int
    ensures |modbus| == 5 + 2 * (count as int)
    ensures |ModbusResult(modbus, slave, count).value| == count as int
    ensures ModbusResult(modbus, slave, count).value[i] == Be16(modbus[3 + 2 * i], modbus[4 + 2 * i])
  {
    hide CrcMatches, Le16, ValueOf, RegistersOf;
    var data := modbus[3..3 + ValueOf(modbus[2])];
    RegisterAt(data, i);
  }
}
