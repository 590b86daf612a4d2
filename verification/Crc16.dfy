/**
  The Modbus RTU checksum of `internal/solarman/crc.go`: the byte loop, the same
  checksum fed one bit at a time, and what it detects.

  The bit-serial form follows section 2.5.1.2 of "MODBUS over Serial Line,
  Specification and Implementation Guide V1.02": the register starts full of ones,
  each byte enters least significant bit first, and the generator is 0xA001.
 */
module Crc16 {

  type Byte = bv8
  type Register = bv16

  const POLYNOMIAL: Register := 0xA001
  const INITIAL: Register := 0xFFFF
  /** The longest burst, in bits, that the checksum always detects. */
  const BURST: nat := 16

  // ----- register operations and the laws the proofs rest on

  function Xor(a: Register, b: Register): Register { a ^ b }
  function Down(a: Register): Register { a >> 1 }
  function Up(a: Register): Register { a << 1 }
  predicate Odd(a: Register) { a & 1 != 0 }
  predicate Top(a: Register) { a & 0x8000 != 0 }
  function Widen(b: Byte): Register { b as bv16 }
  function Bit(b: bool): Register { if b then 1 else 0 }
  function Lo(w: Register): Byte { (w & 0xFF) as bv8 }
  function Hi(w: Register): Byte { (w >> 8) as bv8 }

  lemma XorAssociative(a: Register, b: Register, c: Register)
    ensures Xor(Xor(a, b), c) == Xor(a, Xor(b, c))
  {}

  lemma XorCommutes(a: Register, b: Register)
    ensures Xor(a, b) == Xor(b, a)
  {}

  lemma XorCancels(a: Register, m: Register)
    ensures Xor(Xor(a, m), m) == a && Xor(a, a) == 0 && Xor(a, 0) == a && Xor(0, a) == a
  {}

  lemma UpDistributes(a: Register, b: Register)
    ensures Up(Xor(a, b)) == Xor(Up(a), Up(b))
  {}

  lemma DownDistributes(a: Register, b: Register)
    ensures Down(Xor(a, b)) == Xor(Down(a), Down(b))
  {}

  lemma ParityOfXor(a: Register, b: Register)
    ensures Odd(Xor(a, b)) == (Odd(a) != Odd(b))
    ensures Top(Xor(a, b)) == (Top(a) != Top(b))
  {}

  lemma BitLaws(b: bool)
    ensures Odd(Bit(b)) == b && Down(Bit(b)) == 0 && !Odd(Up(Bit(b)))
  {}

  lemma BitsXor(x: bool, y: bool)
    ensures Xor(Bit(x), Bit(y)) == Bit(x != y)
  {}

  lemma UpIsEven(a: Register)
    ensures !Odd(Up(a)) && (!Top(a) && Up(a) == 0 ==> a == 0) && Up(0) == 0 && !Top(0) && Down(0) == 0 && !Odd(0)
  {}

  lemma SameHalves(a: Register, b: Register)
    requires Down(a) == Down(b) && Odd(a) == Odd(b)
    ensures a == b
  {}

  // ----- the checksum

  function Step(crc: Register): Register {
    if Odd(crc) then Xor(Down(crc), POLYNOMIAL) else Down(crc)
  }

  function Steps(crc: Register, n: nat): Register
    decreases n
  {
    if n == 0 then crc else Steps(Step(crc), n - 1)
  }

  function ByteStep(crc: Register, b: Byte): Register {
    Steps(Xor(crc, Widen(b)), 8)
  }

  function Crc(data: seq<Byte>): Register {
    if data == [] then INITIAL else ByteStep(Crc(data[..|data| - 1]), data[|data| - 1])
  }

  method CRC16(data: seq<Byte>) returns (crc: Register)
    ensures crc == Crc(data)
  {
    hide Xor, Down, Odd, Widen;
    crc := INITIAL;
    for i := 0 to |data|
      invariant crc == Crc(data[..i])
    {
      assert data[..i + 1][..i] == data[..i];
      crc := Xor(crc, Widen(data[i]));
      ghost var mixed := crc;
      for k := 0 to 8
        invariant Steps(crc, 8 - k) == Steps(mixed, 8)
      {
        if Odd(crc) {
          crc := Xor(Down(crc), POLYNOMIAL);
        } else {
          crc := Down(crc);
        }
      }
    }
    assert data[..|data|] == data;
  }

  // ----- one step is a bijection on 16-bit states

  function Unstep(crc: Register): Register {
    if Top(crc) then Xor(Up(Xor(crc, POLYNOMIAL)), 1) else Up(crc)
  }

  lemma StepBijective(crc: Register)
    ensures Unstep(Step(crc)) == crc && Step(Unstep(crc)) == crc
  {
    UnstepOfStep(crc);
    StepOfUnstep(crc);
  }

  lemma UnstepOfStep(crc: Register)
    ensures Unstep(Step(crc)) == crc
  {}

  lemma StepOfUnstep(crc: Register)
    ensures Step(Unstep(crc)) == crc
  {
    hide Step, Unstep;
    if Top(crc) {
      OddAfterUnstep(crc);
    } else {
      EvenAfterUnstep(crc);
    }
  }

  lemma OddAfterUnstep(crc: Register)
    requires Top(crc)
    ensures Step(Unstep(crc)) == crc
  {
    var up := Up(Xor(crc, POLYNOMIAL));
    UpIsEven(Xor(crc, POLYNOMIAL));
    BitLaws(true);
    ParityOfXor(up, 1);
    DownOfUnstep(crc);
    XorCancels(crc, POLYNOMIAL);
  }

  lemma DownOfUnstep(crc: Register)
    requires Top(crc)
    ensures Down(Xor(Up(Xor(crc, POLYNOMIAL)), 1)) == Xor(crc, POLYNOMIAL)
  {}

  lemma EvenAfterUnstep(crc: Register)
    requires !Top(crc)
    ensures Step(Unstep(crc)) == crc
  {}

  /** States whose images differ only below the top bit differ by that difference shifted up. */
  lemma StepDifference(a: Register, b: Register)
    requires !Top(Xor(Step(a), Step(b)))
    ensures Xor(a, b) == Up(Xor(Step(a), Step(b)))
  {
    hide *;
    UnstepOfStep(a);
    UnstepOfStep(b);
    UnstepDifference(Step(a), Step(b));
  }

  lemma UnstepDifference(u: Register, v: Register)
    requires !Top(Xor(u, v))
    ensures Xor(Unstep(u), Unstep(v)) == Up(Xor(u, v))
  {
    hide Xor, Up, Top;
    ParityOfXor(u, v);
    if Top(u) {
      var p, q := Up(Xor(u, POLYNOMIAL)), Up(Xor(v, POLYNOMIAL));
      XorBothSides(p, q, 1);
      UpDistributes(Xor(u, POLYNOMIAL), Xor(v, POLYNOMIAL));
      XorBothSides(u, v, POLYNOMIAL);
    } else {
      UpDistributes(u, v);
    }
  }

  lemma XorBothSides(a: Register, b: Register, m: Register)
    ensures Xor(Xor(a, m), Xor(b, m)) == Xor(a, b)
  {
    hide Xor;
    Regroup(a, b, m, m);
    XorCancels(m, m);
    XorCancels(Xor(a, b), 0);
  }

  lemma StepInjective(a: Register, b: Register)
    requires Step(a) == Step(b)
    ensures a == b
  {
    hide *;
    UnstepOfStep(a);
    UnstepOfStep(b);
  }

  lemma {:induction false} StepsInjective(a: Register, b: Register, n: nat)
    requires Steps(a, n) == Steps(b, n)
    ensures a == b
    decreases n
  {
    hide Step;
    if n > 0 {
      StepsInjective(Step(a), Step(b), n - 1);
      StepInjective(a, b);
    }
  }

  // ----- the same checksum, one bit at a time

  function FeedBit(crc: Register, b: bool): Register {
    Step(Xor(crc, Bit(b)))
  }

  function Feed(crc: Register, bits: seq<bool>): Register
    decreases bits
  {
    if bits == [] then crc else Feed(FeedBit(crc, bits[0]), bits[1..])
  }

  /** The lowest `n` bits of `x`, least significant first. */
  function LowBits(x: Register, n: nat): (bits: seq<bool>)
    ensures |bits| == n
    decreases n
  {
    if n == 0 then [] else [Odd(x)] + LowBits(Down(x), n - 1)
  }

  function Shifted(x: Register, n: nat): Register
    decreases n
  {
    if n == 0 then x else Shifted(Down(x), n - 1)
  }

  function ByteBits(b: Byte): (bits: seq<bool>)
    ensures |bits| == 8
  {
    LowBits(Widen(b), 8)
  }

  /** The bits of a message in the order in which they are transmitted. */
  function Bits(data: seq<Byte>): (bits: seq<bool>)
    ensures |bits| == 8 * |data|
  {
    if data == [] then [] else Bits(data[..|data| - 1]) + ByteBits(data[|data| - 1])
  }

  lemma StepSplit(crc: Register, x: Register)
    ensures Step(Xor(crc, x)) == Xor(FeedBit(crc, Odd(x)), Down(x))
  {
    hide Xor, Down, Odd, Bit;
    var bit := Bit(Odd(x));
    BitLaws(Odd(x));
    ParityOfXor(crc, x);
    ParityOfXor(crc, bit);
    DownDistributes(crc, x);
    DownDistributes(crc, bit);
    XorCancels(Down(crc), 0);
    XorAssociative(Down(crc), Down(x), POLYNOMIAL);
    XorCommutes(Down(x), POLYNOMIAL);
    XorAssociative(Down(crc), POLYNOMIAL, Down(x));
  }

  lemma {:induction false} FeedLowBits(crc: Register, x: Register, n: nat)
    ensures Steps(Xor(crc, x), n) == Xor(Feed(crc, LowBits(x, n)), Shifted(x, n))
    decreases n
  {
    hide Xor, Down, Odd, Step, FeedBit;
    if n > 0 {
      StepSplit(crc, x);
      FeedLowBits(FeedBit(crc, Odd(x)), Down(x), n - 1);
      assert LowBits(x, n)[1..] == LowBits(Down(x), n - 1);
    }
  }

  lemma ShiftedUnroll(x: Register)
    ensures Shifted(x, 8) == Down(Down(Down(Down(Down(Down(Down(Down(x))))))))
  {
    hide Down;
    assert Shifted(x, 8) == Shifted(Down(Down(x)), 6) == Shifted(Down(Down(Down(Down(x)))), 4)
        == Shifted(Down(Down(Down(Down(Down(Down(x)))))), 2);
  }

  lemma ByteHasEightBits(b: Byte)
    ensures Shifted(Widen(b), 8) == 0
  {
    hide Shifted;
    ShiftedUnroll(Widen(b));
  }

  lemma FeedByte(crc: Register, b: Byte)
    ensures Feed(crc, ByteBits(b)) == ByteStep(crc, b)
  {
    hide Xor, Widen, Steps, Feed, LowBits, Shifted;
    FeedLowBits(crc, Widen(b), 8);
    ByteHasEightBits(b);
    XorCancels(Feed(crc, ByteBits(b)), 0);
  }

  lemma {:induction false} FeedConcat(crc: Register, a: seq<bool>, b: seq<bool>)
    ensures Feed(crc, a + b) == Feed(Feed(crc, a), b)
    decreases a
  {
    hide FeedBit;
    if a == [] {
      assert a + b == b;
    } else {
      assert (a + b)[1..] == a[1..] + b;
      FeedConcat(FeedBit(crc, a[0]), a[1..], b);
    }
  }

  /** The byte loop computes exactly the bit-serial checksum. */
  lemma {:induction false} CrcIsBitSerial(data: seq<Byte>)
    ensures Crc(data) == Feed(INITIAL, Bits(data))
  {
    hide ByteStep, FeedBit, ByteBits;
    if data != [] {
      var front, last := data[..|data| - 1], data[|data| - 1];
      CrcIsBitSerial(front);
      FeedConcat(INITIAL, Bits(front), ByteBits(last));
      FeedByte(Crc(front), last);
    }
  }

  // ----- burst detection

  lemma FeedBitInjective(a: Register, b: Register, bit: bool)
    requires FeedBit(a, bit) == FeedBit(b, bit)
    ensures a == b
  {
    hide Xor, Bit, Step;
    StepInjective(Xor(a, Bit(bit)), Xor(b, Bit(bit)));
    XorCancels(a, Bit(bit));
    XorCancels(b, Bit(bit));
  }

  lemma {:induction false} FeedInjective(a: Register, b: Register, bits: seq<bool>)
    requires Feed(a, bits) == Feed(b, bits)
    ensures a == b
    decreases bits
  {
    hide FeedBit;
    if bits != [] {
      FeedInjective(FeedBit(a, bits[0]), FeedBit(b, bits[0]), bits[1..]);
      FeedBitInjective(a, b, bits[0]);
    }
  }

  /** Where two bit strings differ, first bit lowest. */
  function Pack(p: seq<bool>, q: seq<bool>): Register
    requires |p| == |q|
    decreases p
  {
    if p == [] then 0 else Xor(Up(Pack(p[1..], q[1..])), Bit(p[0] != q[0]))
  }

  /** `d` can be shifted up `k` times without losing a one. */
  predicate Fits(d: Register, k: nat)
    decreases k
  {
    k == 0 || (!Top(d) && Fits(Up(d), k - 1))
  }

  lemma {:induction false} FitsXor(d: Register, e: Register, k: nat)
    requires Fits(d, k) && Fits(e, k)
    ensures Fits(Xor(d, e), k)
    decreases k
  {
    hide Xor, Up, Top;
    if k > 0 {
      UpDistributes(d, e);
      ParityOfXor(d, e);
      FitsXor(Up(d), Up(e), k - 1);
    }
  }

  lemma {:induction false} FitsZero(k: nat)
    ensures Fits(0, k)
    decreases k
  {
    hide Up, Top;
    if k > 0 {
      UpIsEven(0);
      FitsZero(k - 1);
    }
  }

  lemma {:induction false} FitsLess(d: Register, k: nat, j: nat)
    requires Fits(d, k) && j <= k
    ensures Fits(d, j)
    decreases j
  {
    hide Up, Top;
    if j > 0 {
      FitsLess(Up(d), k - 1, j - 1);
    }
  }

  lemma OneFits(k: nat)
    requires k <= 15
    ensures Fits(1, k)
  {
    hide Up, Top;
    Doubling();
    assert Fits(0x1000, 3);
    assert Fits(0x200, 6);
    assert Fits(0x40, 9);
    assert Fits(0x8, 12);
    assert Fits(0x1, 15);
    FitsLess(1, 15, k);
  }

  lemma Doubling()
    ensures Up(0x1) == 0x2 && Up(0x2) == 0x4 && Up(0x4) == 0x8 && Up(0x8) == 0x10 && Up(0x10) == 0x20
    ensures Up(0x20) == 0x40 && Up(0x40) == 0x80 && Up(0x80) == 0x100 && Up(0x100) == 0x200 && Up(0x200) == 0x400
    ensures Up(0x400) == 0x800 && Up(0x800) == 0x1000 && Up(0x1000) == 0x2000 && Up(0x2000) == 0x4000 && Up(0x4000) == 0x8000
    ensures !Top(0x1) && !Top(0x2) && !Top(0x4) && !Top(0x8) && !Top(0x10) && !Top(0x20) && !Top(0x40) && !Top(0x80)
    ensures !Top(0x100) && !Top(0x200) && !Top(0x400) && !Top(0x800) && !Top(0x1000) && !Top(0x2000) && !Top(0x4000)
  {}

  lemma {:induction false} PackFits(p: seq<bool>, q: seq<bool>)
    requires |p| == |q| <= BURST
    ensures Fits(Pack(p, q), BURST - |p|)
    decreases p
  {
    hide Xor, Up, Top;
    if p == [] {
      FitsZero(BURST);
    } else {
      PackFits(p[1..], q[1..]);
      var room := BURST - |p|;
      OneFits(room);
      FitsZero(room);
      FitsXor(Up(Pack(p[1..], q[1..])), Bit(p[0] != q[0]), room);
    }
  }

  /** States that meet after at most sixteen bits each differed by exactly the packed bit difference. */
  lemma {:induction false} MeetingStates(s: Register, t: Register, p: seq<bool>, q: seq<bool>)
    requires |p| == |q| <= BURST
    requires Feed(s, p) == Feed(t, q)
    ensures Xor(s, t) == Pack(p, q)
    decreases p
  {
    hide Xor, Up, Top, Step, Bit;
    if p == [] {
      XorCancels(s, 0);
    } else {
      var rest := Pack(p[1..], q[1..]);
      MeetingStates(FeedBit(s, p[0]), FeedBit(t, q[0]), p[1..], q[1..]);
      PackFits(p[1..], q[1..]);
      assert !Top(rest);
      MeetingBit(s, t, p[0], q[0], rest);
    }
  }

  lemma MeetingBit(s: Register, t: Register, x: bool, y: bool, rest: Register)
    requires Xor(FeedBit(s, x), FeedBit(t, y)) == rest && !Top(rest)
    ensures Xor(s, t) == Xor(Up(rest), Bit(x != y))
  {
    hide Xor, Up, Top, Step, Bit;
    var a, b := Xor(s, Bit(x)), Xor(t, Bit(y));
    StepDifference(a, b);
    Regroup(s, t, Bit(x), Bit(y));
    BitsXor(x, y);
    XorCancels(Xor(s, t), Bit(x != y));
  }

  lemma Regroup(s: Register, t: Register, x: Register, y: Register)
    ensures Xor(Xor(s, x), Xor(t, y)) == Xor(Xor(s, t), Xor(x, y))
  {
    hide Xor;
    XorAssociative(s, x, Xor(t, y));
    XorAssociative(x, t, y);
    XorCommutes(x, t);
    XorAssociative(t, x, y);
    XorAssociative(s, t, Xor(x, y));
  }

  lemma {:induction false} PackZero(p: seq<bool>, q: seq<bool>)
    requires |p| == |q| <= BURST
    requires Pack(p, q) == 0
    ensures p == q
    decreases p
  {
    hide Xor, Up, Top, Odd, Bit;
    if p != [] {
      var rest, bit := Pack(p[1..], q[1..]), Bit(p[0] != q[0]);
      PackFits(p[1..], q[1..]);
      assert !Top(rest);
      LowBitZero(rest, p[0] != q[0]);
      PackZero(p[1..], q[1..]);
      assert p == [p[0]] + p[1..] && q == [q[0]] + q[1..];
    }
  }

  lemma LowBitZero(rest: Register, b: bool)
    requires !Top(rest) && Xor(Up(rest), Bit(b)) == 0
    ensures rest == 0 && !b
  {
    hide Xor, Up, Top, Odd, Bit;
    ParityOfXor(Up(rest), Bit(b));
    UpIsEven(rest);
    BitLaws(b);
    XorCancels(Up(rest), Bit(b));
    XorCancels(Bit(b), 0);
    BitsXor(false, b);
  }

  lemma {:induction false} LowBitsInjective(x: Register, y: Register, n: nat)
    requires LowBits(x, n) == LowBits(y, n) && Shifted(x, n) == Shifted(y, n)
    ensures x == y
    decreases n
  {
    hide Odd, Down;
    if n > 0 {
      assert LowBits(x, n)[0] == LowBits(y, n)[0];
      assert LowBits(x, n)[1..] == LowBits(Down(x), n - 1) && LowBits(y, n)[1..] == LowBits(Down(y), n - 1);
      LowBitsInjective(Down(x), Down(y), n - 1);
      SameHalves(x, y);
    }
  }

  lemma ByteBitsInjective(x: Byte, y: Byte)
    requires ByteBits(x) == ByteBits(y)
    ensures x == y
  {
    hide Shifted, LowBits, Widen;
    ByteHasEightBits(x);
    ByteHasEightBits(y);
    LowBitsInjective(Widen(x), Widen(y), 8);
    WidenInjective(x, y);
  }

  lemma WidenInjective(x: Byte, y: Byte)
    ensures Widen(x) == Widen(y) ==> x == y
  {}

  lemma {:induction false} BitsInjective(f: seq<Byte>, g: seq<Byte>)
    requires |f| == |g| && Bits(f) == Bits(g)
    ensures f == g
    decreases |f|
  {
    hide ByteBits;
    if f != [] {
      var n := |f| - 1;
      assert Bits(f)[..8 * n] == Bits(f[..n]) && Bits(g)[..8 * n] == Bits(g[..n]);
      assert Bits(f)[8 * n..] == ByteBits(f[n]) && Bits(g)[8 * n..] == ByteBits(g[n]);
      BitsInjective(f[..n], g[..n]);
      ByteBitsInjective(f[n], g[n]);
      assert f == f[..n] + [f[n]] && g == g[..n] + [g[n]];
    }
  }

  /** The two messages agree on every transmitted bit outside `from .. from + BURST`. */
  ghost predicate DifferWithinBurst(f: seq<Byte>, g: seq<Byte>, from: nat) {
    |f| == |g| &&
    forall k :: 0 <= k < 8 * |f| && !(from <= k < from + BURST) ==> Bits(f)[k] == Bits(g)[k]
  }

  lemma {:induction false} WindowDetermined(head: seq<bool>, p: seq<bool>, q: seq<bool>, tail: seq<bool>)
    requires |p| == |q| <= BURST
    requires Feed(INITIAL, head + (p + tail)) == Feed(INITIAL, head + (q + tail))
    ensures p == q
  {
    hide Feed, Pack, Xor;
    var s := Feed(INITIAL, head);
    FeedConcat(INITIAL, head, p + tail);
    FeedConcat(INITIAL, head, q + tail);
    FeedConcat(s, p, tail);
    FeedConcat(s, q, tail);
    FeedInjective(Feed(s, p), Feed(s, q), tail);
    MeetingStates(s, s, p, q);
    XorCancels(s, 0);
    PackZero(p, q);
  }

  /** Two messages that differ only inside a window of sixteen transmitted bits have different checksums. */
  lemma BurstDetected(f: seq<Byte>, g: seq<Byte>, from: nat)
    requires DifferWithinBurst(f, g, from) && f != g
    ensures Crc(f) != Crc(g)
  {
    hide Crc, Feed, Bits;
    if Crc(f) == Crc(g) {
      var n := 8 * |f|;
      var i := if from < n then from else n;
      var j := if from + BURST < n then from + BURST else n;
      var x, y := Bits(f), Bits(g);
      assert x[..i] == y[..i] && x[j..] == y[j..];
      assert x == x[..i] + (x[i..j] + x[j..]) && y == y[..i] + (y[i..j] + y[j..]);
      CrcIsBitSerial(f);
      CrcIsBitSerial(g);
      WindowDetermined(x[..i], x[i..j], y[i..j], x[j..]);
      BitsInjective(f, g);
    }
  }

  lemma {:induction false} BitOfByte(f: seq<Byte>, k: nat)
    requires k < 8 * |f|
    ensures Bits(f)[k] == ByteBits(f[k / 8])[k % 8]
    decreases |f|
  {
    hide ByteBits;
    var n := |f| - 1;
    if k < 8 * n {
      BitOfByte(f[..n], k);
    } else {
      assert k / 8 == n && k % 8 == k - 8 * n;
    }
  }

  /** Two adjacent bytes are sixteen consecutive transmitted bits. */
  lemma AdjacentBytesAreABurst(f: seq<Byte>, g: seq<Byte>, at: nat)
    requires |f| == |g|
    requires forall i :: 0 <= i < |f| && i != at && i != at + 1 ==> f[i] == g[i]
    ensures DifferWithinBurst(f, g, 8 * at)
  {
    hide Bits, ByteBits;
    forall k | 0 <= k < 8 * |f| && !(8 * at <= k < 8 * at + BURST)
      ensures Bits(f)[k] == Bits(g)[k]
    {
      BitOfByte(f, k);
      BitOfByte(g, k);
    }
  }

  lemma AdjacentBytesDetected(f: seq<Byte>, g: seq<Byte>, at: nat)
    requires |f| == |g| && f != g
    requires forall i :: 0 <= i < |f| && i != at && i != at + 1 ==> f[i] == g[i]
    ensures Crc(f) != Crc(g)
  {
    hide Crc;
    AdjacentBytesAreABurst(f, g, at);
    BurstDetected(f, g, 8 * at);
  }

  // ----- a message followed by its own checksum

  lemma {:induction false} StepsOfShifted(x: Register, n: nat)
    requires true !in LowBits(x, n)
    ensures Steps(x, n) == Shifted(x, n)
    decreases n
  {
    hide Odd, Down, Xor;
    if n > 0 {
      assert !LowBits(x, n)[0];
      assert LowBits(x, n)[1..] == LowBits(Down(x), n - 1);
      StepsOfShifted(Down(x), n - 1);
    }
  }

  lemma {:induction false} StepsZero(n: nat)
    ensures Steps(0, n) == 0
    decreases n
  {
    hide Odd, Down, Xor;
    if n > 0 {
      UpIsEven(0);
      StepsZero(n - 1);
    }
  }

  lemma LowByteClear(w: Register)
    ensures Xor(w, Widen(Lo(w))) & 0xFF == 0
    ensures Xor(w, Widen(Lo(w))) >> 8 == w >> 8
  {}

  lemma EightDowns(x: Register)
    ensures Down(Down(Down(Down(Down(Down(Down(Down(x)))))))) == x >> 8
  {}

  lemma ZeroBitsOf(x: Register)
    requires x & 0xFF == 0
    ensures !Odd(x) && !Odd(Down(x)) && !Odd(Down(Down(x))) && !Odd(Down(Down(Down(x))))
    ensures !Odd(Down(Down(Down(Down(x))))) && !Odd(Down(Down(Down(Down(Down(x))))))
    ensures !Odd(Down(Down(Down(Down(Down(Down(x)))))))
    ensures !Odd(Down(Down(Down(Down(Down(Down(Down(x))))))))
  {}

  lemma LowBitsUnroll(x: Register)
    ensures LowBits(x, 8) == [Odd(x), Odd(Down(x)), Odd(Down(Down(x))), Odd(Down(Down(Down(x))))]
                           + LowBits(Down(Down(Down(Down(x)))), 4)
    ensures LowBits(x, 4) == [Odd(x), Odd(Down(x)), Odd(Down(Down(x))), Odd(Down(Down(Down(x))))]
  {
    hide LowBits, Odd, Down;
    var two := Down(Down(x));
    TwoLowBits(x, 6);
    TwoLowBits(two, 4);
    TwoLowBits(x, 2);
    TwoLowBits(two, 0);
    assert |LowBits(Down(Down(two)), 0)| == 0;
  }

  lemma TwoLowBits(x: Register, n: nat)
    ensures LowBits(x, n + 2) == [Odd(x), Odd(Down(x))] + LowBits(Down(Down(x)), n)
  {
    hide Odd, Down;
    assert LowBits(x, n + 2) == [Odd(x)] + LowBits(Down(x), n + 1);
  }

  /** Feeding a state its own low byte shifts the high byte down. */
  lemma OwnLowByte(w: Register)
    ensures ByteStep(w, Lo(w)) == w >> 8
  {
    hide Xor, Widen, Lo, Down, Odd, Steps, LowBits, Shifted;
    var x := Xor(w, Widen(Lo(w)));
    LowByteClear(w);
    ZeroBitsOf(x);
    LowBitsUnroll(x);
    LowBitsUnroll(Down(Down(Down(Down(x)))));
    StepsOfShifted(x, 8);
    ShiftedUnroll(x);
    EightDowns(x);
  }

  lemma WidenHi(w: Register)
    ensures Widen(Hi(w)) == w >> 8
  {}

  lemma CrcAppend(data: seq<Byte>, b: Byte)
    ensures Crc(data + [b]) == ByteStep(Crc(data), b)
  {
    hide ByteStep;
    assert (data + [b])[..|data|] == data;
  }

  /** A message followed by its checksum, low byte first, leaves the register at zero. */
  lemma OwnChecksumIsResidueZero(data: seq<Byte>)
    ensures Crc(data + [Lo(Crc(data)), Hi(Crc(data))]) == 0
  {
    hide Crc, Steps, Xor, Widen, Lo, Hi;
    var w := Crc(data);
    CrcAppend(data, Lo(w));
    CrcAppend(data + [Lo(w)], Hi(w));
    assert data + [Lo(w), Hi(w)] == data + [Lo(w)] + [Hi(w)];
    OwnLowByte(w);
    WidenHi(w);
    XorCancels(Widen(Hi(w)), 0);
    StepsZero(8);
  }

  /** ... and no other two bytes do. */
  lemma CrcResidue(data: seq<Byte>, lo: Byte, hi: Byte)
    ensures Crc(data + [lo, hi]) == 0 <==> lo == Lo(Crc(data)) && hi == Hi(Crc(data))
  {
    hide Crc, Lo, Hi;
    var w := Crc(data);
    var f, g := data + [lo, hi], data + [Lo(w), Hi(w)];
    OwnChecksumIsResidueZero(data);
    assert f[|data|] == lo && f[|data| + 1] == hi && g[|data|] == Lo(w) && g[|data| + 1] == Hi(w);
    if f != g {
      AdjacentBytesDetected(f, g, |data|);
    }
  }

  // ----- the published check value

  lemma EightSteps(crc: Register)
    ensures Steps(crc, 8) == Step(Step(Step(Step(Step(Step(Step(Step(crc))))))))
  {
    hide Step;
  }

  lemma DigitSteps()
    ensures ByteStep(0xFFFF, 0x31) == 0x947E && ByteStep(0x947E, 0x32) == 0xF595
    ensures ByteStep(0xF595, 0x33) == 0x7A75 && ByteStep(0x7A75, 0x34) == 0x30BA
    ensures ByteStep(0x30BA, 0x35) == 0xA471 && ByteStep(0xA471, 0x36) == 0x32E4
    ensures ByteStep(0x32E4, 0x37) == 0x9D73 && ByteStep(0x9D73, 0x38) == 0x37DD
    ensures ByteStep(0x37DD, 0x39) == 0x4B37
  {
    EightSteps(0xFFCE);
    EightSteps(0x944C);
    EightSteps(0xF5A6);
    EightSteps(0x7A41);
    EightSteps(0x308F);
    EightSteps(0xA447);
    EightSteps(0x32D3);
    EightSteps(0x9D4B);
    EightSteps(0x37E4);
  }

  /** The check value published for this checksum: that of the nine digits in ASCII. */
  lemma CheckValue()
    ensures Crc([0x31, 0x32, 0x33, 0x34, 0x35, 0x36, 0x37, 0x38, 0x39]) == 0x4B37
  {
    hide ByteStep;
    DigitSteps();
    var d: seq<Byte> := [0x31, 0x32, 0x33, 0x34, 0x35, 0x36, 0x37, 0x38, 0x39];
    NextDigit(d, 0);
    NextDigit(d, 1);
    NextDigit(d, 2);
    NextDigit(d, 3);
    NextDigit(d, 4);
    NextDigit(d, 5);
    NextDigit(d, 6);
    NextDigit(d, 7);
    NextDigit(d, 8);
    assert d[..0] == [] && d[..9] == d;
  }

  lemma NextDigit(data: seq<Byte>, i: nat)
    requires i < |data|
    ensures Crc(data[..i + 1]) == ByteStep(Crc(data[..i]), data[i])
  {
    hide ByteStep;
    assert data[..i + 1][..i] == data[..i];
  }
}
