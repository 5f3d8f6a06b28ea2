/**
 The bit-serial shift register with the reflected polynomial 0x8408 of Appendix C.2 of RFC 1662: the reference
 against which the table-driven code of Crc16 is proved.

 The word operations have names of their own so that the inductive proofs can hide them and use only the facts
 stated about one step.
 */
module ShiftRegister {

  function Half(c: bv16): bv16 { c >> 1 }

  predicate Odd(c: bv16) { c & 1 == 1 }

  function Xor(c: bv16, d: bv16): bv16 { c ^ d }

  function Shift(c: bv16): bv16 {
    if Odd(c) then Xor(Half(c), 0x8408) else Half(c)
  }

  // One message bit enters at the low end, then the register is shifted.
  function Feed(c: bv16, bit: bool): bv16 {
    Shift(Xor(c, if bit then 1 else 0))
  }

  function Lfsr(c: bv16, bits: seq<bool>): bv16
    decreases |bits|
  {
    if bits == [] then c else Lfsr(Feed(c, bits[0]), bits[1..])
  }

  lemma {:induction false} LfsrConcat(c: bv16, a: seq<bool>, b: seq<bool>)
    ensures Lfsr(c, a + b) == Lfsr(Lfsr(c, a), b)
    decreases |a|
  {
    hide Feed;
    if a == [] {
      assert a + b == b;
    } else {
      assert (a + b)[1..] == a[1..] + b;
      LfsrConcat(Feed(c, a[0]), a[1..], b);
    }
  }

  // The low n bits of a word, in the order in which they are sent.
  function LowBits(c: bv16, n: nat): (bits: seq<bool>)
    ensures |bits| == n
    decreases n
  {
    if n == 0 then [] else [Odd(c)] + LowBits(Half(c), n - 1)
  }

  function Drop(c: bv16, n: nat): bv16
    decreases n
  {
    if n == 0 then c else Drop(Half(c), n - 1)
  }

  lemma DropAll(c: bv16)
    ensures Drop(c, 16) == 0
    ensures c < 256 ==> Drop(c, 8) == 0
  {
    var c4 := Half(Half(Half(Half(c))));
    assert Drop(c, 16) == Drop(c4, 12);
  }

  // --------------------------------------------------------------------------
  // The register loses nothing

  lemma FeedIsInjective(c: bv16, d: bv16, bit: bool)
    requires Feed(c, bit) == Feed(d, bit)
    ensures c == d
  {}

  lemma {:induction false} LfsrIsInjective(c: bv16, d: bv16, bits: seq<bool>)
    requires Lfsr(c, bits) == Lfsr(d, bits)
    ensures c == d
    decreases |bits|
  {
    hide Feed;
    if bits != [] {
      LfsrIsInjective(Feed(c, bits[0]), Feed(d, bits[0]), bits[1..]);
      FeedIsInjective(c, d, bits[0]);
    }
  }

  // The words agree above their n low bits.
  function TopMask(n: nat): bv16
    decreases n
  {
    if n == 0 then 0xFFFF else TopMask(n - 1) << 1
  }

  predicate AgreeAbove(c: bv16, d: bv16, n: nat) { c & TopMask(n) == d & TopMask(n) }

  lemma TopBit(n: nat)
    requires n < 16
    ensures TopMask(n) & 0x8000 != 0
  {
    assert TopMask(0) & TopMask(1) & TopMask(2) & TopMask(3) & 0x8000 != 0;
    assert TopMask(4) & TopMask(5) & TopMask(6) & TopMask(7) & 0x8000 != 0;
    assert TopMask(8) & TopMask(9) & TopMask(10) & TopMask(11) & 0x8000 != 0;
    assert TopMask(12) & TopMask(13) & TopMask(14) & TopMask(15) & 0x8000 != 0;
  }

  lemma NextMask(n: nat)
    ensures TopMask(n + 1) == TopMask(n) << 1
  {}

  lemma StepBackMask(c: bv16, a: bool, d: bv16, b: bool, m: bv16)
    requires m & 0x8000 != 0 && Feed(c, a) & m == Feed(d, b) & m
    ensures c & (m << 1) == d & (m << 1) && (Odd(c) != a) == (Odd(d) != b)
  {}

  lemma StepBack(c: bv16, a: bool, d: bv16, b: bool, n: nat)
    requires n < 16 && AgreeAbove(Feed(c, a), Feed(d, b), n)
    ensures AgreeAbove(c, d, n + 1) && (Odd(c) != a) == (Odd(d) != b)
  {
    hide Feed, Odd, TopMask;
    TopBit(n);
    NextMask(n);
    StepBackMask(c, a, d, b, TopMask(n));
  }

  // If two runs over at most sixteen bits end in the same register, the registers they started from agree
  // above as many low bits.
  lemma {:induction false} SameEndSameTop(c: bv16, d: bv16, v: seq<bool>, w: seq<bool>)
    requires |v| == |w| <= 16
    requires Lfsr(c, v) == Lfsr(d, w)
    ensures AgreeAbove(c, d, |v|)
    decreases |v|
  {
    if v != [] {
      hide AgreeAbove, Feed, Odd;
      SameEndSameTop(Feed(c, v[0]), Feed(d, w[0]), v[1..], w[1..]);
      StepBack(c, v[0], d, w[0], |v| - 1);
    }
  }

  // From one register, two different bit strings of length at most sixteen lead to two different registers.
  lemma {:induction false} ShortStringsAreSeparated(c: bv16, v: seq<bool>, w: seq<bool>)
    requires |v| == |w| <= 16
    requires Lfsr(c, v) == Lfsr(c, w)
    ensures v == w
    decreases |v|
  {
    hide AgreeAbove, Feed, Odd;
    if v != [] {
      SameEndSameTop(Feed(c, v[0]), Feed(c, w[0]), v[1..], w[1..]);
      StepBack(c, v[0], c, w[0], |v| - 1);
      ShortStringsAreSeparated(Feed(c, v[0]), v[1..], w[1..]);
    }
  }

  lemma FeedOwnBit(c: bv16)
    ensures Feed(c, Odd(c)) == Half(c)
  {}

  // Feeding a register its own bits drains it.
  lemma {:induction false} OwnBitsDrain(c: bv16, n: nat)
    ensures Lfsr(c, LowBits(c, n)) == Drop(c, n)
    decreases n
  {
    hide Feed, Odd, Half;
    if n > 0 {
      FeedOwnBit(c);
      OwnBitsDrain(Half(c), n - 1);
      assert LowBits(c, n)[1..] == LowBits(Half(c), n - 1);
    }
  }

  // --------------------------------------------------------------------------
  // Several shifts at once

  function Shifts(c: bv16, n: nat): bv16
    decreases n
  {
    if n == 0 then c else Shifts(Shift(c), n - 1)
  }

  lemma ShiftOfXor(c: bv16, r: bv16)
    ensures Shift(Xor(c, r)) == Xor(Feed(c, Odd(r)), Half(r))
  {
    if Odd(c) {
      if Odd(r) {} else {}
    }
  }

  // Feeding the bits of r one by one is the same as adding them all first and shifting afterwards.
  lemma {:induction false} FeedingIsShifting(c: bv16, r: bv16, n: nat)
    ensures Shifts(Xor(c, r), n) == Xor(Lfsr(c, LowBits(r, n)), Drop(r, n))
    decreases n
  {
    hide Feed, Odd, Half, Xor, Shift;
    if n > 0 {
      ShiftOfXor(c, r);
      FeedingIsShifting(Feed(c, Odd(r)), Half(r), n - 1);
      assert LowBits(r, n)[1..] == LowBits(Half(r), n - 1);
    }
  }

  // --------------------------------------------------------------------------
  // Parity: the polynomial has a factor x + 1

  function OddOnes(bits: seq<bool>): bool
    decreases |bits|
  {
    if bits == [] then false else bits[0] != OddOnes(bits[1..])
  }

  function Parity(c: bv16, n: nat): bool
    decreases n
  {
    if n == 0 then false else Odd(c) != Parity(Half(c), n - 1)
  }

  lemma XorStep(c: bv16, d: bv16)
    ensures Odd(Xor(c, d)) == (Odd(c) != Odd(d))
    ensures Half(Xor(c, d)) == Xor(Half(c), Half(d))
  {}

  lemma {:induction false} ParityOfXor(c: bv16, d: bv16, n: nat)
    ensures Parity(Xor(c, d), n) == (Parity(c, n) != Parity(d, n))
    decreases n
  {
    hide Odd, Half, Xor;
    if n > 0 {
      XorStep(c, d);
      ParityOfXor(Half(c), Half(d), n - 1);
    }
  }

  lemma {:induction false} ParityExtends(c: bv16, n: nat)
    ensures Parity(c, n + 1) == (Parity(c, n) != Odd(Drop(c, n)))
    decreases n
  {
    hide Odd, Half;
    if n > 0 {
      ParityExtends(Half(c), n - 1);
    }
  }

  lemma PolynomialParity()
    ensures Parity(0x8408, 16)
  {
    assert Parity(0x0021, 6) != Parity(0x0001, 1);
    assert Parity(0x1081, 13) != Parity(0x0021, 6);
    assert Parity(0x8408, 16) == Parity(0x1081, 13);
  }

  lemma ParityUnfolds(c: bv16, n: nat)
    requires n > 0
    ensures Parity(c, n) == (Odd(c) != Parity(Half(c), n - 1))
    ensures Drop(c, n) == Drop(Half(c), n - 1)
  {}

  lemma HalfParity(c: bv16)
    ensures Parity(c, 16) == (Odd(c) != Parity(Half(c), 16))
  {
    hide Parity, Half, Drop;
    ParityUnfolds(c, 16);
    ParityExtends(Half(c), 15);
    DropAll(c);
  }

  lemma ShiftKeepsParity(c: bv16)
    ensures Parity(Shift(c), 16) == Parity(c, 16)
  {
    HalfParity(c);
    ParityOfXor(Half(c), 0x8408, 16);
    PolynomialParity();
    hide Half, Xor, Odd, Parity;
  }

  lemma {:induction false} ZeroParity(n: nat)
    ensures !Parity(0, n)
    decreases n
  {
    if n > 0 {
      ZeroParity(n - 1);
    }
  }

  lemma BitParity(bit: bool)
    ensures Parity(if bit then 1 else 0, 16) == bit
  {
    ZeroParity(16);
    ZeroParity(15);
    ParityUnfolds(1, 16);
  }

  lemma FeedParity(c: bv16, bit: bool)
    ensures Parity(Feed(c, bit), 16) == (Parity(c, 16) != bit)
  {
    var b: bv16 := if bit then 1 else 0;
    BitParity(bit);
    ParityOfXor(c, b, 16);
    ShiftKeepsParity(Xor(c, b));
    hide Odd, Half, Xor, Shift, Parity;
  }

  lemma {:induction false} LfsrParity(c: bv16, bits: seq<bool>)
    ensures Parity(Lfsr(c, bits), 16) == (Parity(c, 16) != OddOnes(bits))
    decreases |bits|
  {
    hide Feed, Parity;
    if bits != [] {
      FeedParity(c, bits[0]);
      LfsrParity(Feed(c, bits[0]), bits[1..]);
    }
  }
}
