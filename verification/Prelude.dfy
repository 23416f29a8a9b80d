/** Option, and 64-bit words seen as numbers whose bits and bytes can be picked out. */
module Prelude {
  datatype Option<+T> = None | Some(value: T)

  type Byte = b: nat | b < 256 witness 0

  const WORD_LIMIT: nat := 0x1_0000_0000_0000_0000

  /** 64-bit wrap-around. */
  function Wrap(x: int): nat { x % WORD_LIMIT }

  function Min(a: int, b: int): int { if a < b then a else b }

  function Max(a: int, b: int): int { if a < b then b else a }

  // ---------- bits of a word ----------

  predicate Bit(w: nat, b: nat)
    decreases b
  {
    if b == 0 then w % 2 == 1 else Bit(w / 2, b - 1)
  }

  /** w | (1 << b) */
  function SetBit(w: nat, b: nat): nat
    decreases b
  {
    if b == 0 then w / 2 * 2 + 1 else 2 * SetBit(w / 2, b - 1) + w % 2
  }

  /** w & !(1 << b) */
  function ClearBit(w: nat, b: nat): nat
    decreases b
  {
    if b == 0 then w / 2 * 2 else 2 * ClearBit(w / 2, b - 1) + w % 2
  }

  function TrailingZeros(w: nat): nat
    requires w > 0
  {
    if w % 2 == 1 then 0 else 1 + TrailingZeros(w / 2)
  }

  lemma {:induction false} BitAfterSet(w: nat, b: nat, c: nat)
    ensures Bit(SetBit(w, b), c) == (c == b || Bit(w, c))
    decreases b
  {
    if b > 0 {
      assert SetBit(w, b) / 2 == SetBit(w / 2, b - 1);
      if c > 0 { BitAfterSet(w / 2, b - 1, c - 1); }
    } else if c > 0 {
      assert SetBit(w, 0) / 2 == w / 2;
    }
  }

  lemma {:induction false} BitAfterClear(w: nat, b: nat, c: nat)
    ensures Bit(ClearBit(w, b), c) == (c != b && Bit(w, c))
    decreases b
  {
    if b > 0 {
      assert ClearBit(w, b) / 2 == ClearBit(w / 2, b - 1);
      if c > 0 { BitAfterClear(w / 2, b - 1, c - 1); }
    } else if c > 0 {
      assert ClearBit(w, 0) / 2 == w / 2;
    }
  }

  lemma {:induction false} ZeroHasNoBits(b: nat)
    ensures !Bit(0, b)
  {
    if b == 0 {
    } else {
      ZeroHasNoBits(b - 1);
    }
  }

  lemma {:induction false} TrailingZerosIsLowestBit(w: nat)
    requires w > 0
    ensures Bit(w, TrailingZeros(w))
    ensures forall c: nat :: c < TrailingZeros(w) ==> !Bit(w, c)
  {
    if w % 2 == 0 {
      TrailingZerosIsLowestBit(w / 2);
      forall c: nat | c < TrailingZeros(w) ensures !Bit(w, c) {
        if c > 0 { assert Bit(w, c) == Bit(w / 2, c - 1); }
      }
    }
  }

  function Pow2(n: nat): nat { if n == 0 then 1 else 2 * Pow2(n - 1) }

  lemma {:induction false} Pow2Positive(n: nat)
    ensures Pow2(n) > 0
  {
    if n == 0 {
    } else {
      Pow2Positive(n - 1);
    }
  }

  lemma {:induction false} SetBitFits(w: nat, b: nat, n: nat)
    requires w < Pow2(n) && b < n
    ensures SetBit(w, b) < Pow2(n)
  {
    if b == 0 {
    } else {
      SetBitFits(w / 2, b - 1, n - 1);
    }
  }

  lemma {:induction false} ClearBitFits(w: nat, b: nat, n: nat)
    requires w < Pow2(n)
    ensures ClearBit(w, b) < Pow2(n)
    decreases b
  {
    if b > 0 && n > 0 { ClearBitFits(w / 2, b - 1, n - 1); }
    if b > 0 && n == 0 { ClearBitFits(w / 2, b - 1, 0); }
  }

  lemma {:induction false} TrailingZerosFits(w: nat, n: nat)
    requires 0 < w < Pow2(n)
    ensures TrailingZeros(w) < n
  {
    if w % 2 == 0 { TrailingZerosFits(w / 2, n - 1); }
  }

  lemma {:induction false} SubsetSize<T>(a: set<T>, b: set<T>)
    requires a <= b
    ensures |a| <= |b|
  {
    assert b == a + (b - a);
  }

  // ---------- remainders ----------

  lemma {:induction false} SmallMultiple(d: int, n: int)
    requires -n < d * n < n
    ensures d == 0
  {
    assert d >= 1 ==> (d - 1) * n >= 0;
    assert d <= -1 ==> (d + 1) * n <= 0;
  }

  lemma {:induction false} ModUnique(x: int, q: int, n: int, r: int)
    requires 0 <= r < n && x == q * n + r
    ensures x % n == r
  {
    var q', r' := x / n, x % n;
    assert x == q' * n + r';
    assert (q' - q) * n == r - r';
    SmallMultiple(q' - q, n);
  }
}
