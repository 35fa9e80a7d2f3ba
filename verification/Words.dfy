/** 64-bit masks, as the sets of their one-bits, and powers of two. */
module Words {
  import opened Blocks

  const WIDTH := 64

  type Word = set<nat>

  function Pow2(n: nat): (p: nat)
    ensures p > 0
  {
    if n == 0 then 1 else 2 * Pow2(n - 1)
  }

  lemma {:induction false} Pow2Sum(a: nat, b: nat)
    ensures Pow2(a + b) == Pow2(a) * Pow2(b)
  {
    if a > 0 { Pow2Sum(a - 1, b); }
  }

  lemma {:induction false} Pow2Grows(a: nat, b: nat)
    requires a < b
    ensures 2 * Pow2(a) <= Pow2(b)
  {
    if a + 1 < b { Pow2Grows(a, b - 1); }
  }

  predicate Bit(n: nat, i: nat) {
    n / Pow2(i) % 2 == 1
  }

  /** The lowest `k` bits. */
  function Below(k: nat): (w: Word)
    ensures forall i: nat :: i in w <==> i < k
  {
    if k == 0 then {} else Below(k - 1) + {k - 1}
  }

  /** The word holding a number. */
  function Bits(n: nat): (w: Word) {
    set i | i in Below(WIDTH) && Bit(n, i)
  }

  function Not(w: Word): Word {
    Below(WIDTH) - w
  }

  function Shl(w: Word, d: nat): Word {
    set i | i in Below(WIDTH) && i >= d && i - d in w
  }

  function Shr(w: Word, d: nat): Word {
    set i | i in Below(WIDTH) && i + d in w
  }

  /** The value of the lowest `k` bits. */
  function ValueBelow(w: Word, k: nat): (v: nat)
    ensures v < Pow2(k)
  {
    if k == 0 then 0 else ValueBelow(w, k - 1) + if k - 1 in w then Pow2(k - 1) else 0
  }

  function Value(w: Word): nat {
    ValueBelow(w, WIDTH)
  }

  // ----- words and numbers -----

  lemma {:induction false} BitsBelow(n: nat, k: nat)
    requires k <= WIDTH
    ensures ValueBelow(Bits(n), k) == n % Pow2(k)
  {
    if k > 0 {
      BitsBelow(n, k - 1);
      NextBit(n, Pow2(k - 1));
    }
  }

  lemma {:induction false} NextBit(n: nat, p: nat)
    requires p > 0
    ensures n % (2 * p) == n % p + if n / p % 2 == 1 then p else 0
  {
    var q, r := n / p, n % p;
    assert n == q * p + r;
    var h, b := q / 2, q % 2;
    assert q == 2 * h + b;
    assert n == h * (2 * p) + (b * p + r);
    Quotient(h, b * p + r, 2 * p);
  }

  /** A number divides by a power of two exactly when none of its lower bits is set. */
  lemma {:induction false} DividesBits(n: nat, k: nat)
    requires k <= WIDTH
    ensures n % Pow2(k) == 0 <==> forall i :: 0 <= i < k ==> i !in Bits(n)
  {
    BitsBelow(n, k);
    ZeroBelow(Bits(n), k);
  }

  lemma {:induction false} ZeroBelow(w: Word, k: nat)
    ensures ValueBelow(w, k) == 0 <==> forall i :: 0 <= i < k ==> i !in w
  {
    if k > 0 { ZeroBelow(w, k - 1); }
  }

  /** The mask of a block size: `blkSz - 1` has exactly the bits below that of `blkSz`. */
  lemma {:induction false} LowBits(k: nat)
    requires k <= WIDTH
    ensures Bits(Pow2(k) - 1) == Below(k)
  {
    hide Pow2;
    var m := Pow2(k) - 1;
    forall i: nat | i < WIDTH ensures Bit(m, i) <==> i < k {
      if i < k {
        Pow2Sum(k - i, i);
        Pow2Even(k - i);
        LowBit(Pow2(k - i), Pow2(i));
      } else {
        if i > k { Pow2Grows(k, i); }
        Quotient(0, Pow2(k) - 1, Pow2(i));
      }
    }
  }

  lemma {:induction false} LowBit(h: nat, p: nat)
    requires h > 0 && h % 2 == 0 && p > 0
    ensures (h * p - 1) / p % 2 == 1
  {
    assert h * p - 1 == (h - 1) * p + (p - 1);
    Quotient(h - 1, p - 1, p);
  }

  /** Clearing the bits below a block boundary rounds down to it. */
  lemma {:induction false} ClearLow(n: nat, k: nat)
    requires k <= WIDTH && n < Pow2(WIDTH)
    ensures Value(Bits(n) * Not(Bits(Pow2(k) - 1))) == n / Pow2(k) * Pow2(k)
  {
    hide Pow2, ValueBelow, Bits, Not, Below;
    LowBits(k);
    ClearLowBelow(Bits(n), k, WIDTH);
    BitsBelow(n, k);
    BitsBelow(n, WIDTH);
    Remainder(n, Pow2(k));
    Remainder(n, Pow2(WIDTH));
  }

  lemma {:induction false} Remainder(n: nat, p: nat)
    requires p > 0
    ensures n - n % p == n / p * p && (n < p ==> n % p == n)
  {
  }

  /** The mask arithmetic of `roundUp` is that of module Blocks. */
  lemma {:induction false} RoundUpMask(pos: nat, k: nat)
    requires k <= WIDTH && pos + Pow2(k) - 1 < Pow2(WIDTH)
    ensures Value(Bits(pos + Pow2(k) - 1) * Not(Bits(Pow2(k) - 1))) == RoundUp(pos, Pow2(k))
  {
    ClearLow(pos + Pow2(k) - 1, k);
  }

  lemma {:induction false} ClearLowBelow(w: Word, k: nat, m: nat)
    requires k <= m <= WIDTH
    ensures ValueBelow(w * Not(Below(k)), m) + ValueBelow(w, k) == ValueBelow(w, m)
  {
    var high := w * Not(Below(k));
    if m > k {
      ClearLowBelow(w, k, m - 1);
    } else {
      ZeroBelow(high, m);
    }
  }

  lemma {:induction false} Pow2Even(n: nat)
    requires n > 0
    ensures Pow2(n) % 2 == 0
  {
    hide *;
    Pow2Next(n);
    Twice(Pow2(n - 1));
  }

  lemma {:induction false} Pow2Next(n: nat)
    requires n > 0
    ensures Pow2(n) == 2 * Pow2(n - 1)
  {
  }

  lemma {:induction false} Twice(x: nat)
    ensures 2 * x % 2 == 0
  {
  }

  lemma {:induction false} BitOfPow2(p: nat)
    requires p < WIDTH
    ensures Bits(Pow2(p)) == {p}
  {
    hide Pow2;
    forall i: nat | i < WIDTH ensures Bit(Pow2(p), i) <==> i == p {
      if i < p {
        Pow2Sum(i, p - i);
        Pow2Even(p - i);
        assert Pow2(p) == Pow2(p - i) * Pow2(i);
        Quotient(Pow2(p - i), 0, Pow2(i));
      } else if i == p {
        Quotient(1, 0, Pow2(i));
      } else {
        Pow2Grows(p, i);
        Quotient(0, Pow2(p), Pow2(i));
      }
    }
  }
}
