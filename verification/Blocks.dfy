/** Block arithmetic (`Blocks`). Block sizes are powers of two, for which the mask arithmetic of the
    original is this division (shown in module Words). */
module Blocks {
  /** `roundUp`. */
  function RoundUp(pos: nat, blkSz: nat): nat
    requires blkSz > 0
  {
    (pos + blkSz - 1) / blkSz * blkSz
  }

  /** The larger of two block sizes. */
  function Max(a: nat, b: nat): nat {
    if a > b then a else b
  }

  lemma {:induction false} MaxIs(o: nat, t: nat)
    ensures Max(o, t) == if o > t then o else t
  {
  }

  function Padding(pos: nat, blkSz: nat): nat
    requires blkSz > 0
  {
    RoundUpBounds(pos, blkSz);
    RoundUp(pos, blkSz) - pos
  }

  lemma {:induction false} RoundUpBounds(pos: nat, blkSz: nat)
    requires blkSz > 0
    ensures pos <= RoundUp(pos, blkSz) < pos + blkSz
  {
    var q := (pos + blkSz - 1) / blkSz;
    assert q * blkSz <= pos + blkSz - 1 < q * blkSz + blkSz;
  }

  predicate Divides(d: nat, n: nat) {
    d > 0 && n % d == 0
  }

  lemma {:induction false} Quotient(q: nat, r: nat, d: nat)
    requires r < d
    ensures (q * d + r) / d == q && (q * d + r) % d == r
  {
    var n := q * d + r;
    var p := n / d;
    assert n == p * d + n % d;
    assert p < q ==> (p + 1) * d <= q * d;
    assert q < p ==> (q + 1) * d <= p * d;
  }

  lemma {:induction false} RoundUpAligned(pos: nat, blkSz: nat)
    requires blkSz > 0
    ensures RoundUp(pos, blkSz) % blkSz == 0
    ensures pos % blkSz == 0 ==> RoundUp(pos, blkSz) == pos
  {
    Quotient((pos + blkSz - 1) / blkSz, 0, blkSz);
    if pos % blkSz == 0 {
      Quotient(pos / blkSz, blkSz - 1, blkSz);
      assert pos == pos / blkSz * blkSz;
    }
  }

  /** Sums and differences of multiples are multiples. */
  lemma {:induction false} Multiple(a: nat, b: nat, d: nat)
    requires d > 0 && a % d == 0 && b % d == 0
    ensures (a + b) % d == 0
    ensures a >= b ==> (a - b) % d == 0
  {
    QuotientSum(a, b, d);
    if a >= b {
      QuotientSum(b, a, d);
      Difference(a, b, a / d, b / d, d);
    }
  }

  lemma {:induction false} Difference(a: nat, b: nat, p: nat, q: nat, d: nat)
    requires d > 0 && a >= b && a == p * d && b == q * d
    ensures (a - b) % d == 0
  {
    assert p < q ==> (p + 1) * d <= q * d;
    assert a - b == (p - q) * d;
    Quotient(p - q, 0, d);
  }

  /** Quotients of multiples add up. */
  lemma {:induction false} QuotientSum(a: nat, b: nat, d: nat)
    requires d > 0 && a % d == 0 && b % d == 0
    ensures (a + b) % d == 0 && (a + b) / d == a / d + b / d && a / d * d == a
  {
    var p, q := a / d, b / d;
    assert a + b == (p + q) * d;
    Quotient(p + q, 0, d);
  }

  /** Padding does not see what is whole blocks. */
  lemma {:induction false} RoundUpPast(x: nat, m: nat, c: nat)
    requires Divides(c, m)
    ensures RoundUp(x + m, c) == RoundUp(x, c) + m
  {
    var j, k, r := m / c, (x + c - 1) / c, (x + c - 1) % c;
    assert m == j * c && x + c - 1 == k * c + r;
    assert x + m + c - 1 == (j + k) * c + r;
    Quotient(j + k, r, c);
    assert (j + k) * c == k * c + j * c;
  }

  /** A multiple of a multiple. */
  lemma {:induction false} MultipleOfMultiple(a: nat, m: nat, d: nat)
    requires d > 0 && m > 0 && m % d == 0 && a % m == 0
    ensures a % d == 0
  {
    var p, q := a / m, m / d;
    assert a == p * m && m == q * d;
    assert p * (q * d) == (p * q) * d;
    Quotient(p * q, 0, d);
  }

  /** `firstBlk` of an address, `lastBlk` of an end address. */
  function FirstBlk(start: nat, blkSz: nat): nat
    requires blkSz > 0
  {
    start / blkSz
  }

  function LastBlk(end: nat, blkSz: nat): nat
    requires blkSz > 0 && end > 0
  {
    FirstBlk(end - 1, blkSz)
  }

  /** Ranges that are apart, the second starting on a block, share no block. */
  lemma {:induction false} BlocksApart(end: nat, next: nat, blkSz: nat)
    requires blkSz > 0 && 0 < end <= next && next % blkSz == 0
    ensures LastBlk(end, blkSz) < FirstBlk(next, blkSz)
  {
    var p, q := (end - 1) / blkSz, next / blkSz;
    assert p * blkSz <= end - 1 && next == q * blkSz;
    assert q <= p ==> q * blkSz <= p * blkSz;
  }

  lemma {:induction false} BlockBetween(x: nat, lo: nat, hi: nat, blkSz: nat)
    requires blkSz > 0 && lo * blkSz <= x < hi * blkSz
    ensures lo <= x / blkSz < hi
  {
    var q := x / blkSz;
    assert q * blkSz <= x < q * blkSz + blkSz;
    assert q < lo ==> (q + 1) * blkSz <= lo * blkSz;
    assert hi <= q ==> hi * blkSz <= q * blkSz;
  }
}
