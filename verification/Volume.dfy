/** The choice of the block size (`Volume::adjust`) from the granularity of the charted extents. */
module Volume {
  import opened Words
  import opened Blocks

  function Doubled(m: Word, d: nat): Word {
    m + Shl(m, d)
  }

  /** Sets all bits above the lowest one: six shifts of doubling width. */
  function AsLowerBound(mask: Word): Word {
    Doubled(Doubled(Doubled(Doubled(Doubled(Doubled(mask, 1), 2), 4), 8), 16), 32)
  }

  /** The bits within reach of `d` above a bit of the mask. */
  ghost predicate Smeared(m: Word, mask: Word, d: nat) {
    forall i: nat :: i in m <==> i < WIDTH && exists j: nat :: j in mask && j <= i < j + d
  }

  lemma {:induction false} Smear(m: Word, mask: Word, d: nat)
    requires Smeared(m, mask, d) && d > 0
    ensures Smeared(Doubled(m, d), mask, 2 * d)
  {
    var n := Doubled(m, d);
    forall i: nat | i in n ensures i < WIDTH && exists j: nat :: j in mask && j <= i < j + 2 * d {
      if i !in m {
        var j: nat :| j in mask && j <= i - d < j + d;
      }
    }
    forall i: nat, j: nat | i < WIDTH && j in mask && j <= i < j + 2 * d ensures i in n {
      if i >= j + d {
        assert i - d in m;
      } else {
        assert i in m;
      }
    }
  }

  /** The bits from the lowest one-bit up, whatever the mask. */
  ghost predicate FromLowest(m: Word, mask: Word) {
    forall i: nat :: i in m <==> i < WIDTH && exists j: nat :: j in mask && j <= i
  }

  lemma {:induction false} LowerBound(mask: Word)
    requires mask <= Below(WIDTH)
    ensures FromLowest(AsLowerBound(mask), mask)
  {
    assert Smeared(mask, mask, 1);
    hide Smeared, Doubled;
    var m1 := Doubled(mask, 1);
    var m2 := Doubled(m1, 2);
    var m3 := Doubled(m2, 4);
    var m4 := Doubled(m3, 8);
    var m5 := Doubled(m4, 16);
    Smear(mask, mask, 1);
    Smear(m1, mask, 2);
    Smear(m2, mask, 4);
    Smear(m3, mask, 8);
    Smear(m4, mask, 16);
    Smear(m5, mask, 32);
    hide FromLowest;
    SmearedAll(AsLowerBound(mask), mask);
  }

  lemma {:induction false} SmearedAll(m: Word, mask: Word)
    requires Smeared(m, mask, WIDTH)
    ensures FromLowest(m, mask)
  {
    forall i: nat, j: nat | i < WIDTH && j in mask && j <= i ensures i in m {
      assert j <= i < j + WIDTH;
    }
  }

  /** `granularity`: the bits up to the lowest one of the mask. */
  function Granularity(mask: Word): Word {
    Not(Shl(AsLowerBound(mask), 1))
  }

  /** A size is granular enough exactly when it divides everything that went into the mask. */
  lemma {:induction false} GranularityIs(mask: Word, p: nat)
    requires mask <= Below(WIDTH) && p < WIDTH
    ensures p in Granularity(mask) <==> forall j: nat :: j in mask ==> p <= j
  {
    hide AsLowerBound;
    LowerBound(mask);
    if j: nat :| j in mask && j < p {
      assert p - 1 in AsLowerBound(mask);
    }
  }

  // ----- adjust -----

  const MAPPER_BS := 512

  /** The wanted size: the volume's own, else the larger of the media's, else a page; at least a sector. */
  function Want(own: nat, outBlk: nat, tmpBlk: nat, page: nat): nat {
    var w := if own != 0 then own else Max(outBlk, tmpBlk);
    Max(if w != 0 then w else page, MAPPER_BS)
  }

  /** It is never below a sector nor below a size of the volume's own, is that size if there is one of at
      least a sector, and otherwise serves both media; a page is only asked for when they are silent. */
  lemma {:induction false} WantFits(own: nat, outBlk: nat, tmpBlk: nat, page: nat)
    ensures var w := Want(own, outBlk, tmpBlk, page);
            && w >= 512 && w in {512, own, outBlk, tmpBlk, page}
            && (own >= 512 ==> w == own) && (0 < own < 512 ==> w == 512)
            && (own == 0 ==> w >= outBlk && w >= tmpBlk && (outBlk > 0 || tmpBlk > 0 ==> w in {512, outBlk, tmpBlk}))
            && (own == outBlk == tmpBlk == 0 ==> w >= page)
  {
  }

  datatype Adjusted = TooGranular | Size(blkSz: nat)

  /** `adjust`: the wanted size if permitted, else the nearest end of the permitted range. */
  function Adjust(inMask: Word, sizeRange: Word, want: nat): Adjusted {
    var mask := inMask * sizeRange;
    if mask == {} then TooGranular
    else Size(
      if Bits(want) * mask != {} then want
      else if want > Value(mask) then Value(mask * Not(Shr(mask, 1)))
      else Value(mask * Not(Shl(mask, 1))))
  }

  /** Permitted sizes without holes between them. */
  ghost predicate Contiguous(w: Word, lo: nat, hi: nat) {
    lo <= hi < WIDTH && forall i: nat :: i in w <==> lo <= i <= hi
  }

  lemma {:induction false} ValueOfBit(p: nat, k: nat)
    requires k <= WIDTH
    ensures ValueBelow({p}, k) == if p < k then Pow2(p) else 0
  {
    if k > 0 { ValueOfBit(p, k - 1); }
  }

  /** A contiguous mask is worth less than the next power of two, and at least its highest bit. */
  lemma {:induction false} ValueBounds(w: Word, lo: nat, hi: nat, k: nat)
    requires Contiguous(w, lo, hi) && k <= WIDTH
    ensures k <= lo ==> ValueBelow(w, k) == 0
    ensures lo < k <= hi + 1 ==> Pow2(k - 1) <= ValueBelow(w, k) < Pow2(k)
    ensures hi < k ==> ValueBelow(w, k) == ValueBelow(w, hi + 1)
  {
    if k > 0 { ValueBounds(w, lo, hi, k - 1); }
  }

  /** Of the permitted bits that are granular enough, `p` is the one nearest to `w`. */
  predicate Nearest(granular: Word, lo: nat, hi: nat, w: nat, p: nat) {
    && lo <= p <= hi && p in granular
    && (p < w ==> p == hi || p + 1 !in granular)
    && (w < p ==> p == lo)
  }

  /** What is chosen, for a power of two wanted: a permitted power of two, and of those the one
      nearest to the wanted one. It is refused exactly when the extents are too granular. */
  lemma {:induction false} AdjustChooses(mask: Word, sizeRange: Word, lo: nat, hi: nat, w: nat)
    requires mask <= Below(WIDTH) && Contiguous(sizeRange, lo, hi) && w < WIDTH
    ensures var r := Adjust(Granularity(mask), sizeRange, Pow2(w));
            && (r.TooGranular? <==> exists j: nat :: j in mask && j < lo)
            && (r.Size? ==> exists p: nat :: r.blkSz == Pow2(p) && Nearest(Granularity(mask), lo, hi, w, p))
  {
    hide Granularity, Value, Bits, Shl, Shr, Not, Pow2;
    var m := Granularity(mask) * sizeRange;
    GranularityIs(mask, lo);
    if lo in Granularity(mask) {
      var top := Top(mask, lo, hi);
      assert Contiguous(m, lo, top);
      BitOfPow2(w);
      OneBit(w, m);
      var p := if w in m then w else if w > top then top else lo;
      EndBits(m, lo, top);
      MemberOf(m, lo, top, w);
      if w !in m { Compare(m, lo, top, w); }
      assert m != {} by { MemberOf(m, lo, top, lo); }
      assert Adjust(Granularity(mask), sizeRange, Pow2(w)) == Size(Pow2(p));
      assert Nearest(Granularity(mask), lo, hi, w, p);
    } else {
      if m != {} {
        var i := SomeBit(m);
        GranularityIs(mask, i);
      }
    }
  }

  lemma {:induction false} OneBit(w: nat, m: Word)
    ensures {w} * m == if w in m then {w} else {}
  {}

  lemma {:induction false} SomeBit(m: Word) returns (i: nat)
    requires m != {}
    ensures i in m
  {
    i :| i in m;
  }

  /** For any wanted size: the choice is a power of two exactly when the wanted size is one, or shares
      no bit with the permitted sizes. */
  lemma {:induction false} ChosenIsPower(mask: Word, sizeRange: Word, lo: nat, hi: nat, want: nat)
    requires mask <= Below(WIDTH) && Contiguous(sizeRange, lo, hi)
    requires lo in Granularity(mask)
    ensures var r := Adjust(Granularity(mask), sizeRange, want);
            r.Size? && ((exists p: nat :: r.blkSz == Pow2(p)) <==>
                        (Bits(want) * (Granularity(mask) * sizeRange) == {} || exists p: nat :: want == Pow2(p)))
  {
    hide Granularity, Value, Bits, Shl, Shr, Not, Pow2;
    var m := Granularity(mask) * sizeRange;
    var top := Top(mask, lo, hi);
    assert Contiguous(m, lo, top);
    MemberOf(m, lo, top, lo);
    EndBits(m, lo, top);
  }

  /** So a wanted size that is no power of two is taken as it is when one of its bits is permitted: 6144
      bytes, of the FAT sizes from 512 to 16384. Such a size arrives only by way of `setBlockSize`. */
  lemma {:induction false} UnevenSizeTaken(mask: Word, sizeRange: Word)
    requires mask == {} && Contiguous(sizeRange, 9, 14)
    ensures Adjust(Granularity(mask), sizeRange, 6144) == Size(6144)
    ensures forall p: nat :: 6144 != Pow2(p)
  {
    hide Pow2, Granularity, Value, Shl, Shr, Not;
    Pow2Twelve();
    GranularityIs(mask, 12);
    assert Bit(6144, 12);
    assert 12 in Bits(6144) * (Granularity(mask) * sizeRange);
    hide Bits, Contiguous;
    forall p: nat ensures 6144 != Pow2(p) {
      if p < 12 { Pow2Grows(p, 12); }
      if p > 12 { Pow2Grows(12, p); }
    }
  }

  lemma {:induction false} Pow2Twelve()
    ensures Pow2(12) == 4096
  {
    assert Pow2(4) == 16;
    Pow2Sum(4, 4);
    Pow2Sum(8, 4);
  }

  /** The ends of a contiguous mask, as the original picks them out. */
  lemma {:induction false} EndBits(m: Word, lo: nat, hi: nat)
    requires Contiguous(m, lo, hi)
    ensures m * Not(Shr(m, 1)) == {hi} && Value({hi}) == Pow2(hi)
    ensures m * Not(Shl(m, 1)) == {lo} && Value({lo}) == Pow2(lo)
  {
    ValueOfBit(hi, WIDTH);
    ValueOfBit(lo, WIDTH);
    hide Pow2;
    forall i: nat ensures i in m * Not(Shr(m, 1)) <==> i in {hi} { ShrHas(m, 1, i); }
    SameBits(m * Not(Shr(m, 1)), {hi});
    forall i: nat ensures i in m * Not(Shl(m, 1)) <==> i in {lo} { ShlHas(m, 1, i); }
    SameBits(m * Not(Shl(m, 1)), {lo});
  }

  lemma {:induction false} SameBits(a: Word, b: Word)
    requires forall i: nat :: i in a <==> i in b
    ensures a == b
  {}

  lemma {:induction false} ShrHas(m: Word, d: nat, i: nat)
    ensures i in Shr(m, d) <==> i < WIDTH && i + d in m
  {}

  lemma {:induction false} ShlHas(m: Word, d: nat, i: nat)
    ensures i in Shl(m, d) <==> i < WIDTH && i >= d && i - d in m
  {}

  /** A power of two outside a contiguous mask compares with it as with either end. */
  lemma {:induction false} Compare(m: Word, lo: nat, hi: nat, w: nat)
    requires Contiguous(m, lo, hi) && w < WIDTH && w !in m
    ensures Pow2(w) > Value(m) <==> w > hi
  {
    hide Contiguous;
    MemberOf(m, lo, hi, w);
    ValueBounds(m, lo, hi, WIDTH);
    ValueBounds(m, lo, hi, hi + 1);
    if hi + 1 < w { Pow2Grows(hi + 1, w); }
    if w < hi { Pow2Grows(w, hi); }
  }

  lemma {:induction false} MemberOf(m: Word, lo: nat, hi: nat, w: nat)
    requires Contiguous(m, lo, hi)
    ensures lo <= hi < WIDTH && (w in m <==> lo <= w <= hi)
  {}

  /** The permitted sizes that are granular enough are again contiguous. */
  lemma {:induction false} Top(mask: Word, lo: nat, hi: nat) returns (top: nat)
    requires mask <= Below(WIDTH) && lo <= hi < WIDTH && lo in Granularity(mask)
    ensures lo <= top <= hi && forall i: nat :: lo <= i <= hi ==> (i in Granularity(mask) <==> i <= top)
    ensures top < hi ==> top + 1 !in Granularity(mask)
    decreases hi - lo
  {
    top := lo;
    while top < hi && top + 1 in Granularity(mask)
      invariant lo <= top <= hi && top in Granularity(mask)
    {
      top := top + 1;
    }
    forall i: nat | lo <= i <= hi ensures i in Granularity(mask) <==> i <= top {
      GranularityIs(mask, i);
      GranularityIs(mask, top);
      if top < hi { GranularityIs(mask, top + 1); }
    }
  }
}
