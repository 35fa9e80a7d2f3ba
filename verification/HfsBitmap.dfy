/** The end of an HFS+ volume: the allocation bitmap, whose size depends on the block count that
    includes it, and the alternate volume header (`HFPlusOut::masterComplete`). */
module HfsBitmap {
  import opened Bytes
  import opened Blocks
  import opened Burner

  const HEADER := 512
  const TAIL := 1024

  /** `BitsMedium::byteCount`. */
  function ByteCount(bits: nat): nat {
    (bits + 7) / 8
  }

  /** The block count the original guesses before it sizes the bitmap. */
  function Estimate(offset: nat, b: nat): nat
    requires b > 0
  {
    offset * 8 / (8 * b - 1) + 2
  }

  /** The blocks a bitmap of `bits` bits takes. */
  function BitmapBlocks(bits: nat, b: nat): nat
    requires b > 0
  {
    RoundUp(ByteCount(bits), b) / b
  }

  /** Products, spelled out. */
  lemma {:induction false} Eight(k: nat, b: nat)
    ensures k * (8 * b) == 8 * (k * b)
  {
  }

  lemma {:induction false} Ceiling(y: nat, b: nat) returns (k: nat)
    requires b > 0
    ensures k == RoundUp(y, b) / b && k * b < y + b && y <= k * b
  {
    k := (y + b - 1) / b;
    Quotient(k, 0, b);
    RoundUpBounds(y, b);
  }

  lemma {:induction false} OneMultiple(c: nat, k: nat, q: nat, bits: nat)
    requires c * q < bits + q && bits <= c * q && k * q < bits + q && bits <= k * q
    ensures c == k
  {
    assert c < k ==> (c + 1) * q <= k * q;
    assert k < c ==> (k + 1) * q <= c * q;
  }

  /** A bitmap of `c` blocks, and of no fewer, has room for `bits` bits. */
  lemma {:induction false} BitmapBlocksIs(bits: nat, b: nat, c: nat)
    requires b > 0 && bits > 0
    ensures c == BitmapBlocks(bits, b) <==> c * (8 * b) < bits + 8 * b && bits <= c * (8 * b)
  {
    var y := ByteCount(bits);
    assert 8 * y - 7 <= bits <= 8 * y;
    var k := Ceiling(y, b);
    Eight(k, b);
    var q := 8 * b;
    hide RoundUp, ByteCount;
    assert k * q < bits + q && bits <= k * q;
    if c * q < bits + q && bits <= c * q { OneMultiple(c, k, q, bits); }
  }

  /** `n * q / (q - 1)`, by way of `n = m * (q - 1) + r`. */
  lemma {:induction false} Ratio(m: nat, r: nat, q: nat)
    requires q > 1 && r < q - 1
    ensures (m * (q - 1) + r) * q / (q - 1) == m * q + r
  {
    var p := q - 1;
    assert (m * p + r) * q == (m * q + r) * p + r by {
      assert (m * p + r) * q == m * p * q + r * q;
      assert (m * q + r) * p == m * q * p + r * p;
      assert m * p * q == m * q * p;
      assert r * q == r * p + r;
    }
    Quotient(m * q + r, r, p);
  }

  lemma {:induction false} Split(n: nat, p: nat) returns (m: nat, r: nat)
    requires p > 0
    ensures n == m * p + r && r < p
  {
    m, r := n / p, n % p;
  }

  lemma {:induction false} EstimateIs(n: nat, b: nat) returns (m: nat, r: nat)
    requires b > 0
    ensures var q := 8 * b;
            && n == m * (q - 1) + r && r < q - 1
            && n * q / (q - 1) == m * q + r && Estimate(n * b, b) == n * q / (q - 1) + 2
  {
    m, r := Split(n, 8 * b - 1);
    Ratio(m, r, 8 * b);
    assert n * b * 8 == n * (8 * b);
  }

  lemma {:induction false} Distributed(m: nat, q: nat)
    requires q > 0
    ensures m * (q - 1) == m * q - m && (m + 1) * q == m * q + q
  {
  }

  /** The guess is exact: it counts the `n` blocks before the bitmap, the blocks of a bitmap with a bit
      for each block so counted, and one more. */
  lemma {:induction false} EstimateExact(n: nat, b: nat)
    requires b > 0
    ensures Estimate(n * b, b) == n + BitmapBlocks(Estimate(n * b, b), b) + 1
    ensures BitmapBlocks(Estimate(n * b, b), b) * (8 * b) + 2 <= Estimate(n * b, b) + 8 * b
  {
    hide Estimate, BitmapBlocks;
    var m, r := EstimateIs(n, b);
    Distributed(m, 8 * b);
    BitmapBlocksIs(Estimate(n * b, b), b, m + 1);
  }

  /** And it is the least: a smaller volume lacks the room for `n` blocks, its own bitmap and one more. */
  lemma {:induction false} EstimateLeast(n: nat, b: nat, t: nat)
    requires b > 0 && 0 < t < Estimate(n * b, b)
    ensures t < n + BitmapBlocks(t, b) + 1
  {
    var e, q := Estimate(n * b, b), 8 * b;
    var k, c := BitmapBlocks(e, b), BitmapBlocks(t, b);
    EstimateExact(n, b);
    BitmapBlocksIs(t, b, c);
    hide Estimate, BitmapBlocks;
    if c < k {
      Steps(k - 1, c, q);
      Distributed(k - 1, q);
    }
  }

  lemma {:induction false} Steps(k: nat, c: nat, q: nat)
    requires c <= k && q > 0
    ensures k * q >= c * q + (k - c)
  {
    if c < k {
      Steps(k - 1, c, q);
      assert k * q == (k - 1) * q + q;
    }
  }

  // ----- how many blocks there are -----

  /** Another bit takes at most another block. */
  lemma {:induction false} BlocksGrow(m: nat, d: nat, b: nat)
    requires b > 0 && m > 0
    ensures BitmapBlocks(m, b) <= BitmapBlocks(m + d, b) <= BitmapBlocks(m, b) + d
  {
    var k, c, q := BitmapBlocks(m, b), BitmapBlocks(m + d, b), 8 * b;
    BitmapBlocksIs(m, b, k);
    BitmapBlocksIs(m + d, b, c);
    hide BitmapBlocks;
    Apart(k, c, m, d, q);
  }

  lemma {:induction false} Apart(k: nat, c: nat, m: nat, d: nat, q: nat)
    requires q > 0 && k * q < m + q && m <= k * q && c * q < m + d + q && m + d <= c * q
    ensures k <= c <= k + d
  {
    if c < k {
      Steps(k - 1, c, q);
      Distributed(k - 1, q);
    }
    if c > k + d {
      Steps(c - 1, k + d, q);
      Steps(k + d, k, q);
      Distributed(c - 1, q);
    }
  }

  /** Within a block of the end of `n` blocks, the guess is at most one short of theirs. */
  lemma {:induction false} EstimateNear(offset: nat, n: nat, b: nat)
    requires b > 0 && offset + b > n * b
    ensures Estimate(offset, b) + 1 >= Estimate(n * b, b)
  {
    var p := 8 * b - 1;
    Near(offset * 8, n * b * 8, p);
  }

  lemma {:induction false} Near(x: nat, y: nat, p: nat)
    requires p > 0 && x + p >= y
    ensures x / p + 1 >= y / p
  {
    var m, r := Split(y, p);
    Quotient(m, r, p);
    var k, t := Split(x, p);
    Quotient(k, t, p);
    assert k + 1 < m ==> (k + 2) * p <= m * p;
  }

  /** A guess that is at most one short still gives the bitmap a bit for every block there will be. */
  lemma {:induction false} EnoughBits(n: nat, b: nat, e: nat)
    requires b > 0 && e > 0 && e + 1 >= Estimate(n * b, b)
    ensures n + BitmapBlocks(e, b) <= e
    ensures n + BitmapBlocks(e, b) + 1 <= 8 * RoundUp(ByteCount(e), b)
  {
    hide Estimate, BitmapBlocks;
    var exact := Estimate(n * b, b);
    EstimateExact(n, b);
    if e >= exact {
      BlocksGrow(exact, e - exact, b);
      BitsFit(e, b);
    } else {
      BlocksGrow(e, 1, b);
      BitsFit(e, b);
      BitsFit(exact, b);
      SizeIs(e, b);
      SizeIs(exact, b);
    }
  }

  lemma {:induction false} SizeIs(bits: nat, b: nat)
    requires b > 0
    ensures RoundUp(ByteCount(bits), b) == BitmapBlocks(bits, b) * b
  {
    RoundUpAligned(ByteCount(bits), b);
    QuotientSum(RoundUp(ByteCount(bits), b), 0, b);
    hide RoundUp, ByteCount;
  }

  /** A bitmap rounded to blocks has room for its bits. */
  lemma {:induction false} BitsFit(bits: nat, b: nat)
    requires b > 0
    ensures bits <= 8 * RoundUp(ByteCount(bits), b)
  {
    RoundUpBounds(ByteCount(bits), b);
    hide RoundUp;
  }

  // ----- where things are put -----

  /** The size of the bitmap is a multiple of every block size involved. */
  lemma {:induction false} SizeAligned(bits: nat, b: nat, c: nat)
    requires Divides(c, b) && b > 0
    ensures var size := RoundUp(ByteCount(bits), b); Divides(c, size) && Divides(b, size) && (bits > 0 ==> size > 0)
  {
    RoundUpAligned(ByteCount(bits), b);
    RoundUpBounds(ByteCount(bits), b);
    MultipleOfMultiple(RoundUp(ByteCount(bits), b), b, c);
  }

  lemma {:induction false} NoPad(offset: nat, size: nat, t: nat)
    requires Divides(t, offset) && Divides(t, size)
    ensures RoundUp(offset + size, t) == offset + size && Divides(t, offset + size)
  {
    Multiple(offset, size, t);
    RoundUpAligned(offset + size, t);
  }

  /** `wrapToGo` of one appended extent, which needs no padding. */
  method AppendAndWrap(planner: Planner, length: nat, from: nat, medium: Medium, home: Medium) returns (xt: Extent)
    requires planner.Valid() && length > 0
    requires RoundUp(planner.offset + length, planner.BlockSize()) == planner.offset + length
    modifies planner`extlist, planner`offset
    ensures planner.Valid() && planner.offset == old(planner.offset) + length
    ensures planner.extlist == old(planner.extlist) + [Extent(from, length, medium)]
    ensures xt == Extent(old(planner.offset), length, home)
  {
    hide RoundUp, Planner.Valid;
    var _, cur := planner.Append(Extent(from, length, medium));
    xt := planner.WrapToGo(cur, home);
  }

  /** Where a bitmap appended at an offset ends. */
  function End(offset: nat, bits: nat, b: nat): nat
    requires b > 0
  {
    offset + RoundUp(ByteCount(bits), b)
  }

  /** Appends the bitmap, by way of `tmp`, which writes to the medium `home`. */
  method AppendBitmap(b: nat, out: Planner, tmp: Planner, home: Medium, bits: Medium, blks: nat)
    requires out.Valid() && tmp.Valid() && out != tmp && blks > 0 && b > 0
    requires Divides(out.BlockSize(), b) && Divides(out.BlockSize(), out.offset)
    requires Divides(tmp.BlockSize(), b) && Divides(tmp.BlockSize(), tmp.offset)
    modifies out`extlist, out`offset, tmp`extlist, tmp`offset
    ensures out.Valid() && tmp.Valid()
    ensures var size := RoundUp(ByteCount(blks), b);
      && out.offset == End(old(out.offset), blks, b) && tmp.offset == End(old(tmp.offset), blks, b)
      && out.extlist == old(out.extlist) + [Extent(old(tmp.offset), size, home)]
      && tmp.extlist == old(tmp.extlist) + [Extent(0, size, bits)]
  {
    hide RoundUp, Planner.Valid, ByteCount, BitmapBlocks, Divides;
    var size := RoundUp(ByteCount(blks), b);
    SizeAligned(blks, b, out.BlockSize());
    SizeAligned(blks, b, tmp.BlockSize());
    NoPad(out.offset, size, out.BlockSize());
    NoPad(tmp.offset, size, tmp.BlockSize());
    var tmpAlloc := AppendAndWrap(tmp, size, 0, bits, home);
    var _ := AppendAndWrap(out, size, tmpAlloc.offset, home, home);
  }

  /** The zeros before the alternate header, the header, and the zeros after it. */
  method AppendTail(tmp: Planner, prepend: int, vol: Medium) returns (ok: bool, cur: nat)
    requires tmp.Valid()
    modifies tmp`extlist, tmp`offset
    ensures tmp.Valid() && ok == (prepend >= 0) && cur == old(tmp.offset)
    ensures tmp.extlist == old(tmp.extlist) + Tail(prepend, vol)
    ensures ok ==> tmp.offset == cur + prepend + TAIL
  {
    hide Planner.Valid;
    ok, cur := tmp.Append(Extent(0, prepend, Zero));
    if !ok { return; }
    var _, _ := tmp.Append(Extent(0, HEADER, vol));
    var _, _ := tmp.Append(Extent(0, TAIL - HEADER, Zero));
  }

  function Tail(prepend: int, vol: Medium): seq<Extent> {
    if prepend < 0 then [] else
    (if prepend == 0 then [] else [Extent(0, prepend, Zero)]) + [Extent(0, HEADER, vol), Extent(0, TAIL - HEADER, Zero)]
  }

  /** Appends what is left of the last block, ending with the alternate volume header, where the volume
      is to have `length` bytes. Aborts (`!ok`) when the last 1024 bytes are written already. */
  method AppendHeader(out: Planner, tmp: Planner, home: Medium, vol: Medium, length: nat) returns (ok: bool)
    requires out.Valid() && tmp.Valid() && out != tmp && length > out.offset
    requires Divides(tmp.BlockSize(), length - out.offset) && Divides(tmp.BlockSize(), tmp.offset)
    modifies out`extlist, out`offset, tmp`extlist, tmp`offset
    ensures out.Valid() && tmp.Valid()
    ensures var left := length - old(out.offset);
      && ok == (left >= TAIL)
      && tmp.extlist == old(tmp.extlist) + Tail(left - TAIL, vol)
      && (ok ==>
            && out.offset == length && tmp.offset == old(tmp.offset) + left
            && out.extlist == old(out.extlist) + [Extent(old(tmp.offset), left, home)])
  {
    NoPad(tmp.offset, length - out.offset, tmp.BlockSize());
    hide RoundUp, Planner.Valid, Divides, Tail;
    var prepend := length - out.offset - TAIL;
    var curTmp;
    ok, curTmp := AppendTail(tmp, prepend, vol);
    if !ok { return; }
    var last := tmp.WrapToGo(curTmp, home);
    var _, _ := out.Append(last);
  }

  function VolumeLength(blks: nat, b: nat): nat {
    blks * b
  }

  /** The block count, given where the bitmap ends. */
  function Settled(offset: nat, b: nat, coblock: nat, blks: nat): nat
    requires b > 0
  {
    var curb := offset / b;
    if curb <= blks then curb + (if coblock / b > 1 then coblock / b else 1) else blks
  }

  /** Where both planners are padded to. */
  function PaddedEnd(offset: nat, bits: nat, b: nat, c: nat): nat
    requires b > 0 && c > 0
  {
    RoundUp(End(offset, bits, b), c)
  }

  /** What the volume comes to when its file area and its trees end at `offset`: there are `blks` blocks,
      the last of which begins within the bitmap's last block or right behind it. The bitmap has a bit
      for each. When `offset` is on a block their number is the guess, and one whole block is left. */
  predicate CountRight(offset: nat, b: nat, c: nat, blks: nat)
    requires b > 0 && c > 0
  {
    var e := Estimate(offset, b);
    var end := PaddedEnd(offset, e, b, c);
    && blks <= 8 * RoundUp(ByteCount(e), b)
    && end < VolumeLength(blks, b) <= end + b && Divides(c, VolumeLength(blks, b) - end)
    && (Divides(b, offset) ==> blks == e && VolumeLength(blks, b) - end == b)
  }

  /** The end of the bitmap in blocks. */
  lemma {:induction false} EndBlock(offset: nat, b: nat, c: nat, e: nat)
    requires Divides(c, b) && b > 0
    ensures var n := RoundUp(offset, c) / b;
            PaddedEnd(offset, e, b, c) / b == n + BitmapBlocks(e, b) && offset + b > n * b
    ensures Divides(c, PaddedEnd(offset, e, b, c))
  {
    var size, start := RoundUp(ByteCount(e), b), RoundUp(offset, c);
    SizeAligned(e, b, c);
    assert Divides(c, start) && start < offset + c && Divides(c, start + size) by {
      RoundUpBounds(offset, c);
      RoundUpAligned(offset, c);
      Multiple(start, size, c);
    }
    assert PaddedEnd(offset, e, b, c) == start + size by { RoundUpPast(offset, size, c); }
    SizeIs(e, b);
    NotAbove(c, b);
    hide *;
    MoreBlocks(start, BitmapBlocks(e, b), b);
  }

  lemma {:induction false} NotAbove(c: nat, b: nat)
    requires Divides(c, b) && b > 0
    ensures c <= b
  {
    QuotientSum(b, 0, c);
    assert b / c >= 1;
  }

  lemma {:induction false} MoreBlocks(x: nat, k: nat, b: nat)
    requires b > 0
    ensures (x + k * b) / b == x / b + k && x / b * b <= x
  {
    var n, r := Split(x, b);
    Quotient(n, r, b);
    assert x + k * b == (n + k) * b + r;
    Quotient(n + k, r, b);
  }

  /** What is left of a block. */
  lemma {:induction false} LeftOver(end: nat, b: nat, c: nat)
    requires Divides(c, b) && Divides(c, end) && b > 0
    ensures end < VolumeLength(end / b + 1, b) <= end + b && Divides(c, VolumeLength(end / b + 1, b) - end)
    ensures Divides(b, end) ==> VolumeLength(end / b + 1, b) == end + b
  {
    var k, r := Split(end, b);
    Quotient(k, r, b);
    Quotient(k + 1, 0, b);
    assert (k + 1) * b == k * b + b;
    MultipleOfMultiple((k + 1) * b, b, c);
    Multiple((k + 1) * b, end, c);
  }

  lemma {:induction false} CountSettles(offset: nat, b: nat, c: nat)
    requires Divides(c, b) && b > 0
    ensures var e := Estimate(offset, b);
            e > 0 && CountRight(offset, b, c, Settled(PaddedEnd(offset, e, b, c), b, c, e))
  {
    hide Estimate, BitmapBlocks, PaddedEnd, ByteCount, RoundUp, Settled, VolumeLength, Divides;
    DividerPositive(c, b);
    var e := Estimate(offset, b);
    var end := PaddedEnd(offset, e, b, c);
    var n := RoundUp(offset, c) / b;
    GuessPositive(offset, b);
    EndBlock(offset, b, c, e);
    EstimateNear(offset, n, b);
    EnoughBits(n, b, e);
    LeftOver(end, b, c);
    SettledIs(end, b, c, e);
    if Divides(b, offset) { Aligned(offset, b, c, n); }
  }

  lemma {:induction false} DividerPositive(c: nat, b: nat)
    requires Divides(c, b)
    ensures c > 0
  {
  }

  lemma {:induction false} GuessPositive(offset: nat, b: nat)
    requires b > 0
    ensures Estimate(offset, b) > 0
  {
  }

  lemma {:induction false} SettledIs(end: nat, b: nat, c: nat, blks: nat)
    requires Divides(c, b) && b > 0 && end / b <= blks
    ensures Settled(end, b, c, blks) == end / b + 1
  {
    OneBlock(c, b);
  }

  lemma {:induction false} OneBlock(c: nat, b: nat)
    requires Divides(c, b) && b > 0
    ensures c / b <= 1
  {
    NotAbove(c, b);
    BlockBetween(c, 0, 2, b);
  }

  lemma {:induction false} AlignedEnd(offset: nat, e: nat, b: nat, c: nat)
    requires Divides(c, b) && b > 0 && Divides(b, offset)
    ensures Divides(b, PaddedEnd(offset, e, b, c))
  {
    SizeAligned(e, b, c);
    var size := RoundUp(ByteCount(e), b);
    Multiple(offset, size, b);
    MultipleOfMultiple(offset + size, b, c);
    RoundUpAligned(offset + size, c);
    hide ByteCount, RoundUp;
  }

  lemma {:induction false} Aligned(offset: nat, b: nat, c: nat, n: nat)
    requires Divides(c, b) && b > 0 && Divides(b, offset) && n == RoundUp(offset, c) / b
    ensures Estimate(offset, b) == n + BitmapBlocks(Estimate(offset, b), b) + 1
    ensures Divides(b, PaddedEnd(offset, Estimate(offset, b), b, c))
  {
    AlignedEnd(offset, Estimate(offset, b), b, c);
    MultipleOfMultiple(offset, b, c);
    RoundUpAligned(offset, c);
    QuotientSum(offset, 0, b);
    EstimateExact(offset / b, b);
    hide Estimate, BitmapBlocks;
  }

  predicate EndsWith(list: seq<Extent>, tail: seq<Extent>) {
    |tail| <= |list| && list[|list| - |tail|..] == tail
  }

  /** The bitmap on the temporary medium, and on the target with the padding after it. */
  function BitmapIn(b: nat, offset: nat, bits: Medium): Extent
    requires b > 0
  {
    Extent(0, RoundUp(ByteCount(Estimate(offset, b)), b), bits)
  }

  function Bitmap(b: nat, c: nat, offset: nat, tmpOff: nat, home: Medium): seq<Extent>
    requires b > 0 && c > 0
  {
    var e := Estimate(offset, b);
    RoundUpBounds(End(offset, e, b), c);
    [Extent(tmpOff, RoundUp(ByteCount(e), b), home)] + Pads(PaddedEnd(offset, e, b, c) - End(offset, e, b))
  }

  /** Sizes and appends the bitmap, pads both planners and settles the block count. */
  method SettleBlocks(b: nat, out: Planner, tmp: Planner, home: Medium, bits: Medium) returns (blks: nat)
    requires out.Valid() && tmp.Valid() && out != tmp && b > 0
    requires Divides(out.BlockSize(), b) && Divides(out.BlockSize(), out.offset)
    requires Divides(tmp.BlockSize(), b) && Divides(tmp.BlockSize(), tmp.offset)
    modifies out`extlist, out`offset, tmp`extlist, tmp`offset
    ensures out.Valid() && tmp.Valid()
    ensures var c, e := Max(out.BlockSize(), tmp.BlockSize()), Estimate(old(out.offset), b);
      && CountRight(old(out.offset), b, c, blks)
      && out.offset == PaddedEnd(old(out.offset), e, b, c) && tmp.offset == PaddedEnd(old(tmp.offset), e, b, c)
      && out.extlist == old(out.extlist) + Bitmap(b, c, old(out.offset), old(tmp.offset), home)
      && old(tmp.extlist) + [BitmapIn(b, old(out.offset), bits)] <= tmp.extlist
  {
    hide Estimate, BitmapBlocks, ByteCount, RoundUp, Planner.Valid, Divides, Settled, VolumeLength, End, PaddedEnd, CountRight, Pads, Bitmap, BitmapIn, Max;
    out.BlockPositive();
    tmp.BlockPositive();
    ghost var c, start, tmpStart := Max(out.BlockSize(), tmp.BlockSize()), out.offset, tmp.offset;
    MaxDivides(out.BlockSize(), tmp.BlockSize(), b);
    CountSettles(start, b, c);
    blks := Estimate(out.offset, b);
    PaddedIs(start, blks, b, c);
    PaddedIs(tmpStart, blks, b, c);
    BitmapIs(b, c, start, tmpStart, home, bits);
    AppendBitmap(b, out, tmp, home, bits, blks);
    ghost var listed := out.extlist;
    var coblock := Copad(out, tmp);
    MaxIs(out.BlockSize(), tmp.BlockSize());
    Joined(old(out.extlist), [Extent(tmpStart, RoundUp(ByteCount(blks), b), home)], Pads(out.offset - End(start, blks, b)));
    blks := Settled(out.offset, b, coblock, blks);
  }

  lemma {:induction false} Joined(a: seq<Extent>, b: seq<Extent>, c: seq<Extent>)
    ensures a + b + c == a + (b + c)
  {
  }

  lemma {:induction false} MaxDivides(o: nat, t: nat, b: nat)
    requires Divides(o, b) && Divides(t, b)
    ensures Divides(Max(o, t), b) && Max(o, t) > 0
  {
  }

  lemma {:induction false} PaddedIs(offset: nat, bits: nat, b: nat, c: nat)
    requires b > 0 && c > 0
    ensures PaddedEnd(offset, bits, b, c) == RoundUp(End(offset, bits, b), c)
  {
  }

  lemma {:induction false} BitmapIs(b: nat, c: nat, offset: nat, tmpOff: nat, home: Medium, bits: Medium)
    requires b > 0 && c > 0
    ensures var e := Estimate(offset, b);
            && PaddedEnd(offset, e, b, c) >= End(offset, e, b)
            && Bitmap(b, c, offset, tmpOff, home)
               == [Extent(tmpOff, RoundUp(ByteCount(e), b), home)] + Pads(PaddedEnd(offset, e, b, c) - End(offset, e, b))
            && BitmapIn(b, offset, bits) == Extent(0, RoundUp(ByteCount(e), b), bits)
  {
    hide Estimate, ByteCount;
    RoundUpBounds(End(offset, Estimate(offset, b), b), c);
    hide RoundUp;
  }

  /** What the end of the volume consists of: the bitmap, padding, and what is left of the last block. */
  function Ending(b: nat, c: nat, offset: nat, tmpOff: nat, home: Medium, blks: nat): seq<Extent>
    requires b > 0 && c > 0 && CountRight(offset, b, c, blks)
  {
    var e := Estimate(offset, b);
    Bitmap(b, c, offset, tmpOff, home) + [Extent(PaddedEnd(tmpOff, e, b, c), VolumeLength(blks, b) - PaddedEnd(offset, e, b, c), home)]
  }

  /** The bitmap is listed on the temporary medium, from its first bit on, and from there on the target: whole
      blocks with a bit for each block of the volume. */
  predicate BitmapListed(out: seq<Extent>, tmp: seq<Extent>, o: nat, t: nat, tmpOff: nat, home: Medium, bits: Medium, b: nat, blks: nat) {
    && o < |out| && t < |tmp| && tmp[t].offset == 0 && tmp[t].medium == bits
    && out[o] == Extent(tmpOff, tmp[t].length, home)
    && blks <= 8 * tmp[t].length && Divides(b, tmp[t].length)
  }

  lemma {:induction false} ListsBitmap(outWas: seq<Extent>, tmpWas: seq<Extent>, out: seq<Extent>, tmp: seq<Extent>, offset: nat, tmpOff: nat,
                                       home: Medium, bits: Medium, b: nat, c: nat, blks: nat)
    requires b > 0 && c > 0 && CountRight(offset, b, c, blks)
    requires out == outWas + Ending(b, c, offset, tmpOff, home, blks) && tmpWas + [BitmapIn(b, offset, bits)] <= tmp
    ensures BitmapListed(out, tmp, |outWas|, |tmpWas|, tmpOff, home, bits, b, blks)
  {
    var e := Estimate(offset, b);
    SizeAligned(e, b, b) by { SelfDivides(b); }
    assert tmp[|tmpWas|] == (tmpWas + [BitmapIn(b, offset, bits)])[|tmpWas|];
    hide Estimate, RoundUp, ByteCount, PaddedEnd, End, VolumeLength;
  }

  /** From a block boundary on, a whole block is left. */
  predicate WholeLeft(offset: nat, b: nat, left: int) {
    Divides(b, offset) ==> left == b
  }

  /** The end of `masterComplete`: the bitmap, with a bit for every block of the volume, the block count,
      and the alternate header, which comes to stand 1024 bytes before the end of the volume. Aborts when
      less than that is left of the last block: never when either planner has blocks of 1024 bytes, and
      on a block boundary never when the volume has. The block sizes of the planners divide the volume's:
      the target may have a smaller one when the volume is laid over another. */
  method Complete(b: nat, out: Planner, tmp: Planner, home: Medium, bits: Medium, vol: Medium) returns (ok: bool, blks: nat)
    requires out.Valid() && tmp.Valid() && out != tmp && b > 0
    requires Divides(out.BlockSize(), b) && Divides(out.BlockSize(), out.offset)
    requires Divides(tmp.BlockSize(), b) && Divides(tmp.BlockSize(), tmp.offset)
    requires Divides(out.BlockSize(), tmp.BlockSize()) || Divides(tmp.BlockSize(), out.BlockSize())
    modifies out`extlist, out`offset, tmp`extlist, tmp`offset
    ensures out.Valid() && tmp.Valid()
    ensures var c := Max(out.BlockSize(), tmp.BlockSize());
      && CountRight(old(out.offset), b, c, blks)
      && var left := VolumeLength(blks, b) - PaddedEnd(old(out.offset), Estimate(old(out.offset), b), b, c);
      && ok == (left >= TAIL) && (c >= TAIL ==> ok)
      && WholeLeft(old(out.offset), b, left)
      && (ok ==>
            && out.offset == VolumeLength(blks, b) && tmp.offset >= left
            && out.extlist == old(out.extlist) + Ending(b, c, old(out.offset), old(tmp.offset), home, blks)
            && out.extlist[|out.extlist| - 1] == Extent(tmp.offset - left, left, home)
            && old(tmp.extlist) + [BitmapIn(b, old(out.offset), bits)] <= tmp.extlist
            && EndsWith(tmp.extlist, Tail(left - TAIL, vol))
            && BitmapListed(out.extlist, tmp.extlist, |old(out.extlist)|, |old(tmp.extlist)|, old(tmp.offset), home, bits, b, blks))
  {
    hide Estimate, BitmapBlocks, ByteCount, RoundUp, Planner.Valid, Divides, Tail, VolumeLength, Max, End, PaddedEnd, Pads;
    hide WholeLeft, EndsWith, Bitmap, BitmapIn, Ending, CountRight, BitmapListed;
    ghost var c := Max(out.BlockSize(), tmp.BlockSize());
    ghost var start, tmpStart := out.offset, tmp.offset;
    out.BlockPositive();
    tmp.BlockPositive();
    BlocksAgree(out.BlockSize(), tmp.BlockSize());
    blks := SettleBlocks(b, out, tmp, home, bits);
    TailAligned(start, tmpStart, b, c, tmp.BlockSize(), blks);
    ghost var made, left := tmp.extlist, VolumeLength(blks, b) - out.offset;
    EndingIs(old(out.extlist), b, c, start, tmpStart, home, blks);
    Tailed(old(tmp.extlist) + [BitmapIn(b, start, bits)], made, Tail(left - TAIL, vol));
    ok := AppendHeader(out, tmp, home, vol, VolumeLength(blks, b));
    if ok { ListsBitmap(old(out.extlist), old(tmp.extlist), out.extlist, tmp.extlist, start, tmpStart, home, bits, b, c, blks); }
  }

  lemma {:induction false} EndingIs(was: seq<Extent>, b: nat, c: nat, offset: nat, tmpOff: nat, home: Medium, blks: nat)
    requires b > 0 && c > 0 && CountRight(offset, b, c, blks)
    ensures var e := Estimate(offset, b);
            var last := Extent(PaddedEnd(tmpOff, e, b, c), VolumeLength(blks, b) - PaddedEnd(offset, e, b, c), home);
            var list := was + Bitmap(b, c, offset, tmpOff, home) + [last];
            list == was + Ending(b, c, offset, tmpOff, home, blks) && list[|list| - 1] == last
  {
    hide Bitmap, CountRight, Estimate, PaddedEnd, VolumeLength;
  }

  lemma {:induction false} Tailed(a: seq<Extent>, b: seq<Extent>, tail: seq<Extent>)
    requires a <= b
    ensures a <= b + tail && EndsWith(b + tail, tail)
  {
  }

  lemma {:induction false} BlocksAgree(o: nat, t: nat)
    requires o > 0 && t > 0 && (Divides(o, t) || Divides(t, o))
    ensures Max(o, t) > 0 && Divides(t, Max(o, t))
  {
    if Divides(o, t) {
      NotAbove(o, t);
      hide Divides;
    } else {
      NotAbove(t, o);
      hide Divides;
    }
    SelfDivides(t);
  }

  lemma {:induction false} SelfDivides(t: nat)
    requires t > 0
    ensures Divides(t, t)
  {
    Quotient(1, 0, t);
  }

  /** The tail begins and ends on blocks of the temporary medium. */
  lemma {:induction false} TailAligned(offset: nat, tmpOff: nat, b: nat, c: nat, t: nat, blks: nat)
    requires b > 0 && c > 0 && Divides(t, c) && CountRight(offset, b, c, blks)
    ensures var e := Estimate(offset, b);
            && PaddedEnd(offset, e, b, c) + c <= VolumeLength(blks, b)
            && WholeLeft(offset, b, VolumeLength(blks, b) - PaddedEnd(offset, e, b, c))
            && Divides(t, VolumeLength(blks, b) - PaddedEnd(offset, e, b, c)) && Divides(t, PaddedEnd(tmpOff, e, b, c))
  {
    var e := Estimate(offset, b);
    RoundUpAligned(End(tmpOff, e, b), c);
    NotAbove(c, VolumeLength(blks, b) - PaddedEnd(offset, e, b, c));
    hide Estimate, RoundUp, ByteCount, VolumeLength, End;
    MultipleOfMultiple(VolumeLength(blks, b) - PaddedEnd(offset, e, b, c), c, t);
    MultipleOfMultiple(PaddedEnd(tmpOff, e, b, c), c, t);
  }

  lemma {:induction false} LeadBurnt(media: Media, prepend: nat)
    ensures Burnt(media, if prepend > 0 then [Extent(0, prepend, Zero)] else []) == Zeros(prepend)
  {
    BurntPush(media, [], Extent(0, prepend, Zero));
    assert [] + [Extent(0, prepend, Zero)] == [Extent(0, prepend, Zero)];
  }

  lemma {:induction false} TailBurnt(media: Media, prepend: nat, vol: Medium)
    ensures Burnt(media, Tail(prepend, vol)) == Zeros(prepend) + Content(media, Extent(0, HEADER, vol)) + Zeros(TAIL - HEADER)
  {
    var zeros, header, rest := Extent(0, prepend, Zero), Extent(0, HEADER, vol), Extent(0, TAIL - HEADER, Zero);
    assert Content(media, rest) == Zeros(TAIL - HEADER);
    hide Burnt, Zeros, Content;
    var lead: seq<Extent> := if prepend > 0 then [zeros] else [];
    LeadBurnt(media, prepend);
    BurntPush(media, lead, header);
    BurntPush(media, lead + [header], rest);
    assert Tail(prepend, vol) == lead + [header] + [rest];
  }

  /** The header stands 1024 bytes before the end. */
  predicate HasHeader(bytes: Bytes, header: Bytes) {
    |header| == 512 && |bytes| >= 1024 && bytes[|bytes| - 1024..|bytes| - 512] == header
  }

  /** Once `tmp` has been written to its medium, the bytes of the volume hold the header 1024 bytes
      before their end; `left` is what was left of the last block. */
  lemma {:induction false} AlternateHeader(media: Media, out: seq<Extent>, tmp: seq<Extent>, home: nat, vol: Medium, left: nat)
    requires left >= TAIL && Positive(tmp) && EndsWith(tmp, Tail(left - TAIL, vol)) && Length(tmp) >= left
    requires out != [] && out[|out| - 1] == Extent(Length(tmp) - left, left, Medium(home))
    requires forall i: nat :: i < |Burnt(media, tmp)| ==> media(home, i) == Burnt(media, tmp)[i]
    ensures HasHeader(Burnt(media, out), Content(media, Extent(0, HEADER, vol)))
  {
    hide Length, Positive, Tail, EndsWith, Burnt, Content, Zeros, HasHeader;
    BurntLength(media, tmp);
    LastBurnt(media, out, tmp, home, left);
    var a := TmpEnds(media, tmp, vol, left - TAIL);
    HeaderLength(media, vol);
    var c, t := Burnt(media, out[..|out| - 1]), Burnt(media, tmp);
    Slices(a, Zeros(left - TAIL), Content(media, Extent(0, HEADER, vol)), Zeros(TAIL - HEADER), c, left, t, Burnt(media, out));
  }

  lemma {:induction false} HeaderLength(media: Media, vol: Medium)
    ensures |Content(media, Extent(0, HEADER, vol))| == HEADER
  {
  }

  /** The last block of the volume is the last block of `tmp`. */
  lemma {:induction false} LastBurnt(media: Media, out: seq<Extent>, tmp: seq<Extent>, home: nat, b: nat)
    requires var t := Burnt(media, tmp);
             && 0 < b <= |t| && out != [] && out[|out| - 1] == Extent(|t| - b, b, Medium(home))
             && forall i: nat :: i < |t| ==> media(home, i) == t[i]
    ensures var t := Burnt(media, tmp);
            b <= |t| && Burnt(media, out) == Burnt(media, out[..|out| - 1]) + t[|t| - b..]
  {
    hide *;
    var t := Burnt(media, tmp);
    BurntLast(media, out);
    LastBlock(media, home, t, |t| - b, b);
  }

  lemma {:induction false} TmpEnds(media: Media, tmp: seq<Extent>, vol: Medium, prepend: nat) returns (a: Bytes)
    requires EndsWith(tmp, Tail(prepend, vol))
    ensures Burnt(media, tmp) == a + (Zeros(prepend) + Content(media, Extent(0, HEADER, vol)) + Zeros(TAIL - HEADER))
  {
    var tail := Tail(prepend, vol);
    var first := tmp[..|tmp| - |tail|];
    assert tmp == first + tail;
    BurntConcat(media, first, tail);
    TailBurnt(media, prepend, vol);
    a := Burnt(media, first);
  }

  lemma {:induction false} LastBlock(media: Media, home: nat, t: Bytes, start: nat, b: nat)
    requires start + b == |t| && b > 0
    requires forall i: nat :: i < |t| ==> media(home, i) == t[i]
    ensures Content(media, Extent(start, b, Medium(home))) == t[start..]
  {
  }

  lemma {:induction false} Slices(a: Bytes, zeros: Bytes, header: Bytes, rest: Bytes, c: Bytes, b: nat, t: Bytes, bytes: Bytes)
    requires b >= TAIL && |zeros| == b - TAIL && |header| == HEADER && |rest| == TAIL - HEADER
    requires t == a + (zeros + header + rest) && bytes == c + t[|t| - b..]
    ensures HasHeader(bytes, header)
  {
    assert t[|t| - b..] == zeros + header + rest;
  }
}
