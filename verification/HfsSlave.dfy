/** An HFS+ volume laid over another one (`HFPlusOut::masterAdjusted`): the files stand on the blocks of
    the other volume, and HFS+ records them in larger blocks of its own, rounding down. */
module HfsSlave {
  import opened Options
  import opened Bytes
  import opened Blocks
  import opened Burner
  import opened Territory
  import opened Device
  import opened Layout
  import opened Translation

  /** The blocks of padding and all of what ranges take on the target. */
  function Padded(m: seq<Span>, o: nat): nat
    requires o > 0
  {
    if m == [] then 0 else Padded(m[..|m| - 1], o) + RoundUp(SizeOf(m[|m| - 1]), o)
  }

  lemma {:induction false} PaddedStep(m: seq<Span>, o: nat)
    requires o > 0 && m != []
    ensures Padded(m, o) == Padded(m[..|m| - 1], o) + RoundUp(SizeOf(m[|m| - 1]), o)
  {
  }

  /** From a block boundary on, ranges take their padded sizes. */
  lemma {:induction false} EndSum(m: seq<Span>, from: nat, o: nat)
    requires Divides(o, from)
    ensures EndOf(m, from, o) == from + Padded(m, o) && Divides(o, EndOf(m, from, o))
  {
    if m != [] {
      var init, s := m[..|m| - 1], SizeOf(m[|m| - 1]);
      EndSum(init, from, o);
      RoundUpPast(s, EndOf(init, from, o), o);
      RoundUpAligned(EndOf(init, from, o) + s, o);
      hide RoundUp, SizeOf;
    }
  }

  /** All ranges but the last take whole blocks. */
  predicate WholeRanges(m: seq<Span>, o: nat, b: nat)
    requires o > 0
  {
    forall j :: 0 <= j < |m| - 1 ==> Divides(b, RoundUp(SizeOf(m[j]), o))
  }

  predicate StartsWhole(m: seq<Span>, from: nat, o: nat, b: nat)
    requires o > 0
  {
    forall p :: 0 <= p < |m| ==> Divides(b, EndOf(m[..p], from, o))
  }

  /** Every range begins on a block exactly when the area does and all ranges but the last take whole
      blocks. */
  lemma {:induction false} WholeOrNot(m: seq<Span>, from: nat, o: nat, b: nat)
    requires b > 0 && o > 0 && Divides(o, from)
    ensures StartsWhole(m, from, o, b) <==> m == [] || (Divides(b, from) && WholeRanges(m, o, b))
  {
    hide EndOf, RoundUp, SizeOf, Divides;
    if StartsWhole(m, from, o, b) && m != [] {
      assert m[..0] == [];
      EndSum([], from, o);
      NoRanges(o);
      assert Divides(b, EndOf(m[..0], from, o));
      forall j | 0 <= j < |m| - 1 ensures Divides(b, RoundUp(SizeOf(m[j]), o)) {
        assert Divides(b, EndOf(m[..j], from, o)) && Divides(b, EndOf(m[..j + 1], from, o));
        StepWhole(m, j, from, o, b);
      }
    }
    if Divides(b, from) && WholeRanges(m, o, b) {
      forall p | 0 <= p < |m| ensures Divides(b, EndOf(m[..p], from, o)) { WholeUpTo(m, p, from, o, b); }
    }
  }

  lemma {:induction false} NoRanges(o: nat)
    requires o > 0
    ensures Padded([], o) == 0
  {
  }

  lemma {:induction false} OneMore(m: seq<Span>, j: nat, from: nat, o: nat)
    requires j < |m| && Divides(o, from)
    ensures EndOf(m[..j + 1], from, o) == EndOf(m[..j], from, o) + RoundUp(SizeOf(m[j]), o)
  {
    EndSum(m[..j], from, o);
    EndSum(m[..j + 1], from, o);
    assert m[..j + 1][..j] == m[..j];
    PaddedStep(m[..j + 1], o);
    hide Padded, EndOf, RoundUp, SizeOf;
  }

  lemma {:induction false} StepWhole(m: seq<Span>, j: nat, from: nat, o: nat, b: nat)
    requires j < |m| && Divides(o, from)
    requires Divides(b, EndOf(m[..j], from, o)) && Divides(b, EndOf(m[..j + 1], from, o))
    ensures Divides(b, RoundUp(SizeOf(m[j]), o))
  {
    OneMore(m, j, from, o);
    hide RoundUp, EndOf, SizeOf;
    Multiple(EndOf(m[..j + 1], from, o), EndOf(m[..j], from, o), b);
  }

  lemma {:induction false} WholeUpTo(m: seq<Span>, p: nat, from: nat, o: nat, b: nat)
    requires p < |m| && Divides(o, from) && Divides(b, from) && WholeRanges(m, o, b)
    ensures Divides(b, EndOf(m[..p], from, o))
  {
    if p > 0 {
      WholeUpTo(m, p - 1, from, o, b);
      OneMore(m, p - 1, from, o);
      assert Divides(b, RoundUp(SizeOf(m[p - 1]), o));
      hide RoundUp, EndOf, SizeOf, WholeRanges;
      Multiple(EndOf(m[..p - 1], from, o), RoundUp(SizeOf(m[p - 1]), o), b);
    } else {
      assert m[..0] == [];
    }
  }

  // ----- ranges and extents -----

  /** A range of the charts is one of all ranges, */
  lemma {:induction false} FlatPlace(plan: Planetary, n: nat, id: MedId, k: nat) returns (p: nat)
    requires id in plan && id < n && k < |plan[id]|
    ensures p < |Flat(plan, n)| && Flat(plan, n)[..p] == Flat(plan, id) + plan[id][..k]
  {
    if id == n - 1 {
      p := |Flat(plan, id)| + k;
      assert Flat(plan, n) == Flat(plan, id) + plan[id];
    } else {
      p := FlatPlace(plan, n - 1, id, k);
      assert Flat(plan, n)[..p] == Flat(plan, n - 1)[..p];
    }
  }

  /** and the other way round. */
  lemma {:induction false} FlatOrigin(plan: Planetary, n: nat, p: nat) returns (id: MedId, k: nat)
    requires p < |Flat(plan, n)|
    ensures id in plan && k < |plan[id]| && Flat(plan, n)[..p] == Flat(plan, id) + plan[id][..k]
  {
    var init := Flat(plan, n - 1);
    if p < |init| {
      id, k := FlatOrigin(plan, n - 1, p);
      assert Flat(plan, n)[..p] == init[..p];
    } else {
      id, k := n - 1, p - |init|;
      assert Flat(plan, n) == init + plan[id];
    }
  }

  /** All extents of a list stand on blocks of the volume laid over. */
  predicate AllStand(list: seq<Piece>, links: Links, b: nat) {
    forall i :: 0 <= i < |list| ==> StandsAt(list[i], links, b)
  }

  /** The block number recorded, times the block size, is the address. */
  predicate StandsAt(x: Piece, links: Links, b: nat) {
    var at := WithinDisk(links, x.id, x.offset);
    b > 0 && at.Some? && at.value / b * b == at.value
  }

  lemma {:induction false} RecordedExactly(at: nat, b: nat)
    requires b > 0
    ensures at / b * b <= at < at / b * b + b
    ensures at / b * b == at <==> Divides(b, at)
  {
    var q, r := at / b, at % b;
    assert at == q * b + r;
  }

  /** Links begin where their ranges do. */
  lemma {:induction false} LinkStarts(files: seq<seq<Piece>>, onDisk: MedId -> bool, gap: nat, media: Media, v: Outcome, id: MedId)
    requires Represented(files, onDisk, gap, media, v) && id in Optimized(AllCharted(map[], AllPieces(files)), onDisk, gap)
    ensures v.Burned?
    ensures var plan: Planetary := Optimized(AllCharted(map[], AllPieces(files)), onDisk, gap);
            && id in v.colonies.plan && |v.colonies.plan[id]| == |plan[id]|
            && forall k :: 0 <= k < |plan[id]| ==>
                 v.colonies.plan[id][k] == LinkOf(plan, id, k, v.colonies.areaOffset, v.outBlk)
  {
    hide Optimized, AllCharted, Settled, LinkOf;
  }

  /** The extent that begins a range is translated to where the range is. */
  lemma {:induction false} RangeBegins(files: seq<seq<Piece>>, onDisk: MedId -> bool, gap: nat, media: Media, v: Outcome, id: MedId, k: nat)
    returns (i: nat)
    requires Chartable(AllPieces(files)) && Represented(files, onDisk, gap, media, v)
    requires var plan: Planetary := Optimized(AllCharted(map[], AllPieces(files)), onDisk, gap); id in plan && k < |plan[id]|
    ensures i < |AllPieces(files)| && id in v.colonies.plan && k < |v.colonies.plan[id]|
    ensures var x := AllPieces(files)[i];
            WithinDisk(v.colonies.plan, x.id, x.offset) == Some(v.colonies.plan[id][k].target)
  {
    hide Chartable, Represented, Optimized, AllCharted, AllPieces, WithinDisk, Flat, EndOf;
    LinkStarts(files, onDisk, gap, media, v, id);
    var list := AllPieces(files);
    var links: Links := v.colonies.plan;
    var plan: Planetary := Optimized(AllCharted(map[], list), onDisk, gap);
    RangesStart(list, onDisk, gap, id);
    i := PieceAt(list, id, plan[id][k].start);
    hide Ascending;
    UpToRangeAt(plan[id], links[id], k);
    DiskOf(links, id, plan[id][k].start, k);
  }

  lemma {:induction false} PieceAt(list: seq<Piece>, id: MedId, start: nat) returns (i: nat)
    requires Chartable(list) && start in Starts(Area(AllCharted(map[], list), id))
    ensures i < |list| && list[i].id == id && list[i].offset == start
  {
    hide AllCharted, Chartable;
    ChartLists(list, id);
    var s: Span :| s in Area(AllCharted(map[], list), id) && s.start == start;
    i := SpanOrigin(list, id, s);
  }

  lemma {:induction false} UpToRangeAt(m: seq<Span>, links: seq<Link>, k: nat)
    requires |links| == |m| && (forall j :: 0 <= j < |m| ==> links[j].start == m[j].start) && Ascending(m) && k < |m|
    ensures UpTo(links, m[k].start) == k + 1
  {
    UpToRange(m, links, m[k].start, k);
  }

  /** The ranges of a medium ascend, and begin where extents do. */
  lemma {:induction false} RangesStart(list: seq<Piece>, onDisk: MedId -> bool, gap: nat, id: MedId)
    requires Chartable(list)
    ensures var t := Area(AllCharted(map[], list), id);
            var plan: Planetary := Optimized(AllCharted(map[], list), onDisk, gap);
            id in plan ==> Ascending(plan[id]) && forall k :: 0 <= k < |plan[id]| ==> plan[id][k].start in Starts(t)
  {
    var t := Area(AllCharted(map[], list), id);
    ChartLists(list, id);
    ChartSeparate(list, id);
    hide AllCharted, Chartable;
    if onDisk(id) {
      MergedIs(t, gap);
      SpreadAscends(Merged(t, gap), gap);
    } else {
      assert forall k :: 0 <= k < |t| ==> t[k] in t;
    }
  }

  /** Every extent is recorded at its address, if and only if the file area begins on a block of the
      volume laid over, and every range but the last, padded to the block of the volume below, takes
      whole blocks of it. */
  lemma {:induction false} SlaveExact(files: seq<seq<Piece>>, onDisk: MedId -> bool, gap: nat, media: Media, v: Outcome, b: nat, n: nat)
    requires Chartable(AllPieces(files)) && Represented(files, onDisk, gap, media, v)
    requires b > 0 && Divides(v.outBlk, v.colonies.areaOffset)
    requires forall i :: 0 <= i < |AllPieces(files)| ==> AllPieces(files)[i].offset % b == 0
    requires forall id :: id in v.colonies.plan ==> id < n
    ensures var ranges := Flat(Optimized(AllCharted(map[], AllPieces(files)), onDisk, gap), n);
            AllStand(AllPieces(files), v.colonies.plan, b)
            <==> ranges == [] || (Divides(b, v.colonies.areaOffset) && WholeRanges(ranges, v.outBlk, b))
  {
    var list, from := AllPieces(files), v.colonies.areaOffset;
    var links: Links := v.colonies.plan;
    var plan: Planetary := Optimized(AllCharted(map[], list), onDisk, gap);
    WholeOrNot(Flat(plan, n), from, v.outBlk, b);
    hide WholeRanges, Divides;
    if StartsWhole(Flat(plan, n), from, v.outBlk, b) {
      forall i | 0 <= i < |list| ensures StandsAt(list[i], links, b) { StandsIf(files, onDisk, gap, media, v, b, n, i); }
    }
    if AllStand(list, links, b) {
      forall p | 0 <= p < |Flat(plan, n)| ensures Divides(b, EndOf(Flat(plan, n)[..p], from, v.outBlk)) {
        StartsIf(files, onDisk, gap, media, v, b, n, p);
      }
    }
  }

  lemma {:induction false} StandsIf(files: seq<seq<Piece>>, onDisk: MedId -> bool, gap: nat, media: Media, v: Outcome, b: nat, n: nat, i: nat)
    requires Chartable(AllPieces(files)) && Represented(files, onDisk, gap, media, v)
    requires v.outBlk > 0 && b > 0 && i < |AllPieces(files)|
    requires forall k :: 0 <= k < |AllPieces(files)| ==> AllPieces(files)[k].offset % b == 0
    requires forall id :: id in v.colonies.plan ==> id < n
    requires StartsWhole(Flat(Optimized(AllCharted(map[], AllPieces(files)), onDisk, gap), n), v.colonies.areaOffset, v.outBlk, b)
    ensures StandsAt(AllPieces(files)[i], v.colonies.plan, b)
  {
    hide Chartable, Represented, Optimized, AllCharted, SettledAt, Within, Flat, EndOf, WithinDisk, AllPieces, Starts, Divides, StandsAt, StartsWhole;
    RepresentedMeans(files, onDisk, gap, media, v);
    var list, from := AllPieces(files), v.colonies.areaOffset;
    var links: Links := v.colonies.plan;
    var plan: Planetary := Optimized(AllCharted(map[], list), onDisk, gap);
    var x := list[i];
    var r := RangeFound(media, v.image, list, onDisk, gap, links, from, v.to, v.outBlk, i);
    LinkStarts(files, onDisk, gap, media, v, x.id);
    var p := FlatPlace(plan, n, x.id, r);
    StartsAt(Flat(plan, n), p, from, v.outBlk, b);
    LinkIs(plan, x.id, r, from, v.outBlk);
    StartAligned(list, x.id, plan[x.id][r].start, b);
    StandsBy(x, links, b, plan[x.id][r].start, links[x.id][r].target);
  }

  lemma {:induction false} LinkIs(plan: Planetary, id: MedId, k: nat, from: nat, o: nat)
    requires o > 0 && id in plan && k < |plan[id]|
    ensures LinkOf(plan, id, k, from, o).target == EndOf(Flat(plan, id) + plan[id][..k], from, o)
  {
  }

  lemma {:induction false} StartsAt(m: seq<Span>, p: nat, from: nat, o: nat, b: nat)
    requires o > 0 && StartsWhole(m, from, o, b) && p < |m|
    ensures Divides(b, EndOf(m[..p], from, o))
  {
  }

  lemma {:induction false} RepresentedMeans(files: seq<seq<Piece>>, onDisk: MedId -> bool, gap: nat, media: Media, v: Outcome)
    requires Represented(files, onDisk, gap, media, v)
    ensures v.Burned? && v.outBlk > 0
    ensures Laid(media, v.image, AllPieces(files), onDisk, gap, v.colonies.plan, v.colonies.areaOffset, v.to, v.outBlk)
  {
  }

  /** The range an extent is in, and its translated address. */
  lemma {:induction false} RangeFound(media: Media, image: Bytes, list: seq<Piece>, onDisk: MedId -> bool, gap: nat, links: Links,
                                      from: nat, to: nat, blkSz: nat, i: nat) returns (r: nat)
    requires Chartable(list) && i < |list| && Laid(media, image, list, onDisk, gap, links, from, to, blkSz)
    ensures var plan: Planetary := Optimized(AllCharted(map[], list), onDisk, gap);
            var x := list[i];
            && x.id in plan && x.id in links && r < |plan[x.id]| == |links[x.id]| && plan[x.id][r].start <= x.offset
            && WithinDisk(links, x.id, x.offset) == Some(x.offset - plan[x.id][r].start + links[x.id][r].target)
            && plan[x.id][r].start in Starts(Area(AllCharted(map[], list), x.id))
  {
    hide Chartable, Laid, Optimized, AllCharted, SettledAt, WithinDisk, Starts;
    r := Translated(media, image, list, onDisk, gap, links, from, to, blkSz, i);
  }

  lemma {:induction false} StandsBy(x: Piece, links: Links, b: nat, start: nat, target: nat)
    requires b > 0 && x.offset % b == 0 && start % b == 0 && Divides(b, target) && start <= x.offset
    requires WithinDisk(links, x.id, x.offset) == Some(x.offset - start + target)
    ensures StandsAt(x, links, b)
  {
    Multiple(x.offset, start, b);
    Multiple(x.offset - start, target, b);
    RecordedExactly(x.offset - start + target, b);
  }

  lemma {:induction false} StartsIf(files: seq<seq<Piece>>, onDisk: MedId -> bool, gap: nat, media: Media, v: Outcome, b: nat, n: nat, p: nat)
    requires Chartable(AllPieces(files)) && Represented(files, onDisk, gap, media, v) && b > 0
    requires AllStand(AllPieces(files), v.colonies.plan, b)
    requires p < |Flat(Optimized(AllCharted(map[], AllPieces(files)), onDisk, gap), n)|
    ensures Divides(b, EndOf(Flat(Optimized(AllCharted(map[], AllPieces(files)), onDisk, gap), n)[..p], v.colonies.areaOffset, v.outBlk))
  {
    var list, from := AllPieces(files), v.colonies.areaOffset;
    var links: Links := v.colonies.plan;
    var plan: Planetary := Optimized(AllCharted(map[], list), onDisk, gap);
    hide Chartable, Optimized, AllCharted, Laid, Flat, EndOf, WithinDisk, AllPieces;
    var id, k := FlatOrigin(plan, n, p);
    var i := RangeBegins(files, onDisk, gap, media, v, id, k);
    assert links[id][k] == LinkOf(plan, id, k, from, v.outBlk);
    assert StandsAt(list[i], links, b);
    RecordedExactly(links[id][k].target, b);
  }

  /** Over a CD with a copied target and headers from a temporary file, the area begins behind 16 sectors
      and three descriptors of 2048 bytes each, in the middle of an HFS+ block of 4096: some extent is
      always recorded too early. */
  lemma {:induction false} CdAreaMisses(files: seq<seq<Piece>>, onDisk: MedId -> bool, gap: nat, media: Media, v: Outcome, n: nat)
    requires Chartable(AllPieces(files)) && Represented(files, onDisk, gap, media, v)
    requires v.outBlk == 2048 && v.colonies.areaOffset == (16 + 3) * 2048 && AllPieces(files) != []
    requires forall i :: 0 <= i < |AllPieces(files)| ==> AllPieces(files)[i].offset % 4096 == 0
    requires forall id :: id in v.colonies.plan ==> id < n
    ensures !AllStand(AllPieces(files), v.colonies.plan, 4096)
  {
    hide Chartable, Represented, Optimized, AllCharted, AllPieces, Flat, AllStand, WholeRanges;
    SlaveExact(files, onDisk, gap, media, v, 4096, n);
    SomeRange(files, onDisk, gap, media, v, n);
  }

  lemma {:induction false} SomeRange(files: seq<seq<Piece>>, onDisk: MedId -> bool, gap: nat, media: Media, v: Outcome, n: nat)
    requires Chartable(AllPieces(files)) && Represented(files, onDisk, gap, media, v) && AllPieces(files) != []
    requires forall id :: id in v.colonies.plan ==> id < n
    ensures Flat(Optimized(AllCharted(map[], AllPieces(files)), onDisk, gap), n) != []
  {
    var plan: Planetary := Optimized(AllCharted(map[], AllPieces(files)), onDisk, gap);
    hide Chartable, Optimized, AllCharted, AllPieces, Settled, WithinDisk;
    var r := Translated(media, v.image, AllPieces(files), onDisk, gap, v.colonies.plan, v.colonies.areaOffset, v.to, v.outBlk, 0);
    var p := FlatPlace(plan, n, AllPieces(files)[0].id, r);
  }
}
