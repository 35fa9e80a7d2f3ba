/** From source extents to the target disk: charting (`Geometry`), laying the charts out
    (`writeFiles`), and the translation of addresses (`Colonies`). */
module Device {
  import opened Bytes
  import opened Burner
  import opened Territory
  import opened Words

  type MedId = nat
  type Planetary = map<MedId, seq<Span>>

  /** Source extents on media; `chart` is given one list per file. */
  datatype Piece = Piece(id: MedId, offset: nat, length: nat)

  function SpanOf(x: Piece): Span {
    Span(x.offset, x.offset + x.length)
  }

  function Charted(plan: Planetary, x: Piece): Planetary {
    plan[x.id := Inserted(if x.id in plan then plan[x.id] else [], SpanOf(x))]
  }

  function AllCharted(plan: Planetary, list: seq<Piece>): Planetary {
    if list == [] then plan else Charted(AllCharted(plan, list[..|list| - 1]), list[|list| - 1])
  }

  /** What callers owe: on one medium, equal starts mean equal lengths, and nothing overlaps. */
  predicate Chartable(list: seq<Piece>) {
    forall i, j :: 0 <= i < |list| && 0 <= j < |list| && list[i].id == list[j].id ==> Compatible(list[i], list[j])
  }

  predicate Compatible(x: Piece, y: Piece) {
    && (x.offset == y.offset ==> x.length == y.length)
    && (x.offset < y.offset ==> x.offset + x.length <= y.offset)
  }

  function Area(plan: Planetary, id: MedId): seq<Span> {
    if id in plan then plan[id] else []
  }

  /** The ranges of a list on one medium. */
  function Spans(list: seq<Piece>, id: MedId): set<Span> {
    if list == [] then {} else
    Spans(list[..|list| - 1], id) + if list[|list| - 1].id == id then {SpanOf(list[|list| - 1])} else {}
  }

  lemma {:induction false} SpanOrigin(list: seq<Piece>, id: MedId, s: Span) returns (i: nat)
    requires s in Spans(list, id)
    ensures i < |list| && list[i].id == id && SpanOf(list[i]) == s
  {
    var x := list[|list| - 1];
    if x.id == id && SpanOf(x) == s {
      i := |list| - 1;
    } else {
      i := SpanOrigin(list[..|list| - 1], id, s);
    }
  }

  lemma {:induction false} SpanListed(list: seq<Piece>, i: nat)
    requires i < |list|
    ensures SpanOf(list[i]) in Spans(list, list[i].id)
  {
    if i < |list| - 1 { SpanListed(list[..|list| - 1], i); }
  }

  /** The chart of a medium lists exactly the ranges of its extents, in order. */
  lemma {:induction false} ChartLists(list: seq<Piece>, id: MedId)
    requires Chartable(list)
    ensures var t := Area(AllCharted(map[], list), id);
            Sorted(t) && forall s :: s in t <==> s in Spans(list, id)
  {
    if list != [] {
      var init, x := list[..|list| - 1], list[|list| - 1];
      ChartLists(init, id);
      var t := Area(AllCharted(map[], init), id);
      if x.id == id {
        InsertedIs(t, SpanOf(x));
        forall s | s in t && s.start == x.offset ensures s == SpanOf(x) {
          var i := SpanOrigin(init, id, s);
          assert Compatible(list[i], list[|list| - 1]);
        }
      }
    }
  }

  /** Charts of non-overlapping extents keep the promise made about them. */
  lemma {:induction false} ChartSeparate(list: seq<Piece>, id: MedId)
    requires Chartable(list)
    ensures Separate(Area(AllCharted(map[], list), id))
  {
    var t := Area(AllCharted(map[], list), id);
    ChartLists(list, id);
    forall i | 0 <= i < |t| ensures t[i].start <= t[i].end {
      var p := SpanOrigin(list, id, t[i]);
    }
    forall i, j | 0 <= i < j < |t| ensures t[i].end <= t[j].start {
      var p := SpanOrigin(list, id, t[i]);
      var q := SpanOrigin(list, id, t[j]);
      assert Compatible(list[p], list[q]);
    }
  }

  lemma {:induction false} ChartMore(plan: Planetary, a: seq<Piece>, b: seq<Piece>)
    ensures AllCharted(plan, a + b) == AllCharted(AllCharted(plan, a), b)
  {
    if b == [] {
      assert a + b == a;
    } else {
      ChartMore(plan, a, b[..|b| - 1]);
      assert (a + b)[..|a + b| - 1] == a + b[..|b| - 1];
    }
  }

  /** What a file's extents add to the granularity mask: all offsets, and all lengths but the last. */
  function MaskOf(file: seq<Piece>): Word {
    if file == [] then {} else MaskFirst(file, |file|)
  }

  function MaskFirst(file: seq<Piece>, k: nat): Word
    requires k <= |file|
  {
    if k == 0 then {} else
    MaskFirst(file, k - 1) + Bits(file[k - 1].offset) + if k < |file| then Bits(file[k - 1].length) else {}
  }

  lemma {:induction false} MaskHas(file: seq<Piece>, k: nat, i: nat)
    requires i < k <= |file|
    ensures Bits(file[i].offset) <= MaskFirst(file, k)
    ensures i + 1 < |file| ==> Bits(file[i].length) <= MaskFirst(file, k)
  {
    hide Bits;
    if i < k - 1 { MaskHas(file, k - 1, i); }
  }

  // ----- laying out -----

  /** A range of a chart and where it went: an entry of `Colonies::plan`. */
  datatype Link = Link(start: nat, target: nat)

  datatype Colonies = Colonies(areaOffset: nat, plan: map<MedId, seq<Link>>)

  /** The range is in the image, byte for byte, from its target on. */
  predicate Landed(media: Media, image: Bytes, id: MedId, s: Span, l: Link) {
    && s.start <= s.end && l.start == s.start
    && l.target + (s.end - s.start) <= |image|
    && image[l.target..l.target + (s.end - s.start)] == Content(media, Extent(s.start, s.end - s.start, Medium(id)))
  }

  class Geometry {
    const onDisk: MedId -> bool  // which media are block devices
    const gap: nat
    var plan: Planetary
    var mask: Word

    constructor (onDisk: MedId -> bool, gap: nat)
      ensures plan == map[] && mask == {} && this.onDisk == onDisk && this.gap == gap
    {
      this.onDisk, this.gap := onDisk, gap;
      plan, mask := map[], {};
    }

    /** `chart` for the extents of one file. */
    method Chart(file: seq<Piece>)
      modifies this`plan, this`mask
      ensures plan == AllCharted(old(plan), file)
      ensures mask == old(mask) + MaskOf(file)
    {
      hide Charted, Bits;
      for i := 0 to |file|
        invariant plan == AllCharted(old(plan), file[..i])
        invariant mask == old(mask) + MaskFirst(file, i)
      {
        assert file[..i + 1][..i] == file[..i];
        plan := Charted(plan, file[i]);
        mask := mask + Bits(file[i].offset);
        if i + 1 < |file| { mask := mask + Bits(file[i].length); }
      }
      assert file[..|file|] == file;
    }

    /** `optimize`: merges the charts of block devices; charts of regular files stay as they are. */
    method Optimize()
      modifies this`plan
      ensures plan == Optimized(old(plan), onDisk, gap)
    {
      var todo := plan.Keys;
      while todo != {}
        invariant todo <= plan.Keys == old(plan).Keys
        invariant forall id :: id in plan ==>
                    plan[id] == if id !in todo && onDisk(id) then Merged(old(plan)[id], gap) else old(plan)[id]
        decreases todo
      {
        var id := Least(todo);
        todo := todo - {id};
        if onDisk(id) {
          var t := MergeExtents(plan[id], gap);
          plan := plan[id := t];
        }
      }
    }
  }

  function Optimized(plan: Planetary, onDisk: MedId -> bool, gap: nat): Planetary {
    map id | id in plan :: if onDisk(id) then Merged(plan[id], gap) else plan[id]
  }

  /** Charts of block devices have their ranges joined wherever the gap is small enough, and others stay
      as they are; no medium is lost. */
  lemma {:induction false} OptimizedIs(list: seq<Piece>, onDisk: MedId -> bool, gap: nat, id: MedId)
    requires Chartable(list)
    ensures var plan := AllCharted(map[], list);
            var t, m := Area(plan, id), Area(Optimized(plan, onDisk, gap), id);
            && Optimized(plan, onDisk, gap).Keys == plan.Keys
            && if onDisk(id) then MergesTo(t, gap, m) && TotalLength(m) == TotalLength(t) + Absorbed(t, gap) else m == t
  {
    hide *;
    var plan := AllCharted(map[], list);
    AreaOptimized(plan, onDisk, gap, id);
    if onDisk(id) {
      ChartSeparate(list, id);
      MergedIs(Area(plan, id), gap);
      MergedLength(Area(plan, id), gap);
    }
  }

  lemma {:induction false} AreaOptimized(plan: Planetary, onDisk: MedId -> bool, gap: nat, id: MedId)
    ensures Optimized(plan, onDisk, gap).Keys == plan.Keys
    ensures Area(Optimized(plan, onDisk, gap), id) == if onDisk(id) then Merged(Area(plan, id), gap) else Area(plan, id)
  {
  }

  /** The next key of a map in iteration order. */
  method Least(keys: set<nat>) returns (k: nat)
    requires keys != {}
    ensures k in keys && forall j :: j in keys ==> k <= j
  {
    k :| k in keys;
    var rest := keys - {k};
    while rest != {}
      invariant k in keys && rest <= keys
      invariant forall j :: j in keys && j !in rest ==> k <= j
      decreases rest
    {
      var j :| j in rest;
      rest := rest - {j};
      if j < k { k := j; }
    }
  }
}
