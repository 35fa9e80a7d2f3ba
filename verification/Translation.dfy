/** Laying the charts out on the target (`writeFiles`) and translating source addresses (`Colonies`). */
module Translation {
  import opened Options
  import opened Bytes
  import opened Blocks
  import opened Burner
  import opened Territory
  import opened Words
  import opened Device
  import opened Layout
  import opened Volume

  type Links = map<MedId, seq<Link>>

  /** Range `k` of a medium is in the image between `from` and `to`, starting on a block if `from` does. */
  predicate SettledAt(media: Media, image: Bytes, plan: Planetary, links: Links, from: nat, to: nat, blkSz: nat, id: MedId, k: nat)
    requires blkSz > 0 && id in links && k < |links[id]|
  {
    && id in plan && k < |plan[id]|
    && Landed(media, image, id, plan[id][k], links[id][k])
    && from <= links[id][k].target && links[id][k].target + SizeOf(plan[id][k]) <= to
    && (from % blkSz == 0 ==> links[id][k].target % blkSz == 0)
  }

  /** Two ranges share no byte of the target. */
  predicate ApartAt(plan: Planetary, links: Links, id: MedId, k: nat, jd: MedId, l: nat)
    requires id in links && k < |links[id]| && jd in links && l < |links[jd]|
  {
    && id in plan && k < |plan[id]| && jd in plan && l < |plan[jd]|
    && (|| links[id][k].target + SizeOf(plan[id][k]) <= links[jd][l].target
        || links[jd][l].target + SizeOf(plan[jd][l]) <= links[id][k].target)
  }

  predicate Settled(media: Media, image: Bytes, plan: Planetary, links: Links, from: nat, to: nat, blkSz: nat)
    requires blkSz > 0
  {
    && (forall id, k :: id in links && 0 <= k < |links[id]| ==> SettledAt(media, image, plan, links, from, to, blkSz, id, k))
    && (forall id, k, jd, l :: id in links && 0 <= k < |links[id]| && jd in links && 0 <= l < |links[jd]| && (id != jd || k != l) ==>
          ApartAt(plan, links, id, k, jd, l))
  }

  lemma {:induction false} LandedMore(media: Media, image: Bytes, more: Bytes, id: MedId, s: Span, l: Link)
    requires Landed(media, image, id, s, l)
    ensures Landed(media, image + more, id, s, l)
  {
    assert (image + more)[l.target..l.target + (s.end - s.start)] == image[l.target..l.target + (s.end - s.start)];
  }

  /** One more range, after all others. */
  lemma {:induction false} SettleNext(media: Media, image: Bytes, more: Bytes, plan: Planetary, links: Links, from: nat, to: nat,
                                      to': nat, blkSz: nat, id: MedId, l: Link)
    requires blkSz > 0 && Settled(media, image, plan, links, from, to, blkSz) && from <= to
    requires id in links && id in plan && |links[id]| < |plan[id]|
    requires var s := plan[id][|links[id]|];
             Landed(media, image + more, id, s, l) && l.target == to && to + SizeOf(s) <= to'
    requires from % blkSz == 0 ==> to % blkSz == 0
    ensures Settled(media, image + more, plan, links[id := links[id] + [l]], from, to', blkSz)
  {
    var links' := links[id := links[id] + [l]];
    var n := |links[id]|;
    forall jd, k | jd in links' && 0 <= k < |links'[jd]|
      ensures SettledAt(media, image + more, plan, links', from, to', blkSz, jd, k)
    {
      if jd != id || k < n {
        assert SettledAt(media, image, plan, links, from, to, blkSz, jd, k);
        LandedMore(media, image, more, jd, plan[jd][k], links[jd][k]);
      }
    }
    forall a, k, b, m | a in links' && 0 <= k < |links'[a]| && b in links' && 0 <= m < |links'[b]| && (a != b || k != m)
      ensures ApartAt(plan, links', a, k, b, m)
    {
      if a != id || k < n { assert SettledAt(media, image, plan, links, from, to, blkSz, a, k); }
      if b != id || m < n { assert SettledAt(media, image, plan, links, from, to, blkSz, b, m); }
      if (a != id || k < n) && (b != id || m < n) { assert ApartAt(plan, links, a, k, b, m); }
    }
  }

  /** Appends one range and pads to the next block. */
  method WriteRange(out: Planner, blkSz: nat, id: MedId, s: Span, ghost media: Media) returns (l: Link, ghost more: Bytes)
    requires out.Valid() && blkSz > 0 && s.start <= s.end
    modifies out`extlist, out`offset
    ensures out.Valid() && l == Link(s.start, old(out.offset)) && old(out.extlist) <= out.extlist
    ensures out.offset == RoundUp(old(out.offset) + (s.end - s.start), blkSz)
    ensures Burnt(media, out.extlist) == Burnt(media, old(out.extlist)) + more
    ensures Landed(media, Burnt(media, out.extlist), id, s, l)
    ensures |more| == out.offset - old(out.offset) && forall k :: s.end - s.start <= k < |more| ==> more[k] == 0
  {
    hide Content, Burnt, RoundUp, Pads, Planner.Valid, Landed;
    RoundUpBounds(out.offset + (s.end - s.start), blkSz);
    PadIsZero(media, Extent(s.start, s.end - s.start, Medium(id)), RoundUp(out.offset + (s.end - s.start), blkSz) - out.offset - (s.end - s.start));
    out.ListedLength(media);
    var xt := Extent(s.start, s.end - s.start, Medium(id));
    var _, target := out.Append(xt);
    l := Link(s.start, target);
    ghost var before, listed := Burnt(media, old(out.extlist)), out.extlist;
    var pad := out.PadTo(blkSz);
    more := Content(media, xt) + Content(media, Extent(0, pad, Zero));
    BurntPush(media, old(out.extlist), xt);
    BurntPads(media, listed, pad);
    LandedFirst(media, before, Content(media, xt), Content(media, Extent(0, pad, Zero)), id, s, l);
  }

  lemma {:induction false} PadIsZero(media: Media, xt: Extent, pad: nat)
    requires xt.length >= 0
    ensures var more := Content(media, xt) + Content(media, Extent(0, pad, Zero));
            |more| == xt.length + pad && forall k :: xt.length <= k < |more| ==> more[k] == 0
  {
  }

  /** A place of the target lies in one of the ranges. */
  ghost predicate Taken(plan: Planetary, links: Links, a: nat) {
    exists id, k :: TakenBy(plan, links, a, id, k)
  }

  predicate TakenBy(plan: Planetary, links: Links, a: nat, id: MedId, k: nat) {
    && id in links && id in plan && k < |links[id]| && k < |plan[id]|
    && links[id][k].target <= a < links[id][k].target + SizeOf(plan[id][k])
  }

  /** Between the ranges there are only zeros. */
  ghost predicate GapsZero(image: Bytes, plan: Planetary, links: Links, from: nat, to: nat) {
    to <= |image| && forall a: nat :: from <= a < to ==> Taken(plan, links, a) || image[a] == 0
  }

  lemma {:induction false} GapsNext(image: Bytes, more: Bytes, plan: Planetary, links: Links, from: nat, id: MedId, l: Link)
    requires id in links && id in plan && |links[id]| < |plan[id]| && GapsZero(image, plan, links, from, |image|)
    requires var s := plan[id][|links[id]|];
             s.start <= s.end && l.target == |image| && forall k :: s.end - s.start <= k < |more| ==> more[k] == 0
    ensures GapsZero(image + more, plan, links[id := links[id] + [l]], from, |image + more|)
  {
    var links' := links[id := links[id] + [l]];
    var n := |links[id]|;
    forall a: nat | from <= a < |image + more| ensures Taken(plan, links', a) || (image + more)[a] == 0 {
      if a < |image| {
        if Taken(plan, links, a) {
          var jd, k :| TakenBy(plan, links, a, jd, k);
          assert TakenBy(plan, links', a, jd, k);
        }
      } else if a < |image| + SizeOf(plan[id][n]) {
        assert TakenBy(plan, links', a, id, n);
      }
    }
  }

  lemma {:induction false} GapsEmpty(image: Bytes, plan: Planetary, links: Links, from: nat, to: nat, id: MedId)
    requires GapsZero(image, plan, links, from, to) && id !in links
    ensures GapsZero(image, plan, links[id := []], from, to)
  {
    var links' := links[id := []];
    forall a: nat | from <= a < to ensures Taken(plan, links', a) || image[a] == 0 {
      if Taken(plan, links, a) {
        var jd, k :| TakenBy(plan, links, a, jd, k);
        assert TakenBy(plan, links', a, jd, k);
      }
    }
  }

  lemma {:induction false} NoGaps(image: Bytes, plan: Planetary)
    ensures GapsZero(image, plan, map[], |image|, |image|)
  {
  }

  lemma {:induction false} GapsKept(image: Bytes, more: Bytes, plan: Planetary, links: Links, from: nat, to: nat)
    requires GapsZero(image, plan, links, from, to)
    ensures GapsZero(image + more, plan, links, from, to)
  {
    hide Taken;
  }

  lemma {:induction false} LandedFirst(media: Media, before: Bytes, body: Bytes, pad: Bytes, id: MedId, s: Span, l: Link)
    requires s.start <= s.end && l == Link(s.start, |before|)
    requires body == Content(media, Extent(s.start, s.end - s.start, Medium(id)))
    ensures before + body + pad == before + (body + pad)
    ensures Landed(media, before + body + pad, id, s, l)
  {
    hide Content;
    assert (before + body + pad)[|before|..|before| + |body|] == body;
  }

  lemma {:induction false} SettleNone(media: Media, image: Bytes, plan: Planetary, from: nat, blkSz: nat)
    requires blkSz > 0
    ensures Settled(media, image, plan, map[], from, from, blkSz)
  {}

  /** Starting the chart of another medium. */
  lemma {:induction false} SettleEmpty(media: Media, image: Bytes, plan: Planetary, links: Links, from: nat, to: nat, blkSz: nat, id: MedId)
    requires blkSz > 0 && Settled(media, image, plan, links, from, to, blkSz) && id !in links
    ensures Settled(media, image, plan, links[id := []], from, to, blkSz)
  {
    hide Landed;
    var links' := links[id := []];
    forall jd, k | jd in links' && 0 <= k < |links'[jd]|
      ensures SettledAt(media, image, plan, links', from, to, blkSz, jd, k)
    {
      assert SettledAt(media, image, plan, links, from, to, blkSz, jd, k);
    }
    forall a, k, b, m | a in links' && 0 <= k < |links'[a]| && b in links' && 0 <= m < |links'[b]| && (a != b || k != m)
      ensures ApartAt(plan, links', a, k, b, m)
    {
      assert ApartAt(plan, links, a, k, b, m);
    }
  }

  /** The media charted up to `b` are done, and range `k` of medium `id` is next. */
  ghost predicate Reached(plan: Planetary, links: Links, from: nat, blkSz: nat, done: set<MedId>, id: MedId, k: nat, offset: nat)
    requires blkSz > 0 && done <= plan.Keys && id in plan && k <= |plan[id]|
  {
    && links == (map jd | jd in done :: LinksAt(plan, jd, from, blkSz))[id := LinksAt(plan, id, from, blkSz)[..k]]
    && offset == EndOf(Flat(plan, id) + plan[id][..k], from, blkSz)
  }

  ghost predicate DoneBelow(plan: Planetary, links: Links, from: nat, blkSz: nat, done: set<MedId>, b: nat, offset: nat)
    requires blkSz > 0
  {
    && done <= plan.Keys && (forall id :: id in plan ==> (id in done <==> id < b))
    && links == (map id | id in done :: LinksAt(plan, id, from, blkSz))
    && offset == EndOf(Flat(plan, b), from, blkSz)
  }

  lemma {:induction false} ReachStart(plan: Planetary, links: Links, from: nat, blkSz: nat, done: set<MedId>, b: nat, offset: nat, id: MedId)
    requires blkSz > 0 && DoneBelow(plan, links, from, blkSz, done, b, offset) && id in plan && b <= id
    requires forall jd :: jd in plan && jd !in done ==> id <= jd
    ensures done <= plan.Keys && Reached(plan, links[id := []], from, blkSz, done, id, 0, offset)
  {
    FlatSkip(plan, b, id);
    assert Flat(plan, id) + plan[id][..0] == Flat(plan, id);
    hide EndOf, Flat;
  }

  lemma {:induction false} ReachNext(plan: Planetary, links: Links, from: nat, blkSz: nat, done: set<MedId>, id: MedId, k: nat, offset: nat)
    requires blkSz > 0 && done <= plan.Keys && id in plan && k < |plan[id]|
    requires Reached(plan, links, from, blkSz, done, id, k, offset)
    ensures Reached(plan, links[id := links[id] + [Link(plan[id][k].start, offset)]], from, blkSz, done, id, k + 1,
                    RoundUp(offset + SizeOf(plan[id][k]), blkSz))
  {
    var m := plan[id];
    assert Flat(plan, id) + m[..k + 1] == Flat(plan, id) + m[..k] + [m[k]];
    EndNext(Flat(plan, id) + m[..k], m[k], from, blkSz);
    hide EndOf, Flat, RoundUp;
    var l := LinksAt(plan, id, from, blkSz);
    assert l[..k + 1] == l[..k] + [l[k]];
  }

  lemma {:induction false} ReachEnd(plan: Planetary, links: Links, from: nat, blkSz: nat, done: set<MedId>, id: MedId, offset: nat, b: nat)
    requires blkSz > 0 && done <= plan.Keys && id in plan && (forall jd :: jd in done ==> jd < b) && b <= id
    requires forall jd :: jd in plan && jd !in done ==> id <= jd
    requires Reached(plan, links, from, blkSz, done, id, |plan[id]|, offset)
    ensures DoneBelow(plan, links, from, blkSz, done + {id}, id + 1, offset)
  {
    assert plan[id][..|plan[id]|] == plan[id] == Area(plan, id);
    var l := LinksAt(plan, id, from, blkSz);
    assert l[..|l|] == l;
    hide EndOf;
  }

  /** `writeFiles`: all charts, medium by medium, range by range. */
  method WriteFiles(plan: Planetary, out: Planner, blkSz: nat, ghost media: Media) returns (colonies: Colonies)
    requires out.Valid() && blkSz > 0 && Ordered(plan)
    modifies out`extlist, out`offset
    ensures out.Valid() && colonies.areaOffset == old(out.offset) <= out.offset && old(out.extlist) <= out.extlist
    ensures colonies.plan == LinksOf(plan, old(out.offset), blkSz) && EndsAll(plan, old(out.offset), blkSz, out.offset)
    ensures old(out.offset) % blkSz == 0 ==> out.offset % blkSz == 0
    ensures colonies.plan.Keys == plan.Keys && forall id :: id in plan ==> |colonies.plan[id]| == |plan[id]|
    ensures Settled(media, Burnt(media, out.extlist), plan, colonies.plan, old(out.offset), out.offset, blkSz)
    ensures GapsZero(Burnt(media, out.extlist), plan, colonies.plan, old(out.offset), out.offset)
  {
    hide *;
    assert Settled(media, Burnt(media, out.extlist), plan, map[], out.offset, out.offset, blkSz) by { SettleNone(media, Burnt(media, out.extlist), plan, out.offset, blkSz); }
    out.ListedLength(media);
    NoGaps(Burnt(media, out.extlist), plan);
    var from := out.offset;
    var links: Links := map[];
    var todo := plan.Keys;
    ghost var b: nat := 0;
    assert DoneBelow(plan, links, from, blkSz, plan.Keys - todo, b, out.offset) by { NothingDone(plan, from, blkSz); }
    while todo != {}
      invariant out.Valid() && from <= out.offset && (from % blkSz == 0 ==> out.offset % blkSz == 0)
      invariant old(out.extlist) <= out.extlist
      invariant todo <= plan.Keys && links.Keys == plan.Keys - todo
      invariant forall id :: id in links ==> |links[id]| == |plan[id]|
      invariant DoneBelow(plan, links, from, blkSz, plan.Keys - todo, b, out.offset)
      invariant Settled(media, Burnt(media, out.extlist), plan, links, from, out.offset, blkSz)
      invariant GapsZero(Burnt(media, out.extlist), plan, links, from, out.offset)
      decreases todo
    {
      var id := Least(todo);
      ghost var done := plan.Keys - todo;
      DoneBounds(plan, links, from, blkSz, done, b, out.offset);
      ReachStart(plan, links, from, blkSz, done, b, out.offset, id);
      todo := todo - {id};
      SettleEmpty(media, Burnt(media, out.extlist), plan, links, from, out.offset, blkSz, id);
      GapsEmpty(Burnt(media, out.extlist), plan, links, from, out.offset, id);
      links := links[id := []];
      for k := 0 to |plan[id]|
        invariant out.Valid() && from <= out.offset && (from % blkSz == 0 ==> out.offset % blkSz == 0)
        invariant old(out.extlist) <= out.extlist
        invariant links.Keys == plan.Keys - todo && |links[id]| == k
        invariant forall jd :: jd in links && jd != id ==> |links[jd]| == |plan[jd]|
        invariant Reached(plan, links, from, blkSz, done, id, k, out.offset)
        invariant Settled(media, Burnt(media, out.extlist), plan, links, from, out.offset, blkSz)
        invariant GapsZero(Burnt(media, out.extlist), plan, links, from, out.offset)
      {
        out.ListedLength(media);
        ghost var image, to := Burnt(media, out.extlist), out.offset;
        NextEnd(plan, id, k, to, blkSz);
        ReachNext(plan, links, from, blkSz, done, id, k, to);
        var l, more := WriteRange(out, blkSz, id, plan[id][k], media);
        SettleNext(media, image, more, plan, links, from, to, out.offset, blkSz, id, l);
        GapsNext(image, more, plan, links, from, id, l);
        links := links[id := links[id] + [l]];
      }
      ReachEnd(plan, links, from, blkSz, done, id, out.offset, b);
      b := id + 1;
      assert plan.Keys - todo == done + {id};
    }
    AllDone(plan, links, from, blkSz, plan.Keys - todo, b, out.offset);
    colonies := Colonies(from, links);
  }

  lemma {:induction false} NextEnd(plan: Planetary, id: MedId, k: nat, to: nat, blkSz: nat)
    requires Ordered(plan) && id in plan && k < |plan[id]| && blkSz > 0
    ensures var s := plan[id][k]; s.start <= s.end && SizeOf(s) == s.end - s.start
    ensures var end := RoundUp(to + SizeOf(plan[id][k]), blkSz); to + SizeOf(plan[id][k]) <= end && end % blkSz == 0
  {
    RoundUpBounds(to + SizeOf(plan[id][k]), blkSz);
    RoundUpAligned(to + SizeOf(plan[id][k]), blkSz);
  }

  lemma {:induction false} NothingDone(plan: Planetary, from: nat, blkSz: nat)
    requires blkSz > 0
    ensures DoneBelow(plan, map[], from, blkSz, plan.Keys - plan.Keys, 0, from)
  {
  }

  lemma {:induction false} DoneBounds(plan: Planetary, links: Links, from: nat, blkSz: nat, done: set<MedId>, b: nat, offset: nat)
    requires blkSz > 0 && DoneBelow(plan, links, from, blkSz, done, b, offset)
    ensures forall id :: id in plan ==> (id in done <==> id < b)
  {
  }

  lemma {:induction false} AllDone(plan: Planetary, links: Links, from: nat, blkSz: nat, done: set<MedId>, b: nat, offset: nat)
    requires blkSz > 0 && DoneBelow(plan, links, from, blkSz, done, b, offset) && done == plan.Keys
    ensures links == LinksOf(plan, from, blkSz) && EndsAll(plan, from, blkSz, offset)
  {
    EndsSame(plan, from, blkSz, b);
    hide EndOf, Flat, EndsAll;
  }

  // ----- translating addresses -----

  /** How many entries start at or before an offset: the position of `upper_bound`. */
  function UpTo(links: seq<Link>, offset: nat): (n: nat)
    ensures n <= |links|
  {
    if links == [] || offset < links[0].start then 0 else 1 + UpTo(links[1..], offset)
  }

  /** `withinDisk`: by the last entry not above the offset. None where the original fails or reads
      before the first entry. */
  function WithinDisk(links: Links, id: MedId, offset: nat): Option<nat> {
    if id !in links || UpTo(links[id], offset) == 0 then None else
    var bridge := links[id][UpTo(links[id], offset) - 1];
    if bridge.start <= offset then Some(offset - bridge.start + bridge.target) else None
  }

  predicate Ascending(m: seq<Span>) {
    forall r, s :: 0 <= r < s < |m| ==> m[r].start < m[s].start
  }

  lemma {:induction false} UpToRange(m: seq<Span>, links: seq<Link>, offset: nat, r: nat)
    requires |links| == |m| && (forall k :: 0 <= k < |m| ==> links[k].start == m[k].start)
    requires Ascending(m) && r < |m| && m[r].start <= offset && (r + 1 < |m| ==> offset < m[r + 1].start)
    ensures UpTo(links, offset) == r + 1
  {
    assert links[0].start <= offset by { if r > 0 { assert m[0].start < m[r].start; } }
    if r > 0 {
      UpToRange(m[1..], links[1..], offset, r - 1);
    } else if |m| > 1 {
      assert links[1..][0] == links[1];
    }
  }

  lemma {:induction false} SpreadAscends(m: seq<Span>, tol: nat)
    requires Spread(m, tol)
    ensures Ascending(m)
  {
    forall r, s | 0 <= r < s < |m| ensures m[r].start < m[s].start { SpreadApart(m, tol, r, s); }
  }

  /** Range `r` of a chart holds a span, and is the last range that starts at or before it; all ranges
      start where original spans do. */
  predicate InRange(m: seq<Span>, t: seq<Span>, x: Span, r: nat) {
    && Ascending(m) && r < |m| && Within(x, m[r])
    && (r + 1 < |m| ==> x.start < m[r + 1].start)
    && forall k :: 0 <= k < |m| ==> m[k].start <= m[k].end && m[k].start in Starts(t)
  }

  /** Every charted extent lies within one range of its medium's chart, merged or not. */
  lemma {:induction false} PieceInRange(list: seq<Piece>, onDisk: MedId -> bool, gap: nat, i: nat) returns (r: nat)
    requires Chartable(list) && i < |list|
    ensures var plan, x := Optimized(AllCharted(map[], list), onDisk, gap), list[i];
            x.id in plan && InRange(plan[x.id], Area(AllCharted(map[], list), x.id), SpanOf(x), r)
  {
    var x := list[i];
    var t := Area(AllCharted(map[], list), x.id);
    ChartLists(list, x.id);
    ChartSeparate(list, x.id);
    SpanListed(list, i);
    var k: nat :| k < |t| && t[k] == SpanOf(x);
    hide InRange, Separate, Merged, AllCharted, Chartable;
    if onDisk(x.id) {
      r := RangeInMerged(t, gap, k);
    } else {
      RangeUnmerged(t, k);
      r := k;
    }
  }

  lemma {:induction false} RangeUnmerged(t: seq<Span>, k: nat)
    requires Sorted(t) && Separate(t) && k < |t|
    ensures InRange(t, t, t[k], k)
  {
    assert forall k :: 0 <= k < |t| ==> t[k] in t;
  }

  lemma {:induction false} RangeInMerged(t: seq<Span>, tol: nat, k: nat) returns (r: nat)
    requires Separate(t) && k < |t|
    ensures InRange(Merged(t, tol), t, t[k], r)
  {
    MergedIs(t, tol);
    r := RangeOf(t, tol, k);
    assert Placed(t, tol, Merged(t, tol), k);
    SpreadAscends(Merged(t, tol), tol);
  }

  /** The state a volume is in once its files are written. */
  predicate Laid(media: Media, image: Bytes, list: seq<Piece>, onDisk: MedId -> bool, gap: nat, links: Links,
                 from: nat, to: nat, blkSz: nat) {
    var plan := Optimized(AllCharted(map[], list), onDisk, gap);
    && blkSz > 0 && links.Keys == plan.Keys && (forall id :: id in plan ==> |links[id]| == |plan[id]|)
    && Settled(media, image, plan, links, from, to, blkSz)
  }

  /** The translated address of an extent: its range's place, plus how far into the range it is. */
  lemma {:induction false} Translated(media: Media, image: Bytes, list: seq<Piece>, onDisk: MedId -> bool, gap: nat, links: Links,
                                      from: nat, to: nat, blkSz: nat, i: nat) returns (r: nat)
    requires Chartable(list) && i < |list| && Laid(media, image, list, onDisk, gap, links, from, to, blkSz)
    ensures blkSz > 0
    ensures var plan, x := Optimized(AllCharted(map[], list), onDisk, gap), list[i];
            && x.id in plan && x.id in links && r < |plan[x.id]| == |links[x.id]|
            && Within(SpanOf(x), plan[x.id][r])
            && SettledAt(media, image, plan, links, from, to, blkSz, x.id, r)
            && WithinDisk(links, x.id, x.offset) == Some(x.offset - plan[x.id][r].start + links[x.id][r].target)
            && plan[x.id][r].start in Starts(Area(AllCharted(map[], list), x.id))
  {
    hide Landed, WithinDisk, Optimized, AllCharted, Chartable, Starts, Settled, SettledAt, Ascending;
    var x := list[i];
    r := PieceInRange(list, onDisk, gap, i);
    var plan: Planetary := Optimized(AllCharted(map[], list), onDisk, gap);
    SettledStarts(media, image, plan, links, from, to, blkSz, x.id);
    UpToRange(plan[x.id], links[x.id], x.offset, r);
    DiskOf(links, x.id, x.offset, r);
  }

  lemma {:induction false} SettledStarts(media: Media, image: Bytes, plan: Planetary, links: Links, from: nat, to: nat, blkSz: nat, id: MedId)
    requires blkSz > 0 && Settled(media, image, plan, links, from, to, blkSz) && id in links && id in plan && |links[id]| == |plan[id]|
    ensures forall k :: 0 <= k < |plan[id]| ==> links[id][k].start == plan[id][k].start
    ensures forall k :: 0 <= k < |plan[id]| ==> SettledAt(media, image, plan, links, from, to, blkSz, id, k)
  {
    hide Landed, ApartAt;
    forall k | 0 <= k < |plan[id]| ensures links[id][k].start == plan[id][k].start {
      assert SettledAt(media, image, plan, links, from, to, blkSz, id, k);
      LandedStart(media, image, id, plan[id][k], links[id][k]);
    }
  }

  lemma {:induction false} DiskOf(links: Links, id: MedId, offset: nat, r: nat)
    requires id in links && r < |links[id]| && UpTo(links[id], offset) == r + 1 && links[id][r].start <= offset
    ensures WithinDisk(links, id, offset) == Some(offset - links[id][r].start + links[id][r].target)
  {}

  lemma {:induction false} LandedStart(media: Media, image: Bytes, id: MedId, s: Span, l: Link)
    requires Landed(media, image, id, s, l)
    ensures l.start == s.start <= s.end
  {}

  /** The bytes at the translated address of an extent are the bytes of the extent. */
  lemma {:induction false} ContentPreserved(media: Media, image: Bytes, list: seq<Piece>, onDisk: MedId -> bool, gap: nat, links: Links,
                                            from: nat, to: nat, blkSz: nat, i: nat)
    requires Chartable(list) && i < |list| && Laid(media, image, list, onDisk, gap, links, from, to, blkSz)
    ensures var x := list[i];
            var w := WithinDisk(links, x.id, x.offset);
            && w.Some? && from <= w.value && w.value + x.length <= to && w.value + x.length <= |image|
            && image[w.value..w.value + x.length] == Content(media, Extent(x.offset, x.length, Medium(x.id)))
  {
    var x := list[i];
    var plan: Planetary := Optimized(AllCharted(map[], list), onDisk, gap);
    hide *;
    var r := Translated(media, image, list, onDisk, gap, links, from, to, blkSz, i);
    RangeSettled(media, image, plan, links, from, to, blkSz, x, r);
    var s, l := plan[x.id][r], links[x.id][r];
    LandedPart(media, image, x.id, s, l, x.offset, x.length);
    Whole(WithinDisk(links, x.id, x.offset), image, Content(media, Extent(x.offset, x.length, Medium(x.id))), from, to, l.target + (x.offset - s.start), x.length);
  }

  lemma {:induction false} Whole(w: Option<nat>, image: Bytes, bytes: Bytes, from: nat, to: nat, at: nat, length: nat)
    requires w == Some(at) && from <= at && at + length <= to && at + length <= |image| && image[at..at + length] == bytes
    ensures w.Some? && from <= w.value && w.value + length <= to && w.value + length <= |image| && image[w.value..w.value + length] == bytes
  {
  }

  lemma {:induction false} RangeSettled(media: Media, image: Bytes, plan: Planetary, links: Links, from: nat, to: nat, blkSz: nat, x: Piece, r: nat)
    requires blkSz > 0 && x.id in plan && x.id in links && r < |plan[x.id]| && r < |links[x.id]| && Within(SpanOf(x), plan[x.id][r])
    requires SettledAt(media, image, plan, links, from, to, blkSz, x.id, r)
    ensures var s, l := plan[x.id][r], links[x.id][r];
            && Landed(media, image, x.id, s, l) && s.start <= x.offset && x.offset + x.length <= s.end
            && from <= l.target && l.target + (s.end - s.start) <= to
  {
    hide Content;
  }

  /** Any part of a range is in the image as well. */
  lemma {:induction false} LandedPart(media: Media, image: Bytes, id: MedId, s: Span, l: Link, offset: nat, length: nat)
    requires Landed(media, image, id, s, l) && s.start <= offset && offset + length <= s.end
    ensures var w := l.target + (offset - s.start);
            w + length <= |image| && image[w..w + length] == Content(media, Extent(offset, length, Medium(id)))
  {
    var k := offset - s.start;
    var whole := image[l.target..l.target + (s.end - s.start)];
    assert whole == Content(media, Extent(s.start, s.end - s.start, Medium(id)));
    var part, want := image[l.target + k..l.target + k + length], Content(media, Extent(offset, length, Medium(id)));
    forall d | 0 <= d < length ensures part[d] == want[d] {
      assert part[d] == whole[k + d];
    }
    assert part == want;
  }

  /** Different source bytes go to different target bytes. */
  lemma {:induction false} NoSharing(media: Media, image: Bytes, list: seq<Piece>, onDisk: MedId -> bool, gap: nat, links: Links,
                                     from: nat, to: nat, blkSz: nat, i: nat, d: nat, j: nat, e: nat)
    requires Chartable(list) && i < |list| && j < |list| && d < list[i].length && e < list[j].length
    requires Laid(media, image, list, onDisk, gap, links, from, to, blkSz)
    ensures var x, y := list[i], list[j];
            var v, w := WithinDisk(links, x.id, x.offset), WithinDisk(links, y.id, y.offset);
            && v.Some? && w.Some?
            && (v.value + d == w.value + e ==> x.id == y.id && x.offset + d == y.offset + e)
  {
    var x, y := list[i], list[j];
    var plan: Planetary := Optimized(AllCharted(map[], list), onDisk, gap);
    var r := Translated(media, image, list, onDisk, gap, links, from, to, blkSz, i);
    var q := Translated(media, image, list, onDisk, gap, links, from, to, blkSz, j);
    assert x.id != y.id || r != q ==> ApartAt(plan, links, x.id, r, y.id, q);
  }

  /** Different extents are translated to ranges that do not overlap. */
  lemma {:induction false} PlacesApart(media: Media, image: Bytes, list: seq<Piece>, onDisk: MedId -> bool, gap: nat, links: Links,
                                       from: nat, to: nat, blkSz: nat, i: nat, j: nat)
    requires Chartable(list) && i < |list| && j < |list|
    requires list[i].id != list[j].id || list[i].offset != list[j].offset
    requires Laid(media, image, list, onDisk, gap, links, from, to, blkSz)
    ensures var x, y := list[i], list[j];
            var v, w := WithinDisk(links, x.id, x.offset), WithinDisk(links, y.id, y.offset);
            v.Some? && w.Some? && (v.value + x.length <= w.value || w.value + y.length <= v.value)
  {
    var x, y := list[i], list[j];
    var plan: Planetary := Optimized(AllCharted(map[], list), onDisk, gap);
    var r := Translated(media, image, list, onDisk, gap, links, from, to, blkSz, i);
    var q := Translated(media, image, list, onDisk, gap, links, from, to, blkSz, j);
    assert Compatible(x, y) || x.id != y.id;
    assert Compatible(y, x) || x.id != y.id;
    assert x.id != y.id || r != q ==> ApartAt(plan, links, x.id, r, y.id, q);
  }

  // ----- alignment -----

  function AllPieces(files: seq<seq<Piece>>): seq<Piece> {
    if files == [] then [] else AllPieces(files[..|files| - 1]) + files[|files| - 1]
  }

  function MaskAll(files: seq<seq<Piece>>): Word {
    if files == [] then {} else MaskAll(files[..|files| - 1]) + MaskOf(files[|files| - 1])
  }

  lemma {:induction false} PieceOrigin(files: seq<seq<Piece>>, k: nat) returns (f: nat, i: nat)
    requires k < |AllPieces(files)|
    ensures f < |files| && i < |files[f]| && AllPieces(files)[k] == files[f][i]
  {
    var init := files[..|files| - 1];
    if k < |AllPieces(init)| {
      f, i := PieceOrigin(init, k);
    } else {
      f, i := |init|, k - |AllPieces(init)|;
    }
  }

  lemma {:induction false} PiecePlace(files: seq<seq<Piece>>, f: nat, i: nat) returns (k: nat)
    requires f < |files| && i < |files[f]|
    ensures k < |AllPieces(files)| && AllPieces(files)[k] == files[f][i]
  {
    var init := files[..|files| - 1];
    if f < |init| {
      k := PiecePlace(init, f, i);
    } else {
      k := |AllPieces(init)| + i;
    }
  }

  lemma {:induction false} MaskAllHas(files: seq<seq<Piece>>, f: nat)
    requires f < |files|
    ensures MaskOf(files[f]) <= MaskAll(files)
  {
    if f < |files| - 1 { MaskAllHas(files[..|files| - 1], f); }
  }

  lemma {:induction false} MaskWidth(files: seq<seq<Piece>>)
    ensures MaskAll(files) <= Below(WIDTH)
  {
    if files != [] {
      MaskWidth(files[..|files| - 1]);
      MaskFirstWidth(files[|files| - 1], |files[|files| - 1]|);
    }
  }

  lemma {:induction false} MaskFirstWidth(file: seq<Piece>, k: nat)
    requires k <= |file|
    ensures MaskFirst(file, k) <= Below(WIDTH)
  {
    if k > 0 { MaskFirstWidth(file, k - 1); }
  }

  /** A block size within the granularity divides every offset, and every length that is not a file's last. */
  lemma {:induction false} SizeDivides(files: seq<seq<Piece>>, p: nat, f: nat, i: nat)
    requires p in Granularity(MaskAll(files)) && f < |files| && i < |files[f]|
    ensures files[f][i].offset % Pow2(p) == 0
    ensures i + 1 < |files[f]| ==> files[f][i].length % Pow2(p) == 0
  {
    hide Granularity;
    var x := files[f][i];
    assert p < WIDTH && p in Below(WIDTH) by { GranularityWidth(MaskAll(files), p); }
    MaskWidth(files);
    GranularityIs(MaskAll(files), p);
    MaskAllHas(files, f);
    MaskHas(files[f], |files[f]|, i);
    DividesBits(x.offset, p);
    DividesBits(x.length, p);
  }

  lemma {:induction false} GranularityWidth(mask: Word, p: nat)
    requires p in Granularity(mask)
    ensures p < WIDTH
  {}

  /** Every offset is a multiple of `d`, and every length that is not its file's last. */
  predicate AllMultiple(files: seq<seq<Piece>>, d: nat) {
    d > 0 && forall f, i :: 0 <= f < |files| && 0 <= i < |files[f]| ==> MultipleAt(files[f], i, d)
  }

  predicate MultipleAt(file: seq<Piece>, i: nat, d: nat)
    requires d > 0 && i < |file|
  {
    file[i].offset % d == 0 && (i + 1 < |file| ==> file[i].length % d == 0)
  }

  /** Every bit of the mask comes from an offset, or from a length that is not its file's last. */
  lemma {:induction false} MaskOrigin(file: seq<Piece>, k: nat, j: nat) returns (i: nat)
    requires k <= |file| && j in MaskFirst(file, k)
    ensures i < k && (j in Bits(file[i].offset) || (i + 1 < |file| && j in Bits(file[i].length)))
  {
    hide Bits;
    i := k - 1;
    if j in MaskFirst(file, k - 1) { i := MaskOrigin(file, k - 1, j); }
  }

  lemma {:induction false} MaskAllOrigin(files: seq<seq<Piece>>, j: nat) returns (f: nat, i: nat)
    requires j in MaskAll(files)
    ensures f < |files| && i < |files[f]|
    ensures j in Bits(files[f][i].offset) || (i + 1 < |files[f]| && j in Bits(files[f][i].length))
  {
    hide Bits, MaskFirst;
    var init := files[..|files| - 1];
    if j in MaskAll(init) {
      f, i := MaskAllOrigin(init, j);
    } else {
      f := |init|;
      i := MaskOrigin(files[f], |files[f]|, j);
    }
  }

  /** A power of two is granular enough for the tree exactly when it divides what it has to. */
  lemma {:induction false} GranularExactly(files: seq<seq<Piece>>, p: nat)
    requires p < WIDTH
    ensures Pow2(p) > 0 && (p in Granularity(MaskAll(files)) <==> AllMultiple(files, Pow2(p)))
  {
    hide Granularity, Bits, Pow2, MaskAll, MaskFirst;
    MaskWidth(files);
    GranularityIs(MaskAll(files), p);
    if p in Granularity(MaskAll(files)) {
      forall f, i | 0 <= f < |files| && 0 <= i < |files[f]| ensures MultipleAt(files[f], i, Pow2(p)) { SizeDivides(files, p, f, i); }
    }
    if AllMultiple(files, Pow2(p)) {
      forall j: nat | j in MaskAll(files) ensures p <= j {
        var f, i := MaskAllOrigin(files, j);
        assert MultipleAt(files[f], i, Pow2(p));
        DividesBits(files[f][i].offset, p);
        DividesBits(files[f][i].length, p);
      }
    }
  }

  /** A tree is refused exactly when some offset, or some length that is not its file's last, is no
      multiple of the smallest permitted size. */
  lemma {:induction false} RefusedExactly(files: seq<seq<Piece>>, sizeRange: Word, lo: nat, hi: nat, want: nat)
    requires Contiguous(sizeRange, lo, hi)
    ensures Adjust(Granularity(MaskAll(files)), sizeRange, want).TooGranular? <==> !AllMultiple(files, Pow2(lo))
  {
    hide Granularity, Value, Bits, Shl, Shr, Not, Pow2, MaskAll, AllMultiple;
    var g := Granularity(MaskAll(files));
    GranularExactly(files, lo);
    MaskWidth(files);
    if lo in g { assert lo in g * sizeRange; }
    if g * sizeRange != {} {
      var i := SomeBit(g * sizeRange);
      GranularityIs(MaskAll(files), i);
      GranularityIs(MaskAll(files), lo);
    }
  }

  /** Of the permitted powers of two that divide what they have to, the one nearest to the wanted one. */
  ghost predicate ChosenFor(files: seq<seq<Piece>>, lo: nat, hi: nat, w: nat, blkSz: nat) {
    exists p: nat :: blkSz == Pow2(p) && NearestFor(files, lo, hi, w, p)
  }

  predicate NearestFor(files: seq<seq<Piece>>, lo: nat, hi: nat, w: nat, p: nat) {
    && lo <= p <= hi && AllMultiple(files, Pow2(p))
    && (p < w ==> p == hi || !AllMultiple(files, Pow2(p + 1)))
    && (w < p ==> p == lo)
  }

  lemma {:induction false} ChosenExactly(files: seq<seq<Piece>>, sizeRange: Word, lo: nat, hi: nat, w: nat, blkSz: nat)
    requires Contiguous(sizeRange, lo, hi) && w < WIDTH
    requires Adjust(Granularity(MaskAll(files)), sizeRange, Pow2(w)) == Adjusted.Size(blkSz)
    ensures ChosenFor(files, lo, hi, w, blkSz)
  {
    hide Granularity, Value, Bits, Shl, Shr, Not, Pow2, MaskAll, AllMultiple, Adjust;
    MaskWidth(files);
    AdjustChooses(MaskAll(files), sizeRange, lo, hi, w);
    var p: nat :| blkSz == Pow2(p) && Nearest(Granularity(MaskAll(files)), lo, hi, w, p);
    GranularExactly(files, p);
    if p + 1 <= hi { GranularExactly(files, p + 1); }
    assert NearestFor(files, lo, hi, w, p);
  }

  /** With all offsets block multiples and an aligned file area, so is every translated address. */
  lemma {:induction false} TranslatedAligned(media: Media, image: Bytes, list: seq<Piece>, onDisk: MedId -> bool, gap: nat, links: Links,
                                             from: nat, to: nat, outBlk: nat, i: nat, blkSz: nat)
    requires Chartable(list) && i < |list| && Laid(media, image, list, onDisk, gap, links, from, to, outBlk)
    requires blkSz > 0 && outBlk % blkSz == 0 && from % outBlk == 0
    requires forall k :: 0 <= k < |list| ==> list[k].offset % blkSz == 0
    ensures var w := WithinDisk(links, list[i].id, list[i].offset);
            w.Some? && w.value >= from && w.value % blkSz == 0 && (w.value - from) % blkSz == 0
  {
    hide Optimized, AllCharted, Chartable, Settled, Landed, Area;
    var x := list[i];
    var plan: Planetary := Optimized(AllCharted(map[], list), onDisk, gap);
    var r := Translated(media, image, list, onDisk, gap, links, from, to, outBlk, i);
    var start, target := plan[x.id][r].start, links[x.id][r].target;
    StartAligned(list, x.id, start, blkSz);
    MultipleOfMultiple(target, outBlk, blkSz);
    MultipleOfMultiple(from, outBlk, blkSz);
    Multiple(x.offset, start, blkSz);
    Multiple(x.offset - start, target, blkSz);
    Multiple(x.offset - start + target, from, blkSz);
  }

  lemma {:induction false} StartAligned(list: seq<Piece>, id: MedId, start: nat, blkSz: nat)
    requires Chartable(list) && blkSz > 0 && start in Starts(Area(AllCharted(map[], list), id))
    requires forall k :: 0 <= k < |list| ==> list[k].offset % blkSz == 0
    ensures start % blkSz == 0
  {
    hide AllCharted, Chartable;
    ChartLists(list, id);
    var s :| s in Area(AllCharted(map[], list), id) && s.start == start;
    var k := SpanOrigin(list, id, s);
  }

  // ----- the volume -----

  datatype Outcome = Refused | Burned(image: Bytes, colonies: Colonies, blkSz: nat, outBlk: nat, to: nat)

  lemma {:induction false} SettledMore(media: Media, image: Bytes, more: Bytes, plan: Planetary, links: Links, from: nat, to: nat, blkSz: nat)
    requires blkSz > 0 && Settled(media, image, plan, links, from, to, blkSz)
    ensures Settled(media, image + more, plan, links, from, to, blkSz)
  {
    hide Landed;
    forall id, k | id in links && 0 <= k < |links[id]| ensures SettledAt(media, image + more, plan, links, from, to, blkSz, id, k) {
      assert SettledAt(media, image, plan, links, from, to, blkSz, id, k);
      LandedMore(media, image, more, id, plan[id][k], links[id][k]);
    }
  }

  method AppendAll(out: Planner, list: seq<Extent>)
    requires out.Valid() && Positive(list)
    modifies out`extlist, out`offset
    ensures out.Valid() && out.extlist == old(out.extlist) + list
  {
    for i := 0 to |list|
      invariant out.Valid() && out.extlist == old(out.extlist) + list[..i]
    {
      var _, _ := out.Append(list[i]);
    }
  }

  lemma {:induction false} ChartsOrdered(list: seq<Piece>, onDisk: MedId -> bool, gap: nat)
    requires Chartable(list)
    ensures Ordered(Optimized(AllCharted(map[], list), onDisk, gap))
  {
    var charted := AllCharted(map[], list);
    forall id | id in charted ensures Separate(charted[id]) && Spread(Merged(charted[id], gap), gap) {
      ChartSeparate(list, id);
      MergedIs(charted[id], gap);
    }
  }

  /** The source tree: every file charted in turn. */
  method ChartTree(files: seq<seq<Piece>>, onDisk: MedId -> bool, gap: nat) returns (tree: Geometry)
    ensures fresh(tree) && tree.onDisk == onDisk && tree.gap == gap
    ensures tree.plan == AllCharted(map[], AllPieces(files)) && tree.mask == MaskAll(files)
  {
    tree := new Geometry(onDisk, gap);
    for f := 0 to |files|
      invariant tree.plan == AllCharted(map[], AllPieces(files[..f])) && tree.mask == MaskAll(files[..f])
    {
      assert files[..f + 1][..f] == files[..f];
      ChartMore(map[], AllPieces(files[..f]), files[f]);
      tree.Chart(files[f]);
    }
    assert files[..|files|] == files;
  }

  /** The block size, and the charts merged for it. */
  method Prepare(files: seq<seq<Piece>>, onDisk: MedId -> bool, gap: nat, sizeRange: Word, want: nat)
    returns (plan: Planetary, adjusted: Adjusted)
    requires Chartable(AllPieces(files))
    ensures adjusted == Adjust(Granularity(MaskAll(files)), sizeRange, want)
    ensures adjusted.Size? ==> plan == Optimized(AllCharted(map[], AllPieces(files)), onDisk, gap) && Ordered(plan)
  {
    hide Chartable, Adjust, Granularity, AllCharted, Optimized;
    var tree := ChartTree(files, onDisk, gap);
    adjusted := Adjust(Granularity(tree.mask), sizeRange, want);
    if adjusted.TooGranular? { return map[], adjusted; }
    tree.Optimize();
    ChartsOrdered(AllPieces(files), onDisk, gap);
    plan := tree.plan;
  }

  /** No range ends before it starts. */
  predicate Ordered(plan: Planetary) {
    forall id :: id in plan ==> forall k :: 0 <= k < |plan[id]| ==> plan[id][k].start <= plan[id][k].end
  }

  /** Where the files begin: after the headers, padded to a block or not. */
  function AreaStart(head: seq<Extent>, padHead: bool, block: nat): nat
    requires Positive(head) && block > 0
  {
    LengthNat(head);
    if padHead then RoundUp(Length(head), block) else Length(head)
  }

  /** The area begins right behind headers that are not padded, and otherwise on the first block. Padded
      headers, and headers of whole blocks, leave it aligned. */
  lemma {:induction false} AreaAligned(head: seq<Extent>, padHead: bool, block: nat)
    requires Positive(head) && block > 0
    ensures padHead || Length(head) % block == 0 ==> AreaStart(head, padHead, block) % block == 0
    ensures Length(head) <= AreaStart(head, padHead, block) < Length(head) + block
    ensures !padHead ==> AreaStart(head, padHead, block) == Length(head)
  {
    LengthNat(head);
    RoundUpAligned(Length(head), block);
    RoundUpBounds(Length(head), block);
  }

  lemma {:induction false} LengthNat(list: seq<Extent>)
    requires Positive(list)
    ensures Length(list) >= 0
  {
    if list != [] { LengthNat(list[..|list| - 1]); }
  }

  /** Headers, files and metadata, listed and then burnt. */
  method BurnAll(plan: Planetary, outBlk: nat, blkSz: nat, head: seq<Extent>, padHead: bool, tail: seq<Extent>, media: Media)
    returns (image: Bytes, colonies: Colonies, to: nat, block: nat)
    requires outBlk > 0 && Positive(head) && Positive(tail) && Ordered(plan)
    ensures block == Max(blkSz, outBlk) && block > 0 && colonies.areaOffset == AreaStart(head, padHead, block)
    ensures colonies.plan == LinksOf(plan, colonies.areaOffset, block)
    ensures colonies.plan.Keys == plan.Keys && forall id :: id in plan ==> |colonies.plan[id]| == |plan[id]|
    ensures Settled(media, image, plan, colonies.plan, colonies.areaOffset, to, block)
    ensures EndsAll(plan, colonies.areaOffset, block, to)
    ensures Framed(media, head, tail, image, plan, colonies.plan, colonies.areaOffset, to)
  {
    hide Settled, Burnt, LinksOf, EndsAll, GapsZero, Framed, Pads;
    var out := new Planner(outBlk);
    out.RequestBlockSize(blkSz);
    block := out.BlockSize();
    AppendAll(out, head);
    assert out.extlist == head by { assert [] + head == head; }
    assert out.offset == Length(head);
    NothingPadded(head);
    if padHead { var _ := out.PadTo(block); }
    ghost var first := out.extlist;
    FrontIs(media, head, first, out.offset);
    colonies := WriteFiles(plan, out, block, media);
    to := out.offset;
    out.ListedLength(media);
    ghost var listed := out.extlist;
    AppendAll(out, tail);
    ghost var all := out.extlist;
    BurntConcat(media, listed, tail);
    SettledMore(media, Burnt(media, listed), Burnt(media, tail), plan, colonies.plan, colonies.areaOffset, to, block);
    FrameIs(media, head, first, listed, tail, plan, colonies.plan, colonies.areaOffset, to);
    var burner := new VectBurner();
    out.Commit(burner, media);
    image := burner.bytes;
    assert image == [] + Burnt(media, all) == Burnt(media, listed) + Burnt(media, tail);
  }

  /** What surrounds the files: the headers at the beginning, zeros up to the file area and between the
      ranges, and the metadata right behind the area, with which the image ends. */
  ghost predicate Framed(media: Media, head: seq<Extent>, tail: seq<Extent>, image: Bytes, plan: Planetary, links: Links, from: nat, to: nat) {
    && Begins(media, head, image, from) && from <= to <= |image| && image[to..] == Burnt(media, tail)
    && GapsZero(image, plan, links, from, to)
  }

  /** Headers at the beginning, and zeros behind them up to a place. */
  predicate Begins(media: Media, head: seq<Extent>, image: Bytes, at: nat) {
    && |Burnt(media, head)| <= at <= |image| && image[..|Burnt(media, head)|] == Burnt(media, head)
    && forall a :: |Burnt(media, head)| <= a < at ==> image[a] == 0
  }

  lemma {:induction false} FrontIs(media: Media, head: seq<Extent>, first: seq<Extent>, from: nat)
    requires Positive(head) && Positive(first) && from == Length(first) && from >= Length(head) && first == head + Pads(from - Length(head))
    ensures |Burnt(media, first)| == from && Begins(media, head, Burnt(media, first), from)
  {
    hide Burnt, Pads, Positive, Length;
    BurntLength(media, head);
    BurntLength(media, first);
    BurntPads(media, head, from - Length(head));
  }

  lemma {:induction false} NothingPadded(list: seq<Extent>)
    ensures list + Pads(0) == list
  {
  }

  lemma {:induction false} FrameIs(media: Media, head: seq<Extent>, first: seq<Extent>, listed: seq<Extent>, tail: seq<Extent>, plan: Planetary,
                                   links: Links, from: nat, to: nat)
    requires |Burnt(media, first)| == from && Begins(media, head, Burnt(media, first), from)
    requires first <= listed && |Burnt(media, listed)| == to && from <= to
    requires GapsZero(Burnt(media, listed), plan, links, from, to)
    ensures Framed(media, head, tail, Burnt(media, listed) + Burnt(media, tail), plan, links, from, to)
  {
    hide Burnt, GapsZero, Begins, LinksOf;
    GapsKept(Burnt(media, listed), Burnt(media, tail), plan, links, from, to);
    var more := listed[|first|..];
    assert listed == first + more;
    BurntConcat(media, first, more);
    BeginsMore(media, head, Burnt(media, first), Burnt(media, more), from);
    BeginsMore(media, head, Burnt(media, listed), Burnt(media, tail), from);
    Behind(Burnt(media, listed), Burnt(media, tail));
  }

  lemma {:induction false} Behind(a: Bytes, b: Bytes)
    ensures (a + b)[|a|..] == b
  {
  }

  lemma {:induction false} BeginsMore(media: Media, head: seq<Extent>, image: Bytes, more: Bytes, at: nat)
    requires Begins(media, head, image, at)
    ensures Begins(media, head, image + more, at)
  {
    var n := |Burnt(media, head)|;
    assert (image + more)[..n] == image[..n];
  }

  /** `represent`: chart the files, choose the block size, merge the charts, append whatever headers the
      file system wants (padded to a block or not), the files, and whatever metadata comes after them;
      then burn it all. */
  method Represent(files: seq<seq<Piece>>, onDisk: MedId -> bool, gap: nat, sizeRange: Word, own: nat, outBlk: nat, tmpBlk: nat,
                   page: nat, head: seq<Extent>, padHead: bool, tail: seq<Extent>, media: Media) returns (v: Outcome)
    requires Chartable(AllPieces(files)) && outBlk > 0 && Positive(head) && Positive(tail)
    ensures Adjust(Granularity(MaskAll(files)), sizeRange, Want(own, outBlk, tmpBlk, page))
         == if v.Refused? then TooGranular else Adjusted.Size(v.blkSz)
    ensures forall lo, hi :: Contiguous(sizeRange, lo, hi) ==> (v.Refused? <==> !AllMultiple(files, Pow2(lo)))
    ensures forall lo, hi, w: nat :: Contiguous(sizeRange, lo, hi) && w < WIDTH && Want(own, outBlk, tmpBlk, page) == Pow2(w) && v.Burned? ==>
              ChosenFor(files, lo, hi, w, v.blkSz)
    ensures v.Burned? ==> v.outBlk == Max(v.blkSz, outBlk) && v.outBlk > 0
    ensures v.Burned? ==> v.colonies.areaOffset == AreaStart(head, padHead, v.outBlk)
    ensures v.Burned? ==> Represented(files, onDisk, gap, media, v) && FramedIn(files, onDisk, gap, media, head, tail, v)
  {
    ChoiceExact(files, sizeRange, Want(own, outBlk, tmpBlk, page));
    hide Settled, LinksOf, Chartable, Adjust, Want, Granularity, AreaStart, Length, Positive, AllCharted, Optimized, Ordered, EndsAll, Framed;
    hide AllMultiple, ChosenFor, Contiguous, MaskAll, Pow2;
    var plan, adjusted := Prepare(files, onDisk, gap, sizeRange, Want(own, outBlk, tmpBlk, page));
    if adjusted.TooGranular? { return Refused; }
    var image, colonies, to, block := BurnAll(plan, outBlk, adjusted.blkSz, head, padHead, tail, media);
    v := Burned(image, colonies, adjusted.blkSz, block, to);
  }

  /** The whole image: what the layout puts where, and nothing else. */
  ghost predicate FramedIn(files: seq<seq<Piece>>, onDisk: MedId -> bool, gap: nat, media: Media, head: seq<Extent>, tail: seq<Extent>, v: Outcome) {
    && v.Burned? && v.outBlk > 0
    && var plan: Planetary := Optimized(AllCharted(map[], AllPieces(files)), onDisk, gap);
    && EndsAll(plan, v.colonies.areaOffset, v.outBlk, v.to)
    && Framed(media, head, tail, v.image, plan, v.colonies.plan, v.colonies.areaOffset, v.to)
  }

  lemma {:induction false} ChoiceExact(files: seq<seq<Piece>>, sizeRange: Word, want: nat)
    ensures var r := Adjust(Granularity(MaskAll(files)), sizeRange, want);
            && (forall lo, hi :: Contiguous(sizeRange, lo, hi) ==> (r.TooGranular? <==> !AllMultiple(files, Pow2(lo))))
            && (forall lo, hi, w: nat :: Contiguous(sizeRange, lo, hi) && w < WIDTH && want == Pow2(w) && r.Size? ==>
                  ChosenFor(files, lo, hi, w, r.blkSz))
  {
    hide Adjust, Granularity, MaskAll, AllMultiple, Contiguous, ChosenFor, Pow2;
    var r := Adjust(Granularity(MaskAll(files)), sizeRange, want);
    forall lo, hi | Contiguous(sizeRange, lo, hi) ensures r.TooGranular? <==> !AllMultiple(files, Pow2(lo)) {
      RefusedExactly(files, sizeRange, lo, hi, want);
    }
    forall lo, hi, w: nat | Contiguous(sizeRange, lo, hi) && w < WIDTH && want == Pow2(w) && r.Size? ensures ChosenFor(files, lo, hi, w, r.blkSz) {
      ChosenExactly(files, sizeRange, lo, hi, w, r.blkSz);
    }
  }

  /** The files are in the image where the layout puts them. */
  predicate Represented(files: seq<seq<Piece>>, onDisk: MedId -> bool, gap: nat, media: Media, v: Outcome) {
    && v.Burned? && v.outBlk > 0
    && Laid(media, v.image, AllPieces(files), onDisk, gap, v.colonies.plan, v.colonies.areaOffset, v.to, v.outBlk)
    && v.colonies.plan == LinksOf(Optimized(AllCharted(map[], AllPieces(files)), onDisk, gap), v.colonies.areaOffset, v.outBlk)
  }

  /** They are laid out in any smaller block as well, if the area begins on one. */
  lemma {:induction false} LaidFor(files: seq<seq<Piece>>, onDisk: MedId -> bool, gap: nat, media: Media, v: Outcome, unit: nat)
    requires Represented(files, onDisk, gap, media, v) && Divides(unit, v.outBlk)
    ensures Laid(media, v.image, AllPieces(files), onDisk, gap, v.colonies.plan, v.colonies.areaOffset, v.to, unit)
  {
    var plan: Planetary := Optimized(AllCharted(map[], AllPieces(files)), onDisk, gap);
    hide Optimized, AllCharted, Landed, EndOf, Flat;
    var links, from, to := v.colonies.plan, v.colonies.areaOffset, v.to;
    forall id, k | id in links && 0 <= k < |links[id]| ensures SettledAt(media, v.image, plan, links, from, to, unit, id, k) {
      assert SettledAt(media, v.image, plan, links, from, to, v.outBlk, id, k);
      if Divides(unit, from) { EndAligned(Flat(plan, id) + plan[id][..k], from, v.outBlk, unit); }
    }
  }

  lemma {:induction false} Pow2Divides(a: nat, b: nat)
    requires a <= b
    ensures Pow2(b) % Pow2(a) == 0
  {
    Pow2Sum(b - a, a);
    Quotient(Pow2(b - a), 0, Pow2(a));
  }

  /** The size chosen is permitted, and divides every charted offset and the block of the burner. */
  lemma {:induction false} SizeChosen(files: seq<seq<Piece>>, sizeRange: Word, lo: nat, hi: nat, w: nat, o: nat, v: Outcome) returns (p: nat)
    requires Contiguous(sizeRange, lo, hi) && w < WIDTH && v.Burned?
    requires Adjust(Granularity(MaskAll(files)), sizeRange, Pow2(w)) == Adjusted.Size(v.blkSz)
    requires v.outBlk == Max(v.blkSz, Pow2(o))
    ensures lo <= p <= hi && v.blkSz == Pow2(p) && p in Granularity(MaskAll(files)) && v.outBlk % v.blkSz == 0
    ensures forall k :: 0 <= k < |AllPieces(files)| ==> AllPieces(files)[k].offset % v.blkSz == 0
  {
    hide Adjust, Granularity, Contiguous, MaskAll, AllPieces, Pow2, Max;
    MaskWidth(files);
    AdjustChooses(MaskAll(files), sizeRange, lo, hi, w);
    p :| v.blkSz == Pow2(p) && Nearest(Granularity(MaskAll(files)), lo, hi, w, p);
    AllDivide(files, lo, hi, w, p);
    LargerDivides(p, o);
  }

  lemma {:induction false} LargerDivides(p: nat, o: nat)
    ensures Pow2(p) > 0 && Max(Pow2(p), Pow2(o)) % Pow2(p) == 0
  {
    if p <= o { Pow2Divides(p, o); } else { Pow2Grows(o, p); }
    Quotient(1, 0, Pow2(p));
  }

  /** The chosen size divides every charted offset. */
  lemma {:induction false} AllDivide(files: seq<seq<Piece>>, lo: nat, hi: nat, w: nat, p: nat)
    requires Nearest(Granularity(MaskAll(files)), lo, hi, w, p) && w < WIDTH
    ensures Pow2(p) > 0 && forall k :: 0 <= k < |AllPieces(files)| ==> AllPieces(files)[k].offset % Pow2(p) == 0
  {
    var list := AllPieces(files);
    forall k | 0 <= k < |list| ensures list[k].offset % Pow2(p) == 0 {
      var g, j := PieceOrigin(files, k);
      SizeDivides(files, p, g, j);
    }
  }

  ghost predicate Permitted(blkSz: nat, lo: nat, hi: nat) {
    blkSz > 0 && exists p: nat :: lo <= p <= hi && blkSz == Pow2(p)
  }

  /** An extent of a file is found at a multiple of the block size, byte for byte. */
  predicate FoundAt(x: Piece, v: Outcome, media: Media)
    requires v.Burned? && v.blkSz > 0
  {
    var at := WithinDisk(v.colonies.plan, x.id, x.offset);
    && at.Some? && at.value % v.blkSz == 0 && at.value + x.length <= |v.image|
    && v.image[at.value..at.value + x.length] == Content(media, Extent(x.offset, x.length, Medium(x.id)))
  }

  /** What a volume promises for every file, given a power of two wanted and a burner with such blocks:
      a permitted block size, and each extent of the file found at an address that is a multiple of it,
      byte for byte, with every length but the last a multiple too. */
  lemma {:induction false} FileRepresented(files: seq<seq<Piece>>, onDisk: MedId -> bool, gap: nat, sizeRange: Word, lo: nat, hi: nat,
                                           w: nat, o: nat, v: Outcome, media: Media, f: nat, i: nat)
    requires Chartable(AllPieces(files)) && Contiguous(sizeRange, lo, hi) && w < WIDTH && v.Burned?
    requires Adjust(Granularity(MaskAll(files)), sizeRange, Pow2(w)) == Adjusted.Size(v.blkSz)
    requires v.outBlk == Max(v.blkSz, Pow2(o)) && Divides(v.blkSz, v.colonies.areaOffset)
    requires Represented(files, onDisk, gap, media, v)
    requires f < |files| && i < |files[f]|
    ensures Permitted(v.blkSz, lo, hi) && FoundAt(files[f][i], v, media)
    ensures i + 1 < |files[f]| ==> files[f][i].length % v.blkSz == 0
  {
    hide Adjust, Granularity, Chartable, Laid, Represented, Contiguous, Content, WithinDisk, Max, Pow2;
    var p := SizeChosen(files, sizeRange, lo, hi, w, o, v);
    assert Permitted(v.blkSz, lo, hi);
    SizeDivides(files, p, f, i);
    hide Permitted, MaskAll;
    var k := PiecePlace(files, f, i);
    hide AllPieces;
    LaidFor(files, onDisk, gap, media, v, v.blkSz);
    ContentPreserved(media, v.image, AllPieces(files), onDisk, gap, v.colonies.plan, v.colonies.areaOffset, v.to, v.blkSz, k);
    assert v.blkSz % v.blkSz == 0 by { Quotient(1, 0, v.blkSz); }
    TranslatedAligned(media, v.image, AllPieces(files), onDisk, gap, v.colonies.plan, v.colonies.areaOffset, v.to, v.blkSz, k, v.blkSz);
  }
}
