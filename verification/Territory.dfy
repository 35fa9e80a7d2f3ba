/** Charts of source media: which byte ranges the files occupy, and how ranges are merged. */
module Territory {

  /** One entry of a chart: start and end of an occupied range. */
  datatype Span = Span(start: nat, end: nat)

  /** A chart in its iteration order: starts strictly increasing. */
  predicate Sorted(t: seq<Span>) {
    forall i, j :: 0 <= i < j < |t| ==> t[i].start < t[j].start
  }

  /** The promise made about charts: an entry ends before the next one starts. */
  predicate Separate(t: seq<Span>) {
    && (forall i :: 0 <= i < |t| ==> t[i].start <= t[i].end)
    && (forall i, j :: 0 <= i < j < |t| ==> t[i].end <= t[j].start)
  }

  /** Entering a range; an entry with the same start is replaced. */
  function Inserted(t: seq<Span>, s: Span): seq<Span> {
    if t == [] || s.start < t[0].start then [s] + t
    else if s.start == t[0].start then [s] + t[1..]
    else [t[0]] + Inserted(t[1..], s)
  }

  predicate AllAfter(t: seq<Span>, start: nat) {
    forall x :: x in t ==> start < x.start
  }

  lemma {:induction false} SortedMore(s: Span, t: seq<Span>)
    requires Sorted(t) && AllAfter(t, s.start)
    ensures Sorted([s] + t)
  {
  }

  lemma {:induction false} SortedRest(t: seq<Span>)
    requires Sorted(t) && t != []
    ensures t == [t[0]] + t[1..] && Sorted(t[1..]) && AllAfter(t[1..], t[0].start)
  {
  }

  lemma {:induction false} InsertedIs(t: seq<Span>, s: Span)
    requires Sorted(t)
    ensures Sorted(Inserted(t, s))
    ensures forall x :: x in Inserted(t, s) <==> x == s || (x in t && x.start != s.start)
  {
    if t != [] {
      SortedRest(t);
      var first, rest := t[0], t[1..];
      hide Sorted;
      if first.start < s.start {
        InsertedIs(rest, s);
        SortedMore(first, Inserted(rest, s));
      } else {
        SortedMore(s, if s.start == first.start then rest else t);
      }
    }
  }

  // ----- merging -----

  /** Joining neighbours across gaps of at most the tolerance, from the first entry on. */
  function Merged(t: seq<Span>, tol: nat): seq<Span>
    decreases |t|
  {
    if |t| <= 1 then t
    else if t[1].start <= t[0].end + tol then Merged([Span(t[0].start, t[1].end)] + t[2..], tol)
    else [t[0]] + Merged(t[1..], tol)
  }

  /** One more entry is joined to the one the loop stands at. */
  lemma {:induction false} MergedJoin(t: seq<Span>, itr: nat, tol: nat)
    requires itr + 1 < |t| && t[itr + 1].start <= t[itr].end + tol
    ensures var u := t[itr := Span(t[itr].start, t[itr + 1].end)];
            var v := u[..itr + 1] + u[itr + 2..];
            v[..itr] == t[..itr] && Merged(v[itr..], tol) == Merged(t[itr..], tol)
  {
    var u := t[itr := Span(t[itr].start, t[itr + 1].end)];
    var v := u[..itr + 1] + u[itr + 2..];
    var rest := t[itr..];
    assert rest[0] == t[itr] && rest[1] == t[itr + 1];
    assert v[itr..] == [Span(rest[0].start, rest[1].end)] + rest[2..];
  }

  /** The entry the loop stands at is finished. */
  lemma {:induction false} MergedStep(t: seq<Span>, itr: nat, tol: nat)
    requires itr < |t| && (itr + 1 < |t| ==> t[itr + 1].start > t[itr].end + tol)
    ensures t[..itr] + Merged(t[itr..], tol) == t[..itr + 1] + Merged(t[itr + 1..], tol)
  {
    var rest := t[itr..];
    assert rest[1..] == t[itr + 1..];
    assert t[..itr + 1] == t[..itr] + [t[itr]];
    assert Merged(rest, tol) == [t[itr]] + Merged(rest[1..], tol) by {
      assert |rest| > 1 ==> rest[1] == t[itr + 1];
    }
  }

  lemma {:induction false} MergedNone(tol: nat)
    ensures Merged([], tol) == []
  {
  }

  /** `MergeExtents`: the loop, erasing joined entries as it goes. */
  method MergeExtents(extents: seq<Span>, tol: nat) returns (t: seq<Span>)
    ensures t == Merged(extents, tol)
  {
    hide Merged;
    t := extents;
    var itr := 0;
    assert t[..0] == [] && t[0..] == t;
    while itr < |t|
      invariant 0 <= itr <= |t|
      invariant Merged(extents, tol) == t[..itr] + Merged(t[itr..], tol)
      decreases |t| - itr
    {
      while itr + 1 < |t| && t[itr + 1].start <= t[itr].end + tol
        invariant 0 <= itr < |t|
        invariant Merged(extents, tol) == t[..itr] + Merged(t[itr..], tol)
        decreases |t|
      {
        MergedJoin(t, itr, tol);
        t := t[itr := Span(t[itr].start, t[itr + 1].end)];
        t := t[..itr + 1] + t[itr + 2..];
      }
      MergedStep(t, itr, tol);
      itr := itr + 1;
    }
    MergedNone(tol);
    assert t[..itr] == t && t[itr..] == [];
  }

  function Gap(t: seq<Span>, k: nat): int
    requires k + 1 < |t|
  {
    t[k + 1].start - t[k].end
  }

  /** How many gaps above the tolerance come before entry `k`: the range that entry ends up in. */
  function RangeOf(t: seq<Span>, tol: nat, k: nat): nat
    requires k < |t|
  {
    if k == 0 then 0 else RangeOf(t, tol, k - 1) + if Gap(t, k - 1) > tol then 1 else 0
  }

  predicate Within(s: Span, m: Span) {
    m.start <= s.start && s.end <= m.end
  }

  /** Ranges further apart than the tolerance. */
  predicate Spread(m: seq<Span>, tol: nat) {
    && (forall r :: 0 <= r < |m| ==> m[r].start <= m[r].end)
    && (forall r :: 0 <= r < |m| - 1 ==> m[r].end + tol < m[r + 1].start)
  }

  /** What merging does, entry by entry: the ranges are spread out, every entry lies within the range
      its number says, and the ranges start where entries start. */
  predicate MergesTo(t: seq<Span>, tol: nat, m: seq<Span>) {
    && Spread(m, tol)
    && (t == [] ==> m == [])
    && (t != [] ==> |m| == RangeOf(t, tol, |t| - 1) + 1 && m[0].start == t[0].start)
    && (forall k :: 0 <= k < |t| ==> Placed(t, tol, m, k))
    && (forall r :: 0 <= r < |m| ==> m[r].start in Starts(t))
  }

  predicate Placed(t: seq<Span>, tol: nat, m: seq<Span>, k: nat)
    requires k < |t|
  {
    RangeOf(t, tol, k) < |m| && Within(t[k], m[RangeOf(t, tol, k)])
  }

  function Starts(t: seq<Span>): set<nat> {
    set s | s in t :: s.start
  }

  function Joined(t: seq<Span>): seq<Span>
    requires |t| >= 2
  {
    [Span(t[0].start, t[1].end)] + t[2..]
  }

  lemma {:induction false} RangeOfJoined(t: seq<Span>, tol: nat, k: nat)
    requires |t| >= 2 && Gap(t, 0) <= tol && k + 1 < |t|
    ensures RangeOf(Joined(t), tol, k) == RangeOf(t, tol, k + 1)
  {
    if k > 0 {
      RangeOfJoined(t, tol, k - 1);
      assert Gap(Joined(t), k - 1) == Gap(t, k);
    }
  }

  lemma {:induction false} RangeOfTail(t: seq<Span>, tol: nat, k: nat)
    requires |t| >= 2 && Gap(t, 0) > tol && k + 1 < |t|
    ensures RangeOf(t[1..], tol, k) + 1 == RangeOf(t, tol, k + 1)
  {
    if k > 0 {
      RangeOfTail(t, tol, k - 1);
      assert Gap(t[1..], k - 1) == Gap(t, k);
    }
  }

  lemma {:induction false} MergedIs(t: seq<Span>, tol: nat)
    requires Separate(t)
    ensures MergesTo(t, tol, Merged(t, tol))
    decreases |t|
  {
    if |t| >= 2 {
      if Gap(t, 0) <= tol {
        MergedIs(Joined(t), tol);
        JoinStep(t, tol, Merged(t, tol));
      } else {
        MergedIs(t[1..], tol);
        BreakStep(t, tol, Merged(t[1..], tol));
      }
    } else if |t| == 1 {
      assert RangeOf(t, tol, 0) == 0;
    }
  }

  lemma {:induction false} JoinStep(t: seq<Span>, tol: nat, m: seq<Span>)
    requires |t| >= 2 && Separate(t) && Gap(t, 0) <= tol
    requires MergesTo(Joined(t), tol, m)
    ensures MergesTo(t, tol, m)
  {
    assert t[0].start <= t[0].end <= t[1].start <= t[1].end;
    hide Separate, Spread, RangeOf;
    RangeOfJoined(t, tol, |t| - 2);
    forall k | 0 <= k < |t| ensures Placed(t, tol, m, k) {
      JoinPlaced(t, tol, m, k);
    }
    assert Starts(Joined(t)) <= Starts(t) by {
      assert t[0] in t;
      assert forall x :: x in t[2..] ==> x in t;
    }
  }

  lemma {:induction false} JoinPlaced(t: seq<Span>, tol: nat, m: seq<Span>, k: nat)
    requires |t| >= 2 && Gap(t, 0) <= tol && k < |t|
    requires t[0].start <= t[1].start && t[0].end <= t[1].end
    requires Placed(Joined(t), tol, m, if k <= 1 then 0 else k - 1)
    ensures Placed(t, tol, m, k)
  {
    if k > 0 { RangeOfJoined(t, tol, k - 1); }
  }

  lemma {:induction false} BreakStep(t: seq<Span>, tol: nat, m: seq<Span>)
    requires |t| >= 2 && Separate(t) && Gap(t, 0) > tol
    requires MergesTo(t[1..], tol, m)
    ensures MergesTo(t, tol, [t[0]] + m)
  {
    hide RangeOf, Spread, Starts, Placed;
    var n := [t[0]] + m;
    RangeOfTail(t, tol, |t| - 2);
    BreakSpread(t, tol, m);
    BreakStarts(t, m);
    forall k | 0 <= k < |t| ensures Placed(t, tol, n, k) {
      BreakPlaced(t, tol, m, k);
    }
  }

  lemma {:induction false} BreakSpread(t: seq<Span>, tol: nat, m: seq<Span>)
    requires |t| >= 2 && Separate(t) && Gap(t, 0) > tol && Spread(m, tol) && m != [] && m[0].start == t[1].start
    ensures Spread([t[0]] + m, tol)
  {
    var n := [t[0]] + m;
    assert forall r :: 0 < r < |n| ==> n[r] == m[r - 1];
  }

  lemma {:induction false} BreakStarts(t: seq<Span>, m: seq<Span>)
    requires |t| >= 2 && forall r :: 0 <= r < |m| ==> m[r].start in Starts(t[1..])
    ensures forall r :: 0 <= r < |[t[0]] + m| ==> ([t[0]] + m)[r].start in Starts(t)
  {
    assert t == [t[0]] + t[1..];
    var n := [t[0]] + m;
    assert forall r :: 0 < r < |n| ==> n[r] == m[r - 1];
  }

  lemma {:induction false} BreakPlaced(t: seq<Span>, tol: nat, m: seq<Span>, k: nat)
    requires |t| >= 2 && Gap(t, 0) > tol && k < |t|
    requires k > 0 ==> Placed(t[1..], tol, m, k - 1)
    ensures Placed(t, tol, [t[0]] + m, k)
  {
    if k > 0 { RangeOfTail(t, tol, k - 1); }
  }

  lemma {:induction false} SpreadApart(m: seq<Span>, tol: nat, r: nat, s: nat)
    requires Spread(m, tol) && r < s < |m|
    ensures m[r].end + tol < m[s].start
  {
    if r + 1 < s { SpreadApart(m, tol, r, s - 1); }
  }

  lemma {:induction false} OneRange(m: seq<Span>, tol: nat, s: Span, p: nat, r: nat)
    requires Spread(m, tol) && p < |m| && r < |m| && s.start <= s.end
    requires Within(s, m[p]) && Within(s, m[r])
    ensures p == r
  {
    if p < r { SpreadApart(m, tol, p, r); }
    if r < p { SpreadApart(m, tol, r, p); }
  }

  /** Gaps above the tolerance between two entries. */
  lemma {:induction false} RangesDiffer(t: seq<Span>, tol: nat, i: nat, j: nat)
    requires i <= j < |t|
    ensures RangeOf(t, tol, i) <= RangeOf(t, tol, j)
    ensures RangeOf(t, tol, i) == RangeOf(t, tol, j) <==> forall k :: i <= k < j ==> Gap(t, k) <= tol
  {
    if i < j { RangesDiffer(t, tol, i, j - 1); }
  }

  /** Two entries share a merged range exactly when every gap between them is at most the tolerance. */
  lemma {:induction false} SharedRange(t: seq<Span>, tol: nat, i: nat, j: nat)
    requires Separate(t) && i <= j < |t|
    ensures (exists m :: m in Merged(t, tol) && Within(t[i], m) && Within(t[j], m))
       <==> forall k :: i <= k < j ==> Gap(t, k) <= tol
  {
    var m := Merged(t, tol);
    MergedIs(t, tol);
    RangesDiffer(t, tol, i, j);
    var p, q := RangeOf(t, tol, i), RangeOf(t, tol, j);
    hide RangeOf, Spread;
    assert Placed(t, tol, m, i) && Placed(t, tol, m, j) && m[p] in m;
    if x :| x in m && Within(t[i], x) && Within(t[j], x) {
      var r :| 0 <= r < |m| && m[r] == x;
      OneRange(m, tol, t[i], p, r);
      OneRange(m, tol, t[j], q, r);
    }
  }

  /** Merging again changes nothing. */
  lemma {:induction false} MergedAgain(t: seq<Span>, tol: nat)
    requires Separate(t)
    ensures Merged(Merged(t, tol), tol) == Merged(t, tol)
  {
    MergedIs(t, tol);
    SpreadStays(Merged(t, tol), tol);
  }

  lemma {:induction false} SpreadStays(m: seq<Span>, tol: nat)
    requires Spread(m, tol)
    ensures Merged(m, tol) == m
  {
    if |m| > 1 { SpreadStays(m[1..], tol); }
  }

  // ----- total length -----

  function TotalLength(t: seq<Span>): int {
    if t == [] then 0 else t[0].end - t[0].start + TotalLength(t[1..])
  }

  /** The gaps between entries from `k` on that merging absorbs. */
  function Absorbed(t: seq<Span>, tol: nat): int {
    if |t| <= 1 then 0 else (if Gap(t, 0) <= tol then Gap(t, 0) else 0) + Absorbed(t[1..], tol)
  }

  /** Joining the first two entries. */
  lemma {:induction false} LengthJoined(t: seq<Span>, tol: nat)
    requires |t| >= 2 && Gap(t, 0) <= tol
    ensures var u := Joined(t);
            && Merged(t, tol) == Merged(u, tol) && |u| == |t| - 1
            && TotalLength(u) == TotalLength(t) + Gap(t, 0) && Absorbed(t, tol) == Gap(t, 0) + Absorbed(u, tol)
  {
    var u := Joined(t);
    hide Merged;
    assert u[1..] == t[1..][1..] == t[2..];
    assert |t| > 2 ==> Gap(u, 0) == Gap(t[1..], 0);
    assert Merged(t, tol) == Merged(u, tol) by { MergedTop(t, tol); }
  }

  /** Setting the first entry apart. */
  lemma {:induction false} LengthApart(t: seq<Span>, tol: nat)
    requires |t| >= 2 && Gap(t, 0) > tol
    ensures var m, rest := Merged(t, tol), Merged(t[1..], tol);
            && |m| == |rest| + 1 && TotalLength(m) == t[0].end - t[0].start + TotalLength(rest)
            && TotalLength(t) == t[0].end - t[0].start + TotalLength(t[1..]) && Absorbed(t, tol) == Absorbed(t[1..], tol)
  {
    var rest := Merged(t[1..], tol);
    assert Merged(t, tol)[1..] == rest;
  }

  lemma {:induction false} LengthShort(t: seq<Span>, tol: nat)
    requires |t| < 2
    ensures Merged(t, tol) == t && Absorbed(t, tol) == 0
  {
  }

  lemma {:induction false} MergedTop(t: seq<Span>, tol: nat)
    requires |t| >= 2 && Gap(t, 0) <= tol
    ensures Merged(t, tol) == Merged(Joined(t), tol)
  {
  }

  /** Merging adds exactly the absorbed gaps, at most the tolerance for every entry it removes. */
  lemma {:induction false} MergedLength(t: seq<Span>, tol: nat)
    ensures TotalLength(Merged(t, tol)) == TotalLength(t) + Absorbed(t, tol)
    ensures |Merged(t, tol)| <= |t|
    ensures TotalLength(Merged(t, tol)) <= TotalLength(t) + tol * (|t| - |Merged(t, tol)|)
    decreases |t|
  {
    hide *;
    if |t| < 2 {
      LengthShort(t, tol);
    } else if t[1].start - t[0].end <= tol {
      GapIs(t);
      LengthJoined(t, tol);
      MergedLength(Joined(t), tol);
      var k := |t| - |Merged(t, tol)|;
      OneMore(tol, k);
    } else {
      GapIs(t);
      LengthApart(t, tol);
      MergedLength(t[1..], tol);
    }
  }

  lemma {:induction false} GapIs(t: seq<Span>)
    requires |t| >= 2
    ensures Gap(t, 0) == t[1].start - t[0].end
  {
  }

  lemma {:induction false} OneMore(tol: nat, k: int)
    ensures tol * k == tol * (k - 1) + tol
  {
  }
}
