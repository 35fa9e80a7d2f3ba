/** What a host finds when it follows the chains of the finished table. */
module FatChains {
  import opened FatTable

  /** Two entered extents cover the same clusters, or share none. An empty extent ends one cluster
      before it begins; it is apart from another exactly when it does not begin inside it. */
  predicate Apart(s: Seg, t: Seg) {
    (s.first == t.first && s.last == t.last) || s.last < t.first || t.last < s.first
  }

  /** Extents inside the data clusters of a table of `n` entries, any two the same or disjoint. Files
      may share extents, and extents may be empty. */
  predicate WellPlaced(segs: seq<Seg>, n: nat) {
    && (forall j :: 0 <= j < |segs| ==> SEEDCLS <= segs[j].first <= segs[j].last + 1 <= n)
    && (forall i, j :: 0 <= i < |segs| && 0 <= j < |segs| ==> Apart(segs[i], segs[j]))
  }

  /** The entry of a cluster: its amendment, or else what the rule generates. */
  function Entry(sparse: bool, a: Amendments, i: nat): nat {
    if i in a && a[i] != [] then a[i][0] else if sparse then 0 else i + 1
  }

  function Table(sparse: bool, n: nat, segs: seq<Seg>): Amendments
    requires n > SEEDCLS
  {
    AllEntered(sparse, Initial(sparse, n), segs)
  }

  ghost predicate EndsAt(segs: seq<Seg>, c: nat) {
    exists j :: 0 <= j < |segs| && segs[j].last == c
  }

  /** The extent entered last of those that end at a cluster. */
  function LastEnding(segs: seq<Seg>, c: nat): (s: Seg)
    requires EndsAt(segs, c)
    ensures s in segs && s.last == c
  {
    if segs[|segs| - 1].last == c then segs[|segs| - 1] else
    assert EndsAt(segs[..|segs| - 1], c) by {
      var j :| 0 <= j < |segs| && segs[j].last == c;
      assert segs[..|segs| - 1][j].last == c;
    }
    LastEnding(segs[..|segs| - 1], c)
  }

  // ----- the amendments, extent by extent -----

  /** A table one extent further. */
  lemma {:induction false} TableStep(sparse: bool, n: nat, segs: seq<Seg>)
    requires n > SEEDCLS && segs != []
    ensures var init, s := segs[..|segs| - 1], segs[|segs| - 1];
            Table(sparse, n, segs) == Entered(sparse, Table(sparse, n, init), s)
  {
  }

  lemma {:induction false} PlacedInit(segs: seq<Seg>, n: nat)
    requires WellPlaced(segs, n) && segs != []
    ensures WellPlaced(segs[..|segs| - 1], n)
  {
  }

  /** What is entered for one extent leaves the cluster where another one ends alone, unless it ends
      there itself. */
  lemma {:induction false} EndKept(sparse: bool, a: Amendments, s: Seg, t: Seg)
    requires Apart(s, t) && s.first <= s.last + 1 && s.last in a && t.last != s.last
    ensures var b := Entered(sparse, a, t); s.last in b && b[s.last] == a[s.last]
  {
  }

  /** A cluster where extents end holds the link of the one entered last. */
  lemma {:induction false} LinksSet(sparse: bool, n: nat, segs: seq<Seg>, c: nat)
    requires n > SEEDCLS && WellPlaced(segs, n) && EndsAt(segs, c)
    ensures var a := Table(sparse, n, segs);
            c in a && a[c] == [LastEnding(segs, c).next]
  {
    TableStep(sparse, n, segs);
    var init, t := segs[..|segs| - 1], segs[|segs| - 1];
    if t.last != c {
      var j :| 0 <= j < |segs| && segs[j].last == c;
      assert init[j].last == c;
      PlacedInit(segs, n);
      LinksSet(sparse, n, init, c);
      assert Apart(segs[j], t);
      hide Entered, Table, WellPlaced;
      EndKept(sparse, Table(sparse, n, init), segs[j], t);
    }
  }

  /** Dense: an extent touches no cluster that another one leads through. */
  lemma {:induction false} NotTouched(a: Amendments, s: Seg, t: Seg, i: nat)
    requires Apart(s, t) && t.first <= t.last + 1 && s.first <= i < s.last && i !in a
    ensures i !in Entered(false, a, t)
  {
  }

  /** Dense: no amendment ever falls on a cluster that should point to the next one. */
  lemma {:induction false} InsideUntouched(n: nat, segs: seq<Seg>, s: Seg, i: nat)
    requires n > SEEDCLS && WellPlaced(segs, n) && (forall t :: t in segs ==> Apart(s, t))
    requires 0 < s.first <= i < s.last < n
    ensures i !in Table(false, n, segs)
  {
    if segs != [] {
      TableStep(false, n, segs);
      PlacedInit(segs, n);
      var init := segs[..|segs| - 1];
      InsideUntouched(n, init, s, i);
      hide Entered, Table;
      NotTouched(Table(false, n, init), s, segs[|segs| - 1], i);
    }
  }

  /** Sparse: an extent leaves the line of another one as it is. */
  lemma {:induction false} LineKept(a: Amendments, s: Seg, t: Seg, i: nat)
    requires Apart(s, t) && t.first <= t.last + 1 && s.first <= i < s.last
    requires (s.first == t.first && s.last == t.last) || (i in a && a[i] == [i + 1])
    ensures var b := Entered(true, a, t); i in b && b[i] == [i + 1]
  {
  }

  /** Sparse: every such cluster is amended to point to the next one. */
  lemma {:induction false} InsideLined(n: nat, segs: seq<Seg>, j: nat, i: nat)
    requires n > SEEDCLS && WellPlaced(segs, n) && j < |segs|
    requires segs[j].first <= i < segs[j].last
    ensures var a := Table(true, n, segs);
            i in a && a[i] == [i + 1]
  {
    TableStep(true, n, segs);
    PlacedInit(segs, n);
    var init, t := segs[..|segs| - 1], segs[|segs| - 1];
    assert Apart(segs[j], t) && t.first <= t.last + 1;
    if j < |init| {
      assert init[j] == segs[j];
      hide Entered, Table, WellPlaced;
      InsideLined(n, init, j, i);
    }
    hide Entered, Table, WellPlaced;
    LineKept(Table(true, n, init), segs[j], t, i);
  }

  /** Dense: the cluster before an extent is amended, so that nothing runs into the extent by accident. */
  lemma {:induction false} EntranceGuarded(n: nat, segs: seq<Seg>, j: nat)
    requires n > SEEDCLS && j < |segs| && segs[j].first > SEEDCLS
    ensures segs[j].first - 1 in Table(false, n, segs)
  {
    TableStep(false, n, segs);
    var init := segs[..|segs| - 1];
    if j < |init| {
      assert init[j] == segs[j];
      EntranceGuarded(n, init, j);
    }
    hide Table;
  }

  /** An amendment of a data cluster is an end mark, or the link of an extent ending there; in sparse
      mode it may also be part of an extent's line. */
  lemma {:induction false} OnlyLinks(sparse: bool, n: nat, segs: seq<Seg>, i: nat) returns (j: nat)
    requires n > SEEDCLS && i >= SEEDCLS
    requires i in Table(sparse, n, segs)
    ensures var a := Table(sparse, n, segs);
            || (!sparse && a[i] == [ENDMARK])
            || (j < |segs| && segs[j].last == i && a[i] == [segs[j].next])
            || (sparse && j < |segs| && segs[j].first <= i < segs[j].last && a[i] == [i + 1])
  {
    j := 0;
    if segs != [] {
      TableStep(sparse, n, segs);
      var init, t := segs[..|segs| - 1], segs[|segs| - 1];
      if t.last == i || (sparse && t.first <= i < t.last) {
        j := |init|;
      } else if i in Table(sparse, n, init) {
        j := OnlyLinks(sparse, n, init, i);
        assert j < |init| ==> init[j] == segs[j];
      }
    }
  }

  predicate Inside(s: Seg, i: nat) {
    s.first <= i <= s.last
  }

  // ----- the entries of a file -----

  /** In both modes, the entries of an extent lead through it, and its last cluster holds the link of
      the extent entered last of those that end there. */
  lemma {:induction false} ExtentEntries(sparse: bool, n: nat, segs: seq<Seg>, j: nat, i: nat)
    requires n > SEEDCLS && WellPlaced(segs, n) && j < |segs| && Inside(segs[j], i)
    ensures EndsAt(segs, segs[j].last)
    ensures Entry(sparse, Table(sparse, n, segs), i) == if i < segs[j].last then i + 1 else LastEnding(segs, i).next
  {
    assert EndsAt(segs, segs[j].last);
    if i == segs[j].last {
      LinksSet(sparse, n, segs, i);
    } else if sparse {
      InsideLined(n, segs, j, i);
    } else {
      forall t | t in segs ensures Apart(segs[j], t) {
        var k :| 0 <= k < |segs| && segs[k] == t;
      }
      InsideUntouched(n, segs, segs[j], i);
    }
  }

  /** An extent keeps its link exactly when the extent entered last of those that end with it has the
      same successor. */
  lemma {:induction false} LinkKept(sparse: bool, n: nat, segs: seq<Seg>, j: nat)
    requires n > SEEDCLS && WellPlaced(segs, n) && j < |segs|
    ensures EndsAt(segs, segs[j].last)
    ensures Entry(sparse, Table(sparse, n, segs), segs[j].last) == segs[j].next <==> Kept(segs, segs[j])
  {
    assert EndsAt(segs, segs[j].last);
    LinksSet(sparse, n, segs, segs[j].last);
  }

  predicate Kept(segs: seq<Seg>, s: Seg)
    requires EndsAt(segs, s.last)
  {
    LastEnding(segs, s.last).next == s.next
  }

  ghost predicate Touched(segs: seq<Seg>, i: nat) {
    exists j :: 0 <= j < |segs| && (Inside(segs[j], i) || segs[j].last == i)
  }

  /** Sparse and dense tables agree on every cluster of a file or directory (and where an empty extent
      ends); elsewhere a sparse table marks every data cluster free. */
  lemma {:induction false} SparseAgrees(n: nat, segs: seq<Seg>, i: nat)
    requires n > SEEDCLS && WellPlaced(segs, n) && SEEDCLS <= i < n
    ensures var s, d := Entry(true, Table(true, n, segs), i), Entry(false, Table(false, n, segs), i);
            if Touched(segs, i) then s == d else s == 0
  {
    if Touched(segs, i) {
      var j :| 0 <= j < |segs| && (Inside(segs[j], i) || segs[j].last == i);
      if segs[j].last == i {
        assert EndsAt(segs, i);
        LinksSet(true, n, segs, i);
        LinksSet(false, n, segs, i);
      } else {
        ExtentEntries(true, n, segs, j, i);
        ExtentEntries(false, n, segs, j, i);
      }
    } else if i in Table(true, n, segs) {
      var j := OnlyLinks(true, n, segs, i);
    }
  }

  // ----- no cross-links -----

  /** Each successor is the start of an extent. */
  ghost predicate Chained(segs: seq<Seg>) {
    forall j :: 0 <= j < |segs| ==> segs[j].next == ENDMARK || exists t :: 0 <= t < |segs| && segs[t].first == segs[j].next
  }

  /** Of the extents that were entered last where they end, no two have the same successor. */
  ghost predicate OneWayIn(segs: seq<Seg>) {
    forall c, d :: SEEDCLS <= c && SEEDCLS <= d && EndsAt(segs, c) && EndsAt(segs, d) ==> ApartOnward(segs, c, d)
  }

  predicate ApartOnward(segs: seq<Seg>, c: nat, d: nat)
    requires EndsAt(segs, c) && EndsAt(segs, d)
  {
    LastEnding(segs, c).next == LastEnding(segs, d).next != ENDMARK ==> c == d
  }

  predicate ApartIn(n: nat, segs: seq<Seg>, p: nat, q: nat)
    requires n > SEEDCLS
  {
    Entry(false, Table(false, n, segs), p) == Entry(false, Table(false, n, segs), q) != ENDMARK ==> p == q
  }

  /** In the dense table no two clusters lead to the same cluster, if and only if no two of the links
      that were left in it do. */
  lemma {:induction false} NoCrossLinks(n: nat, segs: seq<Seg>)
    requires SEEDCLS < n < ENDMARK && WellPlaced(segs, n) && Chained(segs)
    ensures (forall p, q :: SEEDCLS <= p < n && SEEDCLS <= q < n ==> ApartIn(n, segs, p, q)) <==> OneWayIn(segs)
  {
    hide ApartIn, ApartOnward, EndsAt, WellPlaced, Chained;
    if OneWayIn(segs) {
      forall p, q | SEEDCLS <= p < n && SEEDCLS <= q < n ensures ApartIn(n, segs, p, q) { NoCrossLink(n, segs, p, q); }
    }
    if forall p, q :: SEEDCLS <= p < n && SEEDCLS <= q < n ==> ApartIn(n, segs, p, q) {
      forall c, d | SEEDCLS <= c && SEEDCLS <= d && EndsAt(segs, c) && EndsAt(segs, d) ensures ApartOnward(segs, c, d) {
        EndsWithin(n, segs, c);
        EndsWithin(n, segs, d);
        LinksApart(n, segs, c, d);
      }
    }
  }

  lemma {:induction false} LinksApart(n: nat, segs: seq<Seg>, c: nat, d: nat)
    requires n > SEEDCLS && WellPlaced(segs, n) && EndsAt(segs, c) && EndsAt(segs, d) && ApartIn(n, segs, c, d)
    ensures ApartOnward(segs, c, d)
  {
    LinksSet(false, n, segs, c);
    LinksSet(false, n, segs, d);
    hide Table, LastEnding, WellPlaced;
  }

  lemma {:induction false} EndsWithin(n: nat, segs: seq<Seg>, c: nat)
    requires WellPlaced(segs, n) && EndsAt(segs, c)
    ensures c < n
  {
  }

  lemma {:induction false} NoCrossLink(n: nat, segs: seq<Seg>, p: nat, q: nat)
    requires SEEDCLS < n < ENDMARK && WellPlaced(segs, n) && Chained(segs) && OneWayIn(segs)
    requires SEEDCLS <= p < n && SEEDCLS <= q < n
    ensures ApartIn(n, segs, p, q)
  {
    var a := Table(false, n, segs);
    hide Table, LastEnding, WellPlaced, Chained;
    if Entry(false, a, p) == Entry(false, a, q) != ENDMARK {
      if p in a { LinkLeft(n, segs, p); }
      if q in a { LinkLeft(n, segs, q); }
      if p in a && q in a {
        assert ApartOnward(segs, p, q);
      } else if p in a {
        NotByRule(n, segs, p, q);
      } else if q in a {
        NotByRule(n, segs, q, p);
      }
    }
  }

  /** An amendment that is no end mark is the link of the extent entered last of those ending there. */
  lemma {:induction false} LinkLeft(n: nat, segs: seq<Seg>, p: nat)
    requires SEEDCLS < n && WellPlaced(segs, n) && p >= SEEDCLS && p in Table(false, n, segs)
    requires Entry(false, Table(false, n, segs), p) != ENDMARK
    ensures EndsAt(segs, p) && Table(false, n, segs)[p] == [LastEnding(segs, p).next]
  {
    hide Table, LastEnding;
    var j := OnlyLinks(false, n, segs, p);
    assert segs[j].last == p;
    LinksSet(false, n, segs, p);
  }

  /** What an amended cluster leads to is never what the rule makes another cluster lead to. */
  lemma {:induction false} NotByRule(n: nat, segs: seq<Seg>, p: nat, q: nat)
    requires SEEDCLS < n < ENDMARK && Chained(segs)
    requires SEEDCLS <= p < n && SEEDCLS <= q < n
    requires var a := Table(false, n, segs); p in a && q !in a
    ensures Entry(false, Table(false, n, segs), p) != q + 1
  {
    hide Table;
    var i := OnlyLinks(false, n, segs, p);
    if t :| 0 <= t < |segs| && segs[t].first == q + 1 { EntranceGuarded(n, segs, t); }
  }

  /** A cluster outside all extents leads to the end mark, to another such cluster of the table, or
      where an empty extent that ends there leads: the lost clusters of a gap never run into a file. */
  lemma {:induction false} GapsStayOut(n: nat, segs: seq<Seg>, g: nat)
    requires SEEDCLS < n && WellPlaced(segs, n) && SEEDCLS <= g < n
    requires forall j :: 0 <= j < |segs| ==> !Inside(segs[j], g)
    ensures var e := Entry(false, Table(false, n, segs), g);
            || e == ENDMARK
            || (e == g + 1 < n && forall j :: 0 <= j < |segs| ==> !Inside(segs[j], e))
            || exists j :: 0 <= j < |segs| && segs[j].last == g == segs[j].first - 1 && e == segs[j].next
  {
    var a := Table(false, n, segs);
    hide Table;
    if g in a {
      var j := OnlyLinks(false, n, segs, g);
    } else {
      LastGuarded(n, segs);
      forall j | 0 <= j < |segs| ensures !Inside(segs[j], g + 1) {
        if segs[j].first == g + 1 { EntranceGuarded(n, segs, j); }
      }
    }
  }

  lemma {:induction false} LastGuarded(n: nat, segs: seq<Seg>)
    requires n > SEEDCLS
    ensures n - 1 in Table(false, n, segs)
  {
    if segs != [] {
      TableStep(false, n, segs);
      LastGuarded(n, segs[..|segs| - 1]);
    }
  }

  // ----- following a chain -----

  function Range(first: nat, last: nat): (r: seq<nat>)
    ensures first <= last ==> |r| == last - first + 1 && r[0] == first
  {
    if last < first then [] else seq(last - first + 1, i requires 0 <= i => first + i)
  }

  /** The clusters of a file, in order. */
  function Clusters(chain: seq<Run>): seq<nat> {
    if chain == [] then [] else Range(chain[0].first, chain[0].last) + Clusters(chain[1..])
  }

  /** What a host visits from cluster `c` on, until an end mark. */
  function Follow(fat: seq<nat>, c: nat, fuel: nat): seq<nat>
    decreases fuel
  {
    if c >= |fat| then []
    else if fuel == 0 || fat[c] >= 0x0fff_fff8 then [c]
    else [c] + Follow(fat, fat[c], fuel - 1)
  }

  /** The clusters of an extent but the last lead to the next one each. */
  predicate LeadsOn(fat: seq<nat>, r: Run) {
    r.first <= r.last < |fat| && forall i :: r.first <= i < r.last ==> fat[i] == i + 1
  }

  /** The successor of each extent of a chain. */
  function NextOf(chain: seq<Run>, i: nat): nat
    requires i < |chain|
  {
    LinkAt(chain, i).next
  }

  predicate LinkedAt(fat: seq<nat>, chain: seq<Run>, i: nat)
    requires i < |chain|
  {
    chain[i].last < |fat| && fat[chain[i].last] == NextOf(chain, i)
  }

  predicate Linked(fat: seq<nat>, chain: seq<Run>) {
    forall i :: 0 <= i < |chain| ==> LinkedAt(fat, chain, i)
  }

  lemma {:induction false} RangeStep(c: nat, last: nat)
    requires c < last
    ensures Range(c, last) == [c] + Range(c + 1, last) && Range(c, c) == [c]
  {
  }

  lemma {:induction false} RestIs(chain: seq<Run>, j: nat)
    requires j < |chain| && chain[j].first <= chain[j].last
    ensures Clusters(chain[j..]) == Range(chain[j].first, chain[j].last) + Clusters(chain[j + 1..])
    ensures Clusters(chain[j..]) != [] && Clusters(chain[j..])[0] == chain[j].first
  {
    assert chain[j..][1..] == chain[j + 1..];
  }

  lemma {:induction false} OneRange(c: nat)
    ensures Range(c, c) == [c]
  {
  }

  lemma {:induction false} FollowIs(fat: seq<nat>, c: nat, fuel: nat)
    requires c < |fat|
    ensures Follow(fat, c, fuel) == if fuel == 0 || fat[c] >= 0x0fff_fff8 then [c] else [c] + Follow(fat, fat[c], fuel - 1)
  {
  }

  /** From any cluster of a file, following the table visits the rest of the file, and then stops. */
  lemma {:induction false} FollowsChain(fat: seq<nat>, chain: seq<Run>, j: nat, c: nat, fuel: nat)
    requires |fat| < 0x0fff_fff8 && j < |chain| && chain[j].first <= c <= chain[j].last
    requires forall i :: 0 <= i < |chain| ==> LeadsOn(fat, chain[i])
    requires Linked(fat, chain)
    requires fuel >= chain[j].last - c + |Clusters(chain[j + 1..])|
    ensures Follow(fat, c, fuel) == Range(c, chain[j].last) + Clusters(chain[j + 1..])
    decreases |chain| - j, chain[j].last - c
  {
    hide Follow, Range, Clusters, LeadsOn, LinkedAt, Linked, NextOf;
    StepAt(fat, chain, j, c);
    FollowIs(fat, c, fuel);
    if c < chain[j].last {
      RangeStep(c, chain[j].last);
      FollowsChain(fat, chain, j, c + 1, fuel - 1);
    } else {
      OneRange(c);
      if j + 1 < |chain| {
        StepAt(fat, chain, j + 1, chain[j + 1].first);
        RestIs(chain, j + 1);
        FollowsChain(fat, chain, j + 1, chain[j + 1].first, fuel - 1);
      } else {
        assert chain[j + 1..] == [];
        NoClusters();
      }
    }
  }

  lemma {:induction false} NoClusters()
    ensures Clusters([]) == []
  {
  }

  /** One step along a chain that is linked. */
  lemma {:induction false} StepAt(fat: seq<nat>, chain: seq<Run>, j: nat, c: nat)
    requires j < |chain| && (forall i :: 0 <= i < |chain| ==> LeadsOn(fat, chain[i])) && Linked(fat, chain)
    requires chain[j].first <= chain[j].last ==> chain[j].first <= c <= chain[j].last
    ensures chain[j].first <= chain[j].last < |fat|
    ensures fat[c] == if c < chain[j].last then c + 1 else if j + 1 < |chain| then chain[j + 1].first else ENDMARK
  {
    assert LeadsOn(fat, chain[j]) && LinkedAt(fat, chain, j);
    hide LeadsOn;
    if c < chain[j].last { LeadsAt(fat, chain[j], c); }
    LeadsWithin(fat, chain[j]);
  }

  lemma {:induction false} LeadsAt(fat: seq<nat>, r: Run, c: nat)
    requires LeadsOn(fat, r) && r.first <= c < r.last
    ensures c < |fat| && fat[c] == c + 1
  {
  }

  lemma {:induction false} LeadsWithin(fat: seq<nat>, r: Run)
    requires LeadsOn(fat, r)
    ensures r.first <= r.last < |fat|
  {
  }

  /** And the other way round: if following a file visits its clusters, every extent but the last
      leads to the next one. */
  lemma {:induction false} FollowForces(fat: seq<nat>, chain: seq<Run>, j: nat, c: nat, fuel: nat, i: nat)
    requires |fat| < 0x0fff_fff8 && j < |chain| && chain[j].first <= c <= chain[j].last
    requires forall i :: 0 <= i < |chain| ==> LeadsOn(fat, chain[i])
    requires Follow(fat, c, fuel) == Range(c, chain[j].last) + Clusters(chain[j + 1..])
    requires j <= i < |chain| - 1
    ensures LinkedAt(fat, chain, i)
    decreases |chain| - j, chain[j].last - c
  {
    hide Follow, Clusters, Range;
    assert LeadsOn(fat, chain[j]) && LeadsOn(fat, chain[j + 1]);
    RestIs(chain, j + 1);
    var rest := Clusters(chain[j + 1..]);
    if c < chain[j].last {
      RangeStep(c, chain[j].last);
      var tail := Range(c + 1, chain[j].last) + rest;
      assert Range(c, chain[j].last) + rest == [c] + tail;
      FollowTail(fat, c, fuel, tail);
      FollowForces(fat, chain, j, c + 1, fuel - 1, i);
    } else {
      OneRange(c);
      FollowTail(fat, c, fuel, rest);
      if i > j { FollowForces(fat, chain, j + 1, chain[j + 1].first, fuel - 1, i); }
    }
  }

  lemma {:induction false} FollowTail(fat: seq<nat>, c: nat, fuel: nat, rest: seq<nat>)
    requires Follow(fat, c, fuel) == [c] + rest && rest != [] && c < |fat|
    ensures fuel > 0 && fat[c] == rest[0] && Follow(fat, fat[c], fuel - 1) == rest
  {
    assert ([c] + rest)[1..] == rest;
    assert |Follow(fat, c, fuel)| > 1;
    var tail := Follow(fat, fat[c], fuel - 1);
    assert ([c] + tail)[1..] == tail;
  }

  // ----- a volume -----

  predicate SameOrApart(a: Run, b: Run) {
    a == b || a.last < b.first || b.last < a.first
  }

  /** Extents inside the data clusters, any two the same or disjoint; an empty one begins in none. */
  predicate Laid(chains: seq<seq<Run>>, n: nat) {
    && (forall f, i :: 0 <= f < |chains| && 0 <= i < |chains[f]| ==>
          SEEDCLS <= chains[f][i].first <= chains[f][i].last + 1 <= n)
    && (forall f, i, g, j :: 0 <= f < |chains| && 0 <= i < |chains[f]| && 0 <= g < |chains| && 0 <= j < |chains[g]| ==>
          SameOrApart(chains[f][i], chains[g][j]))
  }

  lemma {:induction false} LinkOrigin(chains: seq<seq<Run>>, j: nat) returns (f: nat, i: nat)
    requires j < |AllLinks(chains)|
    ensures f < |chains| && i < |chains[f]| && AllLinks(chains)[j] == LinkAt(chains[f], i)
  {
    var init := chains[..|chains| - 1];
    if j < |AllLinks(init)| {
      f, i := LinkOrigin(init, j);
    } else {
      f := |init|;
      i := |chains[f]| - 1 - (j - |AllLinks(init)|);
    }
  }

  lemma {:induction false} LinkPlace(chains: seq<seq<Run>>, f: nat, i: nat) returns (j: nat)
    requires f < |chains| && i < |chains[f]|
    ensures j < |AllLinks(chains)| && AllLinks(chains)[j] == LinkAt(chains[f], i)
  {
    var init := chains[..|chains| - 1];
    if f < |init| {
      j := LinkPlace(init, f, i);
    } else {
      j := |AllLinks(init)| + |chains[f]| - 1 - i;
    }
  }

  lemma {:induction false} LaidIsPlaced(chains: seq<seq<Run>>, n: nat)
    requires Laid(chains, n)
    ensures WellPlaced(AllLinks(chains), n)
  {
    var segs := AllLinks(chains);
    forall j | 0 <= j < |segs| ensures SEEDCLS <= segs[j].first <= segs[j].last + 1 <= n {
      var f, i := LinkOrigin(chains, j);
    }
    forall j, k | 0 <= j < |segs| && 0 <= k < |segs| ensures Apart(segs[j], segs[k]) {
      var f, i := LinkOrigin(chains, j);
      var g, l := LinkOrigin(chains, k);
      assert SameOrApart(chains[f][i], chains[g][l]);
    }
  }

  /** The table a host reads: the entries of all data clusters. */
  predicate Holds(fat: seq<nat>, sparse: bool, n: nat, segs: seq<Seg>) {
    && SEEDCLS < n == |fat|
    && forall i :: SEEDCLS <= i < n ==> fat[i] == Entry(sparse, Table(sparse, n, segs), i)
  }

  predicate KeptAt(chains: seq<seq<Run>>, f: nat, i: nat)
    requires f < |chains| && i < |chains[f]|
  {
    var segs, s := AllLinks(chains), LinkAt(chains[f], i);
    assert EndsAt(segs, s.last) by { var j := LinkPlace(chains, f, i); assert segs[j] == s; }
    Kept(segs, s)
  }

  /** No extent of the file loses its link: wherever several extents end on one cluster, the one
      entered last has the same successor as the file's. */
  predicate KeptWhole(chains: seq<seq<Run>>, f: nat)
    requires f < |chains|
  {
    forall i :: 0 <= i < |chains[f]| ==> KeptAt(chains, f, i)
  }

  predicate EndsOn(chains: seq<seq<Run>>, g: nat, l: nat, c: nat) {
    g < |chains| && l < |chains[g]| && chains[g][l].last == c
  }

  /** Files are entered in order, and the extents of a file last to first. */
  ghost predicate EnteredLast(chains: seq<seq<Run>>, g: nat, l: nat, c: nat) {
    EndsOn(chains, g, l, c) && forall h: nat, k: nat :: EndsOn(chains, h, k, c) ==> h < g || (h == g && l <= k)
  }

  /** A link is kept exactly when the last of the extents that end on the same cluster, by files and then
      backwards within its file, has the same successor. */
  lemma {:induction false} KeptExactly(chains: seq<seq<Run>>, f: nat, i: nat)
    requires f < |chains| && i < |chains[f]|
    ensures KeptAt(chains, f, i) <==> exists g: nat, l: nat :: EnteredLast(chains, g, l, chains[f][i].last) && SameNext(chains[g], l, chains[f], i)
  {
    var segs, c := AllLinks(chains), chains[f][i].last;
    var j := LinkPlace(chains, f, i);
    assert segs[j].last == c;
    var g, l := LastEntered(chains, c);
    assert KeptAt(chains, f, i) <==> SameNext(chains[g], l, chains[f], i);
    hide AllLinks, KeptAt, LastEnding;
    forall h: nat, k: nat | EnteredLast(chains, h, k, c) ensures h == g && k == l { }
  }

  /** Both are followed by extents that begin on the same cluster, or both by nothing. */
  predicate SameNext(a: seq<Run>, i: nat, b: seq<Run>, j: nat)
    requires i < |a| && j < |b|
  {
    (if i + 1 < |a| then a[i + 1].first else ENDMARK) == (if j + 1 < |b| then b[j + 1].first else ENDMARK)
  }

  lemma {:induction false} LastEntered(chains: seq<seq<Run>>, c: nat) returns (g: nat, l: nat)
    requires EndsAt(AllLinks(chains), c)
    ensures EnteredLast(chains, g, l, c) && LastEnding(AllLinks(chains), c) == LinkAt(chains[g], l)
  {
    var init, chain := chains[..|chains| - 1], chains[|chains| - 1];
    LastConcat(AllLinks(init), Links(chain), c);
    if EndsAt(Links(chain), c) {
      g := |init|;
      l := LastInChain(chain, c);
    } else {
      g, l := LastEntered(init, c);
      forall h: nat, k: nat | EndsOn(chains, h, k, c) ensures EndsOn(init, h, k, c) { if h == |init| { NoneEnds(chain, k, c); } }
    }
    hide AllLinks, Links, LastEnding;
  }

  lemma {:induction false} NoneEnds(chain: seq<Run>, k: nat, c: nat)
    requires k < |chain| && !EndsAt(Links(chain), c)
    ensures chain[k].last != c
  {
    LinksFrom(chain, k);
  }

  lemma {:induction false} LinksFrom(chain: seq<Run>, k: nat)
    requires k < |chain|
    ensures |Links(chain)| == |chain| && Links(chain)[|chain| - 1 - k] == LinkAt(chain, k)
  {
    var i: nat := |chain| - 1 - k;
    assert Links(chain)[i] == LinkAt(chain, |chain| - 1 - i);
  }

  lemma {:induction false} LinksStep(chain: seq<Run>)
    requires chain != []
    ensures Links(chain) == Links(chain[1..]) + [LinkAt(chain, 0)]
  {
    var rest, n := chain[1..], |chain|;
    forall i: nat | i < n ensures Links(chain)[i] == (Links(rest) + [LinkAt(chain, 0)])[i] {
      LinksFrom(chain, n - 1 - i);
      if i < n - 1 {
        LinksFrom(rest, n - 2 - i);
        assert LinkAt(rest, n - 2 - i) == LinkAt(chain, n - 1 - i);
      }
    }
  }

  lemma {:induction false} LastInChain(chain: seq<Run>, c: nat) returns (l: nat)
    requires EndsAt(Links(chain), c)
    ensures l < |chain| && chain[l].last == c && (forall k :: 0 <= k < l ==> chain[k].last != c)
    ensures LastEnding(Links(chain), c) == LinkAt(chain, l)
  {
    LinksStep(chain);
    var rest, one := chain[1..], [LinkAt(chain, 0)];
    hide Links;
    LastConcat(Links(rest), one, c);
    if chain[0].last == c {
      assert one[0].last == c && EndsAt(one, c);
      l := 0;
    } else {
      l := LastInChain(rest, c);
      assert LinkAt(rest, l) == LinkAt(chain, l + 1);
      l := l + 1;
    }
  }

  lemma {:induction false} LastConcat(a: seq<Seg>, b: seq<Seg>, c: nat)
    requires EndsAt(a + b, c)
    ensures EndsAt(b, c) ==> LastEnding(a + b, c) == LastEnding(b, c)
    ensures !EndsAt(b, c) ==> EndsAt(a, c) && LastEnding(a + b, c) == LastEnding(a, c)
  {
    if b == [] {
      assert a + b == a;
    } else {
      var init := b[..|b| - 1];
      assert (a + b)[..|a + b| - 1] == a + init;
      if b[|b| - 1].last != c { LastConcat(a, init, c); }
    }
  }

  predicate AllNonempty(chain: seq<Run>) {
    forall i :: 0 <= i < |chain| ==> chain[i].first <= chain[i].last
  }

  lemma {:induction false} FileLeads(fat: seq<nat>, sparse: bool, n: nat, chains: seq<seq<Run>>, f: nat, i: nat)
    requires Laid(chains, n) && Holds(fat, sparse, n, AllLinks(chains))
    requires f < |chains| && i < |chains[f]| && chains[f][i].first <= chains[f][i].last
    ensures LeadsOn(fat, chains[f][i]) && (LinkedAt(fat, chains[f], i) <==> KeptAt(chains, f, i))
  {
    var segs, r := AllLinks(chains), chains[f][i];
    LaidIsPlaced(chains, n);
    var j := LinkPlace(chains, f, i);
    forall c | r.first <= c < r.last ensures fat[c] == c + 1 { ExtentEntries(sparse, n, segs, j, c); }
    LinkKept(sparse, n, segs, j);
    hide AllLinks, Table, WellPlaced, Laid;
  }

  /** Following the table from the first cluster of a file or directory visits exactly its clusters, in
      order, and ends there with the end mark, if and only if no extent of it loses its link. */
  lemma {:induction false} FileFollows(fat: seq<nat>, sparse: bool, n: nat, chains: seq<seq<Run>>, f: nat, fuel: nat)
    requires Laid(chains, n) && Holds(fat, sparse, n, AllLinks(chains)) && n < 0x0fff_fff8
    requires f < |chains| && chains[f] != [] && AllNonempty(chains[f])
    requires fuel >= |Clusters(chains[f])|
    ensures Follow(fat, chains[f][0].first, fuel) == Clusters(chains[f]) && fat[chains[f][|chains[f]| - 1].last] == ENDMARK
            <==> KeptWhole(chains, f)
  {
    hide Holds, Laid, KeptAt, LeadsOn, LinkedAt, Follow, Clusters;
    var chain := chains[f];
    HeldCount(fat, sparse, n, AllLinks(chains));
    forall i | 0 <= i < |chain| ensures LeadsOn(fat, chain[i]) && (LinkedAt(fat, chain, i) <==> KeptAt(chains, f, i)) {
      FileLeads(fat, sparse, n, chains, f, i);
    }
    ChainFollows(fat, chain, fuel);
  }

  lemma {:induction false} HeldCount(fat: seq<nat>, sparse: bool, n: nat, segs: seq<Seg>)
    requires Holds(fat, sparse, n, segs)
    ensures |fat| == n
  {
  }

  lemma {:induction false} ChainFollows(fat: seq<nat>, chain: seq<Run>, fuel: nat)
    requires |fat| < 0x0fff_fff8 && chain != [] && (forall i :: 0 <= i < |chain| ==> LeadsOn(fat, chain[i]))
    requires fuel >= |Clusters(chain)|
    ensures chain[|chain| - 1].last < |fat|
    ensures Follow(fat, chain[0].first, fuel) == Clusters(chain) && fat[chain[|chain| - 1].last] == ENDMARK <==> Linked(fat, chain)
  {
    hide Follow, Range, Clusters;
    var m := |chain| - 1;
    assert LeadsOn(fat, chain[0]) && LeadsOn(fat, chain[m]);
    RestIs(chain, 0);
    assert chain[0..] == chain;
    if Linked(fat, chain) {
      FollowsChain(fat, chain, 0, chain[0].first, fuel);
      assert LinkedAt(fat, chain, m);
    }
    if Follow(fat, chain[0].first, fuel) == Clusters(chain) && fat[chain[m].last] == ENDMARK {
      forall i | 0 <= i < |chain| ensures LinkedAt(fat, chain, i) {
        if i < m { FollowForces(fat, chain, 0, chain[0].first, fuel, i); }
      }
    }
  }

  // ----- which volumes keep all their chains -----

  /** Extents that end on one cluster have the same successor. */
  predicate Agreeing(chains: seq<seq<Run>>) {
    forall f, i, g, j :: 0 <= f < |chains| && 0 <= i < |chains[f]| && 0 <= g < |chains| && 0 <= j < |chains[g]| ==>
      AgreeAt(chains[f], i, chains[g], j)
  }

  predicate AgreeAt(a: seq<Run>, i: nat, b: seq<Run>, j: nat)
    requires i < |a| && j < |b|
  {
    a[i].last == b[j].last ==> NextOf(a, i) == NextOf(b, j)
  }

  /** A file keeps its links if every extent that ends where one of its own does has the same
      successor. */
  lemma {:induction false} AgreedIsKept(chains: seq<seq<Run>>, f: nat)
    requires f < |chains|
    requires forall i, g, j :: 0 <= i < |chains[f]| && 0 <= g < |chains| && 0 <= j < |chains[g]| ==> AgreeAt(chains[g], j, chains[f], i)
    ensures KeptWhole(chains, f)
  {
    var segs := AllLinks(chains);
    forall i | 0 <= i < |chains[f]| ensures KeptAt(chains, f, i) {
      var s := LinkAt(chains[f], i);
      var k := LinkPlace(chains, f, i);
      assert EndsAt(segs, s.last);
      var j :| 0 <= j < |segs| && segs[j] == LastEnding(segs, s.last);
      var g, l := LinkOrigin(chains, j);
      assert AgreeAt(chains[g], l, chains[f], i);
    }
  }

  /** All chains keep all their links, whatever the order of processing, exactly when extents that end
      on one cluster have the same successor. */
  lemma {:induction false} AllKept(chains: seq<seq<Run>>)
    ensures (forall f :: 0 <= f < |chains| ==> KeptWhole(chains, f)) <==> Agreeing(chains)
  {
    if Agreeing(chains) {
      forall f | 0 <= f < |chains| ensures KeptWhole(chains, f) { AgreedIsKept(chains, f); }
    }
    if forall f :: 0 <= f < |chains| ==> KeptWhole(chains, f) {
      forall f, i, g, j | 0 <= f < |chains| && 0 <= i < |chains[f]| && 0 <= g < |chains| && 0 <= j < |chains[g]|
        ensures AgreeAt(chains[f], i, chains[g], j)
      {
        assert KeptWhole(chains, f) && KeptWhole(chains, g);
        assert KeptAt(chains, f, i) && KeptAt(chains, g, j);
      }
    }
  }

  /** No file has more than one extent, as when files are copied to the target whole. */
  predicate Singles(chains: seq<seq<Run>>) {
    forall f :: 0 <= f < |chains| ==> |chains[f]| <= 1
  }

  /** No extent is empty, and only files with the very same extents share any: hard links. */
  predicate HardLinked(chains: seq<seq<Run>>) {
    && (forall f :: 0 <= f < |chains| ==> AllNonempty(chains[f]))
    && (forall f, i, g, j :: 0 <= f < |chains| && 0 <= i < |chains[f]| && 0 <= g < |chains| && 0 <= j < |chains[g]| ==>
          SharedAlike(chains[f], i, chains[g], j))
  }

  predicate SharedAlike(a: seq<Run>, i: nat, b: seq<Run>, j: nat)
    requires i < |a| && j < |b|
  {
    (a == b && i == j) || a[i].last < b[j].first || b[j].last < a[i].first
  }

  /** Both kinds of volume keep every chain, and have no cross-links. */
  lemma {:induction false} UsualVolumes(chains: seq<seq<Run>>)
    requires Singles(chains) || HardLinked(chains)
    ensures Agreeing(chains) && OneWayIn(AllLinks(chains))
  {
    forall f, i, g, j | 0 <= f < |chains| && 0 <= i < |chains[f]| && 0 <= g < |chains| && 0 <= j < |chains[g]|
      ensures AgreeAt(chains[f], i, chains[g], j)
    {
      if HardLinked(chains) { assert SharedAlike(chains[f], i, chains[g], j); }
    }
    var segs := AllLinks(chains);
    forall c, d | SEEDCLS <= c && SEEDCLS <= d && EndsAt(segs, c) && EndsAt(segs, d) ensures ApartOnward(segs, c, d) {
      var j :| 0 <= j < |segs| && segs[j] == LastEnding(segs, c);
      var k :| 0 <= k < |segs| && segs[k] == LastEnding(segs, d);
      hide LastEnding;
      var f, i := LinkOrigin(chains, j);
      var g, l := LinkOrigin(chains, k);
      if HardLinked(chains) && i + 1 < |chains[f]| && l + 1 < |chains[g]| { assert SharedAlike(chains[f], i + 1, chains[g], l + 1); }
    }
  }

  /** In every volume each link but the end mark is the start of an extent. */
  lemma {:induction false} AllChained(chains: seq<seq<Run>>)
    ensures Chained(AllLinks(chains))
  {
    var segs := AllLinks(chains);
    forall j | 0 <= j < |segs| ensures segs[j].next == ENDMARK || exists t :: 0 <= t < |segs| && segs[t].first == segs[j].next {
      var f, i := LinkOrigin(chains, j);
      if i + 1 < |chains[f]| { var t := LinkPlace(chains, f, i + 1); }
    }
  }

  /** A file that shares all its extents with another one which goes on, as a copy by reference does
      when the original is appended to: one of the two chains is lost, whichever is entered last. */
  lemma {:induction false} AppendedCopyCuts(chains: seq<seq<Run>>, f: nat, g: nat)
    requires f < |chains| && g < |chains|
    requires 0 < |chains[f]| < |chains[g]| && chains[f] == chains[g][..|chains[f]|]
    requires chains[g][|chains[f]|].first != ENDMARK
    ensures !(KeptWhole(chains, f) && KeptWhole(chains, g))
  {
    var i := |chains[f]| - 1;
    assert chains[f][i] == chains[g][i];
    assert KeptWhole(chains, f) ==> KeptAt(chains, f, i);
    assert KeptWhole(chains, g) ==> KeptAt(chains, g, i);
  }

  lemma {:induction false} CopyLinks(a: Run, b: Run)
    ensures AllLinks([[a], [a, b]]) == [Seg(a.first, a.last, ENDMARK), Seg(b.first, b.last, ENDMARK), Seg(a.first, a.last, b.first)]
  {
    var one, two := [a], [a, b];
    assert Links(one) == [Seg(a.first, a.last, ENDMARK)] by { assert Links(one)[0] == LinkAt(one, 0); }
    assert Links(two) == [Seg(b.first, b.last, ENDMARK), Seg(a.first, a.last, b.first)] by {
      assert Links(two)[0] == LinkAt(two, 1) && Links(two)[1] == LinkAt(two, 0);
    }
    hide Links, LinkAt;
    assert [one, two][..1] == [one] && [one][..0] == [];
    assert AllLinks([one]) == AllLinks([]) + Links(one);
  }

  lemma {:induction false} CopyEntries(sparse: bool, a: Run, b: Run, n: nat)
    requires SEEDCLS <= a.first < a.last < b.first <= b.last < n
    ensures Laid([[a], [a, b]], n)
    ensures var t := Table(sparse, n, AllLinks([[a], [a, b]]));
            && (forall i :: a.first <= i < a.last ==> Entry(sparse, t, i) == i + 1)
            && Entry(sparse, t, a.last) == b.first && Entry(sparse, t, b.last) == ENDMARK
  {
    hide Table, Entry, WellPlaced, AllLinks, Laid, LastEnding, EndsAt;
    CopyLinks(a, b);
    CopyLaid(a, b, n);
    var segs := AllLinks([[a], [a, b]]);
    LastOfThree(segs);
    forall i | a.first <= i <= a.last
      ensures Entry(sparse, Table(sparse, n, segs), i) == if i < a.last then i + 1 else b.first
    {
      ExtentEntries(sparse, n, segs, 2, i);
    }
    ExtentEntries(sparse, n, segs, 1, b.last);
  }

  lemma {:induction false} CopyLaid(a: Run, b: Run, n: nat)
    requires SEEDCLS <= a.first < a.last < b.first <= b.last < n
    ensures Laid([[a], [a, b]], n) && WellPlaced(AllLinks([[a], [a, b]]), n)
  {
    hide AllLinks, WellPlaced;
    LaidIsPlaced([[a], [a, b]], n);
  }

  lemma {:induction false} LastOfThree(segs: seq<Seg>)
    requires |segs| == 3 && segs[1].last != segs[2].last
    ensures EndsAt(segs, segs[2].last) && LastEnding(segs, segs[2].last) == segs[2]
    ensures EndsAt(segs, segs[1].last) && LastEnding(segs, segs[1].last) == segs[1]
  {
    assert segs[..2][1] == segs[1];
  }

  /** Such volumes, of any size: the chain of the shorter file, entered first, runs on into the longer
      one. */
  lemma {:induction false} CopyRunsOn(fat: seq<nat>, sparse: bool, n: nat)
    requires n >= 8 && Holds(fat, sparse, n, AllLinks([[Run(2, 3)], [Run(2, 3), Run(5, 5)]]))
    ensures Laid([[Run(2, 3)], [Run(2, 3), Run(5, 5)]], n)
    ensures Clusters([Run(2, 3)]) == [2, 3] && Follow(fat, 2, n) == [2, 3, 5]
  {
    CopyEntries(sparse, Run(2, 3), Run(5, 5), n);
    assert fat[2] == 3 && fat[3] == 5 && fat[5] == ENDMARK;
    hide Holds, Laid, Entry, Table, AllLinks;
    assert Follow(fat, 5, n - 2) == [5];
    assert Follow(fat, 3, n - 1) == [3] + Follow(fat, 5, n - 2);
    assert Clusters([Run(2, 3)]) == Range(2, 3) + Clusters([]);
  }
}
