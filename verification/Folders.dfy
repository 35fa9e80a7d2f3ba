/** Folder trees and the bottom-up layout of their directories, with the fixups of records that point
    up (`CD9660Out::plan`, `VFat32Out::plan`). */
module Folders {
  import opened Bytes
  import opened Blocks
  import opened Burner

  // ----- the table of folders -----

  /** A folder of the source tree with the folders in it. */
  datatype Dir = Dir(name: seq<int>, subs: seq<Dir>)

  /** A line of the path list: the position of the parent, and the name. */
  datatype Row = Row(parent: nat, name: seq<int>)

  /** The path list from position `n` on: a folder, then everything below it (`onFolder`). */
  function Rows(d: Dir, up: nat, n: nat): (r: seq<Row>)
    ensures r != [] && r[0] == Row(up, d.name)
    decreases d, 0
  {
    [Row(up, d.name)] + SubRows(d.subs, n, n + 1)
  }

  function SubRows(subs: seq<Dir>, up: nat, n: nat): seq<Row>
    decreases subs, 1
  {
    if subs == [] then [] else
    var r := Rows(subs[0], up, n);
    r + SubRows(subs[1..], up, n + |r|)
  }

  /** Siblings have different names. */
  ghost predicate Named(d: Dir) {
    NamedAll(d.subs)
  }

  ghost predicate NamedAll(subs: seq<Dir>) {
    && (forall i, j :: 0 <= i < j < |subs| ==> subs[i].name != subs[j].name)
    && (forall i :: 0 <= i < |subs| ==> Named(subs[i]))
  }

  ghost predicate Siblings(r: seq<Row>) {
    forall i, j :: 0 <= i < j < |r| && r[i].parent == r[j].parent ==> r[i].name != r[j].name
  }

  ghost predicate NameIn(subs: seq<Dir>, name: seq<int>) {
    exists i :: 0 <= i < |subs| && subs[i].name == name
  }

  /** A folder is listed after its parent, and siblings keep their different names. */
  lemma {:induction false} RowsOrdered(d: Dir, up: nat, n: nat)
    requires up < n && Named(d)
    ensures var r := Rows(d, up, n);
            Siblings(r) && forall i :: 0 < i < |r| ==> n <= r[i].parent < n + i
    decreases d, 0
  {
    SubRowsOrdered(d.subs, n, n + 1);
    var r, s := Rows(d, up, n), SubRows(d.subs, n, n + 1);
    assert forall i :: 0 < i < |r| ==> r[i] == s[i - 1];
  }

  lemma {:induction false} SubRowsOrdered(subs: seq<Dir>, up: nat, n: nat)
    requires up < n && NamedAll(subs)
    ensures var r := SubRows(subs, up, n);
            && Siblings(r)
            && (forall i :: 0 <= i < |r| ==> (r[i].parent == up && NameIn(subs, r[i].name)) || n <= r[i].parent < n + i)
    decreases subs, 1
  {
    if subs != [] {
      var a := Rows(subs[0], up, n);
      var m := n + |a|;
      var b := SubRows(subs[1..], up, m);
      var r := SubRows(subs, up, n);
      assert r == a + b;
      assert Named(subs[0]);
      RowsOrdered(subs[0], up, n);
      assert NamedAll(subs[1..]) by {
        assert forall i :: 0 <= i < |subs[1..]| ==> subs[1..][i] == subs[i + 1];
      }
      SubRowsOrdered(subs[1..], up, m);
      assert NameIn(subs, subs[0].name);
      forall name | NameIn(subs[1..], name) ensures NameIn(subs, name) && name != subs[0].name {
        var i :| 0 <= i < |subs[1..]| && subs[1..][i].name == name;
        assert subs[i + 1].name == name;
      }
      hide NamedAll, NameIn, Rows, SubRows;
      assert forall i :: 0 <= i < |a| ==> r[i] == a[i];
      assert forall i :: |a| <= i < |r| ==> r[i] == b[i - |a|];
    }
  }

  /** The path list of a tree, whatever its shape. */
  lemma {:induction false} PathList(d: Dir)
    requires Named(d)
    ensures var r := Rows(d, 0, 0);
            && Valid(r)
            && forall i, j :: 0 < i < j < |r| && r[i].parent == r[j].parent ==> r[i].name != r[j].name
  {
    SubRowsOrdered(d.subs, 0, 1);
    var r, s := Rows(d, 0, 0), SubRows(d.subs, 0, 1);
    assert r == [Row(0, d.name)] + s;
    hide Rows, SubRows, NameIn;
    assert forall i :: 0 < i < |r| ==> r[i] == s[i - 1];
  }

  // ----- every folder is listed -----

  /** There is a folder under these names, one inside the other. */
  ghost predicate HasFolder(d: Dir, names: seq<seq<int>>)
    decreases |names|
  {
    names == [] || exists i :: 0 <= i < |d.subs| && d.subs[i].name == names[0] && HasFolder(d.subs[i], names[1..])
  }

  /** The names from the root to a line of the path list, by the parents given there. */
  function NamesOf(rows: seq<Row>, k: nat): seq<seq<int>>
    requires Valid(rows) && k < |rows|
  {
    if k == 0 then [] else NamesOf(rows, rows[k].parent) + [rows[k].name]
  }

  predicate ListedFrom(rows: seq<Row>, n: nat, r: seq<Row>) {
    n + |r| <= |rows| && rows[n..n + |r|] == r
  }

  lemma {:induction false} ListedParts(rows: seq<Row>, n: nat, a: seq<Row>, b: seq<Row>)
    requires ListedFrom(rows, n, a + b)
    ensures ListedFrom(rows, n, a) && ListedFrom(rows, n + |a|, b)
  {
    var r := a + b;
    assert rows[n..n + |a|] == r[..|a|] && rows[n + |a|..n + |r|] == r[|a|..];
  }

  lemma {:induction false} RowsHave(rows: seq<Row>, d: Dir, up: nat, n: nat, names: seq<seq<int>>) returns (k: nat)
    requires Valid(rows) && ListedFrom(rows, n, Rows(d, up, n)) && HasFolder(d, names)
    ensures n <= k < n + |Rows(d, up, n)| && NamesOf(rows, k) == NamesOf(rows, n) + names
    decreases d, 0
  {
    hide NamesOf, HasFolder, Valid, SubRows;
    if names == [] {
      k := n;
      assert NamesOf(rows, n) + names == NamesOf(rows, n);
    } else {
      var i := FirstStep(d, names);
      ListedParts(rows, n, [Row(up, d.name)], SubRows(d.subs, n, n + 1));
      k := SubRowsHave(rows, d.subs, n, n + 1, i, names[1..]);
      Apart(NamesOf(rows, n), names);
    }
  }

  lemma {:induction false} FirstStep(d: Dir, names: seq<seq<int>>) returns (i: nat)
    requires HasFolder(d, names) && names != []
    ensures i < |d.subs| && d.subs[i].name == names[0] && HasFolder(d.subs[i], names[1..])
  {
    i :| 0 <= i < |d.subs| && d.subs[i].name == names[0] && HasFolder(d.subs[i], names[1..]);
  }

  lemma {:induction false} Apart(a: seq<seq<int>>, names: seq<seq<int>>)
    requires names != []
    ensures a + [names[0]] + names[1..] == a + names
  {
  }

  lemma {:induction false} SubRowsHave(rows: seq<Row>, subs: seq<Dir>, up: nat, n: nat, i: nat, names: seq<seq<int>>) returns (k: nat)
    requires Valid(rows) && up < n && ListedFrom(rows, n, SubRows(subs, up, n)) && i < |subs| && HasFolder(subs[i], names)
    ensures n <= k < n + |SubRows(subs, up, n)| && NamesOf(rows, k) == NamesOf(rows, up) + [subs[i].name] + names
    decreases subs, 1
  {
    var a := Rows(subs[0], up, n);
    ListedParts(rows, n, a, SubRows(subs[1..], up, n + |a|));
    if i == 0 {
      assert rows[n] == a[0];
      k := RowsHave(rows, subs[0], up, n, names);
    } else {
      k := SubRowsHave(rows, subs[1..], up, n + |a|, i - 1, names);
    }
  }

  lemma {:induction false} RowsOnly(rows: seq<Row>, d: Dir, up: nat, n: nat, k: nat) returns (names: seq<seq<int>>)
    requires Valid(rows) && ListedFrom(rows, n, Rows(d, up, n)) && n <= k < n + |Rows(d, up, n)|
    ensures HasFolder(d, names) && NamesOf(rows, k) == NamesOf(rows, n) + names
    decreases d, 0
  {
    if k == n {
      names := [];
      assert NamesOf(rows, n) + names == NamesOf(rows, n);
    } else {
      ListedParts(rows, n, [Row(up, d.name)], SubRows(d.subs, n, n + 1));
      var i, rest := SubRowsOnly(rows, d.subs, n, n + 1, k);
      names := [d.subs[i].name] + rest;
      assert names[1..] == rest;
      assert NamesOf(rows, n) + [d.subs[i].name] + rest == NamesOf(rows, n) + names;
    }
  }

  lemma {:induction false} SubRowsOnly(rows: seq<Row>, subs: seq<Dir>, up: nat, n: nat, k: nat) returns (i: nat, names: seq<seq<int>>)
    requires Valid(rows) && up < n && ListedFrom(rows, n, SubRows(subs, up, n)) && n <= k < n + |SubRows(subs, up, n)|
    ensures i < |subs| && HasFolder(subs[i], names) && NamesOf(rows, k) == NamesOf(rows, up) + [subs[i].name] + names
    decreases subs, 1
  {
    var a := Rows(subs[0], up, n);
    ListedParts(rows, n, a, SubRows(subs[1..], up, n + |a|));
    if k < n + |a| {
      assert rows[n] == a[0];
      names := RowsOnly(rows, subs[0], up, n, k);
      i := 0;
    } else {
      i, names := SubRowsOnly(rows, subs[1..], up, n + |a|, k);
      i := i + 1;
    }
  }

  /** The path list has every folder of the tree, under its full path, and nothing else. */
  lemma {:induction false} EveryFolderListed(d: Dir, names: seq<seq<int>>)
    requires Named(d)
    ensures Valid(Rows(d, 0, 0))
    ensures HasFolder(d, names) <==> exists k :: 0 <= k < |Rows(d, 0, 0)| && NamesOf(Rows(d, 0, 0), k) == names
  {
    PathList(d);
    var r := Rows(d, 0, 0);
    assert r[0..|r|] == r;
    if HasFolder(d, names) {
      var k := RowsHave(r, d, 0, 0, names);
      assert NamesOf(r, k) == names;
    }
    if k :| 0 <= k < |r| && NamesOf(r, k) == names {
      var only := RowsOnly(r, d, 0, 0, k);
      assert NamesOf(r, 0) + only == only;
    }
  }

  /** And it has every folder once: when siblings differ in name, no two lines have the same path. */
  lemma {:induction false} ListedOnce(rows: seq<Row>, i: nat, j: nat)
    requires Valid(rows) && i < |rows| && j < |rows| && NamesOf(rows, i) == NamesOf(rows, j)
    requires forall a, b :: 0 < a < b < |rows| && rows[a].parent == rows[b].parent ==> rows[a].name != rows[b].name
    ensures i == j
  {
    RootFirst(rows, i);
    RootFirst(rows, j);
    if i > 0 && j > 0 {
      var a, b := NamesOf(rows, rows[i].parent), NamesOf(rows, rows[j].parent);
      SameEnds(a, rows[i].name, b, rows[j].name);
      ListedOnce(rows, rows[i].parent, rows[j].parent);
    }
  }

  lemma {:induction false} RootFirst(rows: seq<Row>, k: nat)
    requires Valid(rows) && k < |rows|
    ensures NamesOf(rows, k) == [] <==> k == 0
  {
  }

  lemma {:induction false} SameEnds<T>(a: seq<T>, x: T, b: seq<T>, y: T)
    requires a + [x] == b + [y]
    ensures a == b && x == y
  {
    assert a == (a + [x])[..|a|] && b == (b + [y])[..|b|];
    assert (a + [x])[|a|] == x;
  }

  // ----- the loop -----

  /** Where a directory lies on the target. */
  datatype Span = Span(start: int, length: nat)

  ghost predicate Valid(rows: seq<Row>) {
    rows != [] && forall k :: 0 < k < |rows| ==> rows[k].parent < k
  }

  /** The folders listed in each folder, in any order. */
  ghost predicate Lists(rows: seq<Row>, listing: seq<seq<nat>>) {
    |listing| == |rows| && forall i :: 0 <= i < |rows| ==> Children(rows, i, listing[i])
  }

  predicate Children(rows: seq<Row>, i: nat, cs: seq<nat>) {
    forall j :: 0 <= j < |cs| ==> i < cs[j] < |rows| && rows[cs[j]].parent == i
  }

  /** On a CD the root is its own parent; on a FAT volume it has no dot-dot record. */
  predicate HasUp(k: nat, rootToo: bool) {
    k > 0 || rootToo
  }

  function Own(rows: seq<Row>, k: nat): nat
    requires k < |rows|
  {
    if k == 0 then 0 else rows[k].parent
  }

  /** The bytes taken by folder `i` and all that are written before it. */
  function Tail(size: seq<nat>, i: nat): nat
    requires i <= |size|
    decreases |size| - i
  {
    if i == |size| then 0 else size[i] + Tail(size, i + 1)
  }

  function PlaceOf(size: seq<nat>, base: int, i: nat): Span
    requires i < |size|
  {
    Span(base + Tail(size, i + 1), size[i])
  }

  function PlacesOf(size: seq<nat>, base: int, cs: seq<nat>): seq<Span>
    requires forall j :: 0 <= j < |cs| ==> cs[j] < |size|
  {
    if cs == [] then [] else PlacesOf(size, base, cs[..|cs| - 1]) + [PlaceOf(size, base, cs[|cs| - 1])]
  }

  /** The folders from `i` on whose dot-dot record waits for folder `p`, the last first. */
  function Waiting(rows: seq<Row>, rootToo: bool, p: nat, i: nat): seq<nat>
    requires i <= |rows|
    decreases |rows| - i
  {
    if i == |rows| then [] else
    Waiting(rows, rootToo, p, i + 1) + if HasUp(i, rootToo) && Own(rows, i) == p then [i] else []
  }

  lemma {:induction false} WaitingIs(rows: seq<Row>, rootToo: bool, p: nat, i: nat)
    requires i <= |rows|
    ensures forall k: nat :: multiset(Waiting(rows, rootToo, p, i))[k]
                          == if i <= k < |rows| && HasUp(k, rootToo) && Own(rows, k) == p then 1 else 0
    decreases |rows| - i
  {
    hide *;
    WaitingStep(rows, rootToo, p, i);
    if i < |rows| { WaitingIs(rows, rootToo, p, i + 1); }
  }

  lemma {:induction false} WaitingStep(rows: seq<Row>, rootToo: bool, p: nat, i: nat)
    requires i <= |rows|
    ensures i == |rows| ==> Waiting(rows, rootToo, p, i) == []
    ensures i < |rows| ==>
      multiset(Waiting(rows, rootToo, p, i))
      == multiset(Waiting(rows, rootToo, p, i + 1)) + if HasUp(i, rootToo) && Own(rows, i) == p then multiset{i} else multiset{}
  {
  }

  function At(parents: map<nat, seq<nat>>, p: nat): seq<nat> {
    if p in parents then parents[p] else []
  }

  /** The directories in the order they are listed, each on a medium of its own. */
  function Extents(size: seq<nat>, first: nat, i: nat): seq<Extent>
    requires i <= |size|
    decreases |size| - i
  {
    if i == |size| then [] else Extents(size, first, i + 1) + [Extent(0, size[i], Medium(first + i))]
  }

  ghost predicate Used(waiting: seq<nat>, own: Span, up: map<nat, Span>, writes: multiset<nat>, up': map<nat, Span>, writes': multiset<nat>) {
    && (forall k: nat :: k in up' <==> k in up || k in multiset(waiting))
    && (forall k: nat :: k in up' ==> up'[k] == if k in multiset(waiting) then own else up[k])
    && writes' == writes + multiset(waiting)
  }

  /** Uses the waiting fixups: stores a directory's place in the dot-dot records below it. */
  method Catchup(waiting: seq<nat>, own: Span, up: map<nat, Span>, writes: multiset<nat>)
    returns (up': map<nat, Span>, writes': multiset<nat>)
    ensures Used(waiting, own, up, writes, up', writes')
  {
    up', writes' := up, writes;
    for j := 0 to |waiting|
      invariant forall k: nat :: k in up' <==> k in up || k in multiset(waiting[..j])
      invariant forall k: nat :: k in up' ==> up'[k] == if k in multiset(waiting[..j]) then own else up[k]
      invariant writes' == writes + multiset(waiting[..j])
    {
      assert waiting[..j + 1] == waiting[..j] + [waiting[j]];
      up' := up'[waiting[j] := own];
      writes' := writes' + multiset{waiting[j]};
    }
    assert waiting[..|waiting|] == waiting;
  }

  ghost predicate Done(rows: seq<Row>, rootToo: bool, i: nat, k: nat) {
    i <= k < |rows| && HasUp(k, rootToo) && i <= Own(rows, k)
  }

  ghost predicate PlacesDone(size: seq<nat>, base: int, i: nat, fsFolders: map<nat, Span>) {
    forall k: nat :: (k in fsFolders <==> i <= k < |size|) && (i <= k < |size| ==> fsFolders[k] == PlaceOf(size, base, k))
  }

  ghost predicate Pending(rows: seq<Row>, rootToo: bool, i: nat, parents: map<nat, seq<nat>>)
    requires i <= |rows|
  {
    forall p: nat :: At(parents, p) == Waiting(rows, rootToo, p, i)
  }

  ghost predicate UpDone(rows: seq<Row>, rootToo: bool, size: seq<nat>, base: int, i: nat, up: map<nat, Span>, writes: multiset<nat>)
    requires |size| == |rows| && Valid(rows)
  {
    forall k: nat ::
      && (k in up <==> Done(rows, rootToo, i, k))
      && (Done(rows, rootToo, i, k) ==> up[k] == PlaceOf(size, base, Own(rows, k)))
      && writes[k] == if Done(rows, rootToo, i, k) then 1 else 0
  }

  ghost predicate SubsDone(rows: seq<Row>, size: seq<nat>, base: int, listing: seq<seq<nat>>, i: nat, subs: map<nat, seq<Span>>)
    requires |rows| == |size| && Lists(rows, listing)
  {
    forall k: nat :: (k in subs <==> i <= k < |size|) && (i <= k < |size| ==> Children(rows, k, listing[k]) && subs[k] == PlacesOf(size, base, listing[k]))
  }

  lemma {:induction false} CatchupDone(rows: seq<Row>, rootToo: bool, size: seq<nat>, base: int, i: nat,
                                       up: map<nat, Span>, writes: multiset<nat>, up': map<nat, Span>, writes': multiset<nat>)
    requires Valid(rows) && |size| == |rows| && i < |rows| && UpDone(rows, rootToo, size, base, i + 1, up, writes)
    requires Used(Waiting(rows, rootToo, i, i), PlaceOf(size, base, i), up, writes, up', writes')
    ensures UpDone(rows, rootToo, size, base, i, up', writes')
  {
    WaitingIs(rows, rootToo, i, i);
    forall k: nat
      ensures && (k in up' <==> Done(rows, rootToo, i, k))
              && (Done(rows, rootToo, i, k) ==> up'[k] == PlaceOf(size, base, Own(rows, k)))
              && writes'[k] == if Done(rows, rootToo, i, k) then 1 else 0
    {
      assert Done(rows, rootToo, i, k) <==> Done(rows, rootToo, i + 1, k) || k in multiset(Waiting(rows, rootToo, i, i));
    }
  }

  /** The places of the folders listed in a folder: all are recorded already. */
  method SubPlaces(cs: seq<nat>, fsFolders: map<nat, Span>, ghost size: seq<nat>, ghost base: int, ghost i: nat) returns (recs: seq<Span>)
    requires PlacesDone(size, base, i, fsFolders) && forall j :: 0 <= j < |cs| ==> i <= cs[j] < |size|
    ensures recs == PlacesOf(size, base, cs)
  {
    recs := [];
    for j := 0 to |cs|
      invariant recs == PlacesOf(size, base, cs[..j])
    {
      assert cs[..j + 1][..j] == cs[..j];
      recs := recs + [fsFolders[cs[j]]];
    }
    assert cs[..|cs|] == cs;
  }

  lemma {:induction false} SubsStep(rows: seq<Row>, size: seq<nat>, base: int, listing: seq<seq<nat>>, i: nat, subs: map<nat, seq<Span>>, recs: seq<Span>)
    requires |rows| == |size| && Lists(rows, listing) && i < |rows| && SubsDone(rows, size, base, listing, i + 1, subs)
    requires Children(rows, i, listing[i]) && recs == PlacesOf(size, base, listing[i])
    ensures SubsDone(rows, size, base, listing, i, subs[i := recs])
  {
  }

  lemma {:induction false} PlacesStep(size: seq<nat>, base: int, i: nat, fsFolders: map<nat, Span>, own: Span)
    requires i < |size| && PlacesDone(size, base, i + 1, fsFolders) && own == PlaceOf(size, base, i)
    ensures PlacesDone(size, base, i, fsFolders[i := own])
  {
  }

  /** The fixup of folder `i` joins those that wait for its parent. */
  function Queued(rows: seq<Row>, rootToo: bool, i: nat, parents: map<nat, seq<nat>>): map<nat, seq<nat>>
    requires i < |rows|
  {
    var p := Own(rows, i);
    if HasUp(i, rootToo) then parents[p := At(parents, p) + [i]] else parents
  }

  lemma {:induction false} PendingStep(rows: seq<Row>, rootToo: bool, i: nat, parents: map<nat, seq<nat>>)
    requires i < |rows| && Pending(rows, rootToo, i + 1, parents)
    ensures Pending(rows, rootToo, i, Queued(rows, rootToo, i, parents))
  {
    forall q: nat ensures Waiting(rows, rootToo, q, i) == Waiting(rows, rootToo, q, i + 1) + if HasUp(i, rootToo) && Own(rows, i) == q then [i] else [] { }
    hide Waiting;
  }

  lemma {:induction false} PendingAt(rows: seq<Row>, rootToo: bool, i: nat, parents: map<nat, seq<nat>>)
    requires i <= |rows| && Pending(rows, rootToo, i, parents)
    ensures At(parents, i) == Waiting(rows, rootToo, i, i)
  {
  }

  /** What the loop records: where each directory lies, the fixups that wait for it, the places each
      listing gives for its folders, the place each dot-dot record was given, and which were written. */
  datatype Plan = Plan(fsFolders: map<nat, Span>, parents: map<nat, seq<nat>>, subs: map<nat, seq<Span>>,
                       up: map<nat, Span>, writes: multiset<nat>)

  ghost predicate Planned(rows: seq<Row>, listing: seq<seq<nat>>, size: seq<nat>, base: int, rootToo: bool, i: nat, plan: Plan)
    requires Valid(rows) && Lists(rows, listing) && |size| == |rows| && i <= |rows|
  {
    && PlacesDone(size, base, i, plan.fsFolders)
    && SubsDone(rows, size, base, listing, i, plan.subs)
    && Pending(rows, rootToo, i, plan.parents)
    && UpDone(rows, rootToo, size, base, i, plan.up, plan.writes)
  }

  /** One folder: its listing, its fixup, its place, and the fixups that waited for it. */
  method PlanFolder(rows: seq<Row>, listing: seq<seq<nat>>, ghost size: seq<nat>, ghost base: int, rootToo: bool, i: nat, own: Span, plan: Plan)
    returns (next: Plan)
    requires Valid(rows) && Lists(rows, listing) && |size| == |rows| && i < |rows|
    requires own == PlaceOf(size, base, i) && Planned(rows, listing, size, base, rootToo, i + 1, plan)
    ensures Planned(rows, listing, size, base, rootToo, i, next)
  {
    assert Children(rows, i, listing[i]);
    var recs := SubPlaces(listing[i], plan.fsFolders, size, base, i + 1);
    hide Lists, PlacesDone, SubsDone, Pending, UpDone, Children, Valid, PlaceOf, Used, Waiting, PlacesOf, Queued;
    SubsStep(rows, size, base, listing, i, plan.subs, recs);
    var subs := plan.subs[i := recs];
    PendingStep(rows, rootToo, i, plan.parents);
    var parents := Queued(rows, rootToo, i, plan.parents);
    PlacesStep(size, base, i, plan.fsFolders, own);
    var fsFolders := plan.fsFolders[i := own];
    PendingAt(rows, rootToo, i, parents);
    var up, writes := Catchup(At(parents, i), own, plan.up, plan.writes);
    CatchupDone(rows, rootToo, size, base, i, plan.up, plan.writes, up, writes);
    next := Plan(fsFolders, parents, subs, up, writes);
  }

  lemma {:induction false} NextDown(size: seq<nat>, first: nat, i: nat, was: seq<Extent>)
    requires i < |size|
    ensures was + Extents(size, first, i) == was + Extents(size, first, i + 1) + [Extent(0, size[i], Medium(first + i))]
    ensures Tail(size, i) == size[i] + Tail(size, i + 1)
  {
  }

  lemma {:induction false} PlaceIs(size: seq<nat>, base: int, i: nat)
    requires i < |size|
    ensures PlaceOf(size, base, i) == Span(base + Tail(size, i + 1), size[i])
  {
  }

  lemma {:induction false} NothingPlanned(rows: seq<Row>, listing: seq<seq<nat>>, size: seq<nat>, first: nat, base: int, rootToo: bool)
    requires Valid(rows) && Lists(rows, listing) && |size| == |rows|
    ensures Extents(size, first, |size|) == [] && Tail(size, |size|) == 0
    ensures Planned(rows, listing, size, base, rootToo, |rows|, Plan(map[], map[], map[], map[], multiset{}))
  {
    hide Lists;
  }

  /** Lays the directories out, the last folder first. `size[i]` is the padded length of directory `i`,
      `shift` the way from the temporary medium to the target. */
  method PlanFolders(rows: seq<Row>, listing: seq<seq<nat>>, size: seq<nat>, first: nat, rootToo: bool, tmp: Planner, shift: int)
    returns (plan: Plan)
    requires Valid(rows) && Lists(rows, listing) && |size| == |rows| && tmp.Valid()
    requires forall i :: 0 <= i < |size| ==> size[i] > 0
    modifies tmp`extlist, tmp`offset
    ensures tmp.Valid() && tmp.extlist == old(tmp.extlist) + Extents(size, first, 0)
    ensures tmp.offset == old(tmp.offset) + Tail(size, 0)
    ensures Planned(rows, listing, size, old(tmp.offset) + shift, rootToo, 0, plan)
  {
    plan := Plan(map[], map[], map[], map[], multiset{});
    ghost var start, was := tmp.offset, tmp.extlist;
    ghost var base := start + shift;
    hide *;
    NothingPlanned(rows, listing, size, first, base, rootToo);
    for i := |rows| downto 0
      invariant tmp.Valid() && tmp.extlist == was + Extents(size, first, i) && tmp.offset == start + Tail(size, i)
      invariant Planned(rows, listing, size, base, rootToo, i, plan)
    {
      NextDown(size, first, i, was);
      PlaceIs(size, base, i);
      plan := PlanFolder(rows, listing, size, base, rootToo, i, Span(tmp.offset + shift, size[i]), plan);
      var _, _ := tmp.Append(Extent(0, size[i], Medium(first + i)));
    }
  }

  // ----- what the loop arrives at -----

  /** Every dot-dot record was written once, with the final place of the real parent's directory, and
      every listing gives the final places of its folders. */
  lemma {:induction false} RecordsPointRight(rows: seq<Row>, listing: seq<seq<nat>>, size: seq<nat>, base: int, rootToo: bool, plan: Plan, k: nat)
    requires Valid(rows) && Lists(rows, listing) && |size| == |rows| && k < |rows|
    requires Planned(rows, listing, size, base, rootToo, 0, plan)
    ensures var up := if k == 0 then 0 else rows[k].parent;
            && k in plan.fsFolders && k in plan.subs && up in plan.fsFolders
            && plan.writes[k] == (if k > 0 || rootToo then 1 else 0)
            && (k > 0 || rootToo ==> k in plan.up && plan.up[k] == plan.fsFolders[up])
    ensures |plan.subs[k]| == |listing[k]|
    ensures forall j :: 0 <= j < |listing[k]| ==> listing[k][j] in plan.fsFolders && plan.subs[k][j] == plan.fsFolders[listing[k][j]]
  {
    assert Own(rows, k) < |rows|;
    assert Done(rows, rootToo, 0, k) <==> HasUp(k, rootToo);
    assert Children(rows, k, listing[k]);
    PlacesAt(size, base, listing[k]);
    hide Lists, Children, PlacesOf;
  }

  lemma {:induction false} PlacesAt(size: seq<nat>, base: int, cs: seq<nat>)
    requires forall j :: 0 <= j < |cs| ==> cs[j] < |size|
    ensures var s := PlacesOf(size, base, cs);
            |s| == |cs| && forall j :: 0 <= j < |cs| ==> s[j] == PlaceOf(size, base, cs[j])
  {
    hide PlaceOf;
    if cs != [] {
      PlacesAt(size, base, cs[..|cs| - 1]);
      assert PlacesOf(size, base, cs) == PlacesOf(size, base, cs[..|cs| - 1]) + [PlaceOf(size, base, cs[|cs| - 1])];
      hide PlacesOf;
    }
  }

  /** Directories do not overlap, and start on blocks. */
  lemma {:induction false} DirectoriesApart(size: seq<nat>, base: nat, i: nat, j: nat, blkSz: nat)
    requires i < j < |size| && blkSz > 0 && base % blkSz == 0
    requires forall k :: 0 <= k < |size| ==> size[k] % blkSz == 0
    ensures var p, q := PlaceOf(size, base, i), PlaceOf(size, base, j);
            q.start + q.length <= p.start && p.start % blkSz == 0 && q.start % blkSz == 0
  {
    TailFalls(size, i + 1, j);
    TailAligned(size, i + 1, blkSz);
    TailAligned(size, j + 1, blkSz);
    Multiple(base, Tail(size, i + 1), blkSz);
    Multiple(base, Tail(size, j + 1), blkSz);
  }

  lemma {:induction false} TailFalls(size: seq<nat>, i: nat, j: nat)
    requires i <= j <= |size|
    ensures Tail(size, j) <= Tail(size, i)
    decreases j - i
  {
    if i < j { TailFalls(size, i + 1, j); }
  }

  lemma {:induction false} TailAligned(size: seq<nat>, i: nat, blkSz: nat)
    requires i <= |size| && blkSz > 0 && forall k :: 0 <= k < |size| ==> size[k] % blkSz == 0
    ensures Tail(size, i) % blkSz == 0
    decreases |size| - i
  {
    if i < |size| {
      TailAligned(size, i + 1, blkSz);
      Multiple(size[i], Tail(size, i + 1), blkSz);
    } else {
      Quotient(0, 0, blkSz);
    }
  }

  lemma {:induction false} ExtentsSplit(size: seq<nat>, first: nat, i: nat, j: nat) returns (rest: seq<Extent>)
    requires i <= j <= |size|
    ensures Extents(size, first, i) == Extents(size, first, j) + rest
    decreases j - i
  {
    if i == j {
      rest := [];
    } else {
      rest := ExtentsSplit(size, first, i + 1, j);
      rest := rest + [Extent(0, size[i], Medium(first + i))];
    }
  }

  lemma {:induction false} ExtentsLength(media: Media, size: seq<nat>, first: nat, i: nat)
    requires i <= |size|
    ensures |Burnt(media, Extents(size, first, i))| == Tail(size, i)
    decreases |size| - i
  {
    if i < |size| {
      ExtentsLength(media, size, first, i + 1);
      var list := Extents(size, first, i);
      assert list[..|list| - 1] == Extents(size, first, i + 1);
    }
  }

  /** The bytes of directory `i` on the temporary medium. */
  lemma {:induction false} DirectoryInTmp(media: Media, size: seq<nat>, first: nat, i: nat, before: seq<Extent>, after: seq<Extent>)
    requires i < |size|
    ensures Located(Burnt(media, before + Extents(size, first, 0) + after), |Burnt(media, before)| + Tail(size, i + 1),
                    Content(media, Extent(0, size[i], Medium(first + i))))
  {
    hide Burnt, Content, Extents, Tail, Located;
    var x := Extent(0, size[i], Medium(first + i));
    var last := Extents(size, first, i + 1);
    var tail := ExtentsAt(size, first, i);
    Regroup(before, last, x, tail, after);
    ExtentsLength(media, size, first, i + 1);
    BurntConcat(media, before, last);
    BurntAt(media, before + last, x, tail + after);
  }

  lemma {:induction false} ExtentsAt(size: seq<nat>, first: nat, i: nat) returns (tail: seq<Extent>)
    requires i < |size|
    ensures Extents(size, first, 0) == Extents(size, first, i + 1) + [Extent(0, size[i], Medium(first + i))] + tail
  {
    tail := ExtentsSplit(size, first, 0, i);
  }

  lemma {:induction false} Regroup(before: seq<Extent>, last: seq<Extent>, x: Extent, tail: seq<Extent>, after: seq<Extent>)
    ensures before + (last + [x] + tail) + after == before + last + [x] + (tail + after)
  {
  }

  /** A medium has been written. */
  ghost predicate Holds(media: Media, id: nat, bytes: Bytes) {
    forall k: nat :: k < |bytes| ==> media(id, k) == bytes[k]
  }

  /** The place computed for a directory before it was written is where its bytes are on the target,
      once the temporary medium has been written and has become one extent of the target. */
  lemma {:induction false} DirectoryOnTarget(media: Media, tmp: Bytes, target: Bytes, size: seq<nat>, first: nat, i: nat, home: nat,
                                             before: seq<Extent>, after: seq<Extent>, out: seq<Extent>, rest: seq<Extent>, inner: nat, length: nat)
    requires i < |size| && Holds(media, home, tmp)
    requires tmp == Burnt(media, before + Extents(size, first, 0) + after)
    requires target == Burnt(media, out + [Extent(inner, length, Medium(home))] + rest)
    requires inner <= |Burnt(media, before)| && |Burnt(media, before)| + Tail(size, 0) <= inner + length <= |tmp|
    ensures Located(target, PlaceOf(size, |Burnt(media, before)| + |Burnt(media, out)| - inner, i).start,
                    Content(media, Extent(0, size[i], Medium(first + i))))
  {
    hide Burnt, Content, Extents, Located, Holds, Tail;
    var x, start := Extent(0, size[i], Medium(first + i)), |Burnt(media, before)|;
    var from := start + Tail(size, i + 1);
    DirectoryInTmp(media, size, first, i, before, after);
    assert Located(tmp, from, Content(media, x));
    TailRoom(size, i);
    DirectoryLength(media, x);
    CarriedOver(media, tmp, target, from, Content(media, x), home, out, rest, inner, length);
  }

  lemma {:induction false} DirectoryLength(media: Media, x: Extent)
    requires x.length >= 0
    ensures |Content(media, x)| == x.length
  {
  }

  lemma {:induction false} TailRoom(size: seq<nat>, i: nat)
    requires i < |size|
    ensures Tail(size, i + 1) + size[i] <= Tail(size, 0)
  {
    TailFalls(size, 0, i);
  }

  /** What lies on the temporary medium lies on the target that takes in its extent. */
  lemma {:induction false} CarriedOver(media: Media, tmp: Bytes, target: Bytes, from: nat, bytes: Bytes, home: nat,
                                       out: seq<Extent>, rest: seq<Extent>, inner: nat, length: nat)
    requires Located(tmp, from, bytes) && Holds(media, home, tmp)
    requires inner <= from && from + |bytes| <= inner + length <= |tmp|
    requires target == Burnt(media, out + [Extent(inner, length, Medium(home))] + rest)
    ensures Located(target, |Burnt(media, out)| + (from - inner), bytes)
  {
    hide Located, Holds, Burnt, Content;
    var h := Extent(inner, length, Medium(home));
    BurntAt(media, out, h, rest);
    HomeIs(media, home, tmp, inner, length);
    Within(target, tmp, |Burnt(media, out)|, inner, length, from, bytes);
  }

  lemma {:induction false} HomeIs(media: Media, home: nat, tmp: Bytes, inner: nat, length: nat)
    requires inner + length <= |tmp| && Holds(media, home, tmp)
    ensures Content(media, Extent(inner, length, Medium(home))) == tmp[inner..inner + length]
  {
  }

  lemma {:induction false} Within(target: Bytes, tmp: Bytes, at: nat, inner: nat, length: nat, from: nat, bytes: Bytes)
    requires inner + length <= |tmp| && Located(target, at, tmp[inner..inner + length]) && Located(tmp, from, bytes)
    requires inner <= from && from + |bytes| <= inner + length
    ensures Located(target, at + (from - inner), bytes)
  {
    var b := tmp[inner..inner + length];
    var d, n := from - inner, |bytes|;
    forall k | 0 <= k < n ensures target[at + d..at + d + n][k] == bytes[k] {
      assert target[at + d..at + d + n][k] == target[at..at + length][d + k] == b[d + k] == tmp[from + k];
      assert bytes[k] == tmp[from..from + n][k];
    }
  }
}
