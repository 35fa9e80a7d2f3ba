/** How a host looks a key up in a B-tree, and what one packed level must look like for that to work. */
module HfsSearch {
  import opened Bytes
  import opened Lexical
  import opened HfsNode
  import opened Options

  /** A binding of a map. */
  datatype Binding = Binding(key: Key, payload: Bytes)

  function KeyOf(r: Rec): Key {
    if r.Keyed? || r.Pointer? then r.key else []
  }

  /** A `std::map` in its iteration order: keys strictly increasing. */
  predicate Sorted(recs: seq<Rec>) {
    forall i, j :: 0 <= i < j < |recs| ==> Less(KeyOf(recs[i]), KeyOf(recs[j]))
  }

  /** The records list exactly the bindings of a map. */
  predicate Lists(recs: seq<Rec>, m: map<Key, Bytes>) {
    && Sorted(recs)
    && (forall r :: r in recs ==> r.Keyed? && r.key in m && r.payload == m[r.key])
    && (forall k :: k in m ==> exists i :: 0 <= i < |recs| && KeyOf(recs[i]) == k)
  }

  /** How many leading records have keys not above `k`; the last of them is where a search goes on. */
  function Rank(recs: seq<Rec>, k: Key): (r: nat)
    ensures r <= |recs|
    ensures forall i :: 0 <= i < r ==> !Less(k, KeyOf(recs[i]))
    ensures r < |recs| ==> Less(k, KeyOf(recs[r]))
  {
    if recs == [] || Less(k, KeyOf(recs[0])) then 0 else 1 + Rank(recs[1..], k)
  }

  /** The child an index record points to. */
  function ChildOf(r: Rec): nat {
    if r.Pointer? then r.child else 0
  }

  /** The search of TN1150: at each level take the last record whose key is not above `k`. What it
      arrives at is the binding with the greatest key not above `k`. */
  function Search(nodes: seq<Node>, n: nat, depth: nat, k: Key): Option<Binding>
    decreases depth
  {
    if depth == 0 || n >= |nodes| then None else
    var recs := nodes[n].recs;
    var r := Rank(recs, k);
    if r == 0 then None
    else if depth > 1 then Search(nodes, ChildOf(recs[r - 1]), depth - 1, k)
    else if recs[r - 1].Keyed? then Some(Binding(recs[r - 1].key, recs[r - 1].payload))
    else None
  }

  /** Searching on from a list of index records whose children have height `depth`. */
  function SearchVia(nodes: seq<Node>, index: seq<Rec>, depth: nat, k: Key): Option<Binding> {
    var r := Rank(index, k);
    if r == 0 then None else Search(nodes, ChildOf(index[r - 1]), depth, k)
  }

  /** The binding of a map with the greatest key not above `k`, if there is any. */
  ghost predicate IsFloor(m: map<Key, Bytes>, k: Key, b: Option<Binding>) {
    match b
    case None => forall h :: h in m ==> Less(k, h)
    case Some(Binding(key, payload)) =>
      key in m && m[key] == payload && !Less(k, key) && forall h :: h in m && !Less(k, h) ==> !Less(key, h)
  }

  function Lookup(m: map<Key, Bytes>, k: Key): Option<Bytes> {
    if k in m then Some(m[k]) else None
  }

  /** The value of the key itself. */
  function Exact(b: Option<Binding>, k: Key): Option<Bytes> {
    if b.Some? && b.value.key == k then Some(b.value.payload) else None
  }

  lemma {:induction false} FloorIsExact(m: map<Key, Bytes>, k: Key, b: Option<Binding>)
    requires IsFloor(m, k, b)
    ensures Exact(b, k) == Lookup(m, k)
  {
    Irreflexive(k);
    if k in m && b.Some? { Trichotomy(b.value.key, k); }
  }

  function Flatten(nodes: seq<Node>): seq<Rec> {
    if nodes == [] then [] else nodes[0].recs + Flatten(nodes[1..])
  }

  function KindAt(height: nat): NodeKind {
    if height <= 1 then LeafNode else IndexNode
  }

  /** No node is empty or overfull, and each is filled until the next record no longer fits. */
  predicate Packed(fmt: KeyFormat, nodes: seq<Node>, capacity: nat) {
    && (forall j :: 0 <= j < |nodes| ==>
          nodes[j].recs != [] && Occupied(fmt, nodes[j].recs) <= capacity)
    && (forall j :: 0 <= j < |nodes| - 1 ==>
          Occupied(fmt, nodes[j].recs + [nodes[j + 1].recs[0]]) > capacity)
  }

  /** Nodes numbered from `base`, linked both ways in a row. */
  predicate Chained(nodes: seq<Node>, base: nat) {
    forall j :: 0 <= j < |nodes| ==>
      && nodes[j].fLink == (if j + 1 < |nodes| then base + j + 1 else 0)
      && nodes[j].bLink == (if j > 0 then base + j - 1 else 0)
  }

  /** The index lists the first key and the number of each node. */
  predicate Indexes(index: seq<Rec>, nodes: seq<Node>, base: nat) {
    && |index| == |nodes|
    && (forall j :: 0 <= j < |nodes| ==>
          nodes[j].recs != [] && index[j] == Pointer(KeyOf(nodes[j].recs[0]), base + j))
  }

  /** The nodes hold `recs` in order, and are pointed to by `index` as nodes `base`, `base + 1`, ... */
  predicate Carries(nodes: seq<Node>, base: nat, recs: seq<Rec>, index: seq<Rec>) {
    Flatten(nodes) == recs && Indexes(index, nodes, base)
  }

  predicate OfHeight(nodes: seq<Node>, height: nat) {
    forall j :: 0 <= j < |nodes| ==> nodes[j].height == height && nodes[j].kind == KindAt(height)
  }

  // ----- searching one level -----

  lemma {:induction false} SortedParts(a: seq<Rec>, b: seq<Rec>)
    requires Sorted(a + b)
    ensures Sorted(a) && Sorted(b)
    ensures a != [] && b != [] ==> forall i :: 0 <= i < |a| ==> Less(KeyOf(a[i]), KeyOf(b[0]))
  {
    var c := a + b;
    assert forall i :: 0 <= i < |a| ==> a[i] == c[i];
    assert forall j :: 0 <= j < |b| ==> b[j] == c[|a| + j];
  }

  /** The rank of `k` in `a` followed by `b` reaches into `b` exactly when it is positive in `b`. */
  lemma {:induction false} RankConcat(a: seq<Rec>, b: seq<Rec>, k: Key)
    requires Sorted(a + b)
    ensures Rank(a + b, k) == if Rank(b, k) == 0 then Rank(a, k) else |a| + Rank(b, k)
  {
    var r := Rank(a + b, k);
    var want := if Rank(b, k) == 0 then Rank(a, k) else |a| + Rank(b, k);
    SortedParts(a, b);
    if Rank(b, k) > 0 {
      forall i | 0 <= i < |a| ensures !Less(k, KeyOf(a[i])) {
        if Less(k, KeyOf(a[i])) { Transitive(k, KeyOf(a[i]), KeyOf(b[0])); }
      }
    }
    assert want < |a + b| ==> Less(k, KeyOf((a + b)[want]));
    assert !(r < want) && !(want < r);
  }

  /** The last node whose first key is not above `k` holds the last record whose key is not above `k`. */
  predicate RankAgrees(nodes: seq<Node>, index: seq<Rec>, k: Key)
    requires |index| == |nodes|
  {
    var r, all := Rank(index, k), Flatten(nodes);
    if r == 0 then Rank(all, k) == 0 else
      var here := nodes[r - 1].recs;
      0 < Rank(all, k) && 0 < Rank(here, k) && all[Rank(all, k) - 1] == here[Rank(here, k) - 1]
  }

  /** The index gives the first key of every node, and none is empty. */
  predicate Leads(nodes: seq<Node>, index: seq<Rec>) {
    |index| == |nodes| && forall j :: 0 <= j < |nodes| ==> LeadsAt(nodes[j], index[j])
  }

  predicate LeadsAt(node: Node, r: Rec) {
    node.recs != [] && KeyOf(r) == KeyOf(node.recs[0])
  }

  lemma {:induction false} LeadsTail(nodes: seq<Node>, index: seq<Rec>)
    requires Leads(nodes, index) && nodes != []
    ensures LeadsAt(nodes[0], index[0]) && Leads(nodes[1..], index[1..])
  {
    forall j | 0 <= j < |nodes| - 1 ensures LeadsAt(nodes[1..][j], index[1..][j]) { assert LeadsAt(nodes[j + 1], index[j + 1]); }
  }

  /** A node in front of others. */
  lemma {:induction false} FlattenFirst(nodes: seq<Node>)
    requires nodes != []
    ensures Flatten(nodes) == nodes[0].recs + Flatten(nodes[1..])
  {
  }

  lemma {:induction false} RankStep(nodes: seq<Node>, index: seq<Rec>, k: Key)
    requires nodes != [] && |index| == |nodes| && LeadsAt(nodes[0], index[0]) && Sorted(Flatten(nodes))
    requires RankAgrees(nodes[1..], index[1..], k)
    ensures RankAgrees(nodes, index, k)
  {
    hide Flatten, Sorted, Less, KeyOf, Rank;
    var a, b := nodes[0].recs, Flatten(nodes[1..]);
    assert Flatten(nodes) == a + b by { FlattenFirst(nodes); }
    RankConcat(a, b, k);
    FirstRank(index, k);
    FirstRank(a, k);
    FirstRank(a + b, k);
    assert (a + b)[0] == a[0];
    var r := Rank(index[1..], k);
    var here := if r > 0 then Rank(nodes[r].recs, k) else 0;
    assert r > 0 ==> nodes[1..][r - 1] == nodes[r];
    Picked(nodes, a, b, Less(k, KeyOf(a[0])), r, here, Rank(a, k), Rank(b, k), Rank(a + b, k));
  }

  lemma {:induction false} Picked(nodes: seq<Node>, a: seq<Rec>, b: seq<Rec>, below: bool, r: nat, here: nat, ra: nat, rb: nat, rall: nat)
    requires nodes != [] && nodes[0].recs == a && r < |nodes| && ra <= |a| && rb <= |b|
    requires if below then ra == 0 && rall == 0 else ra > 0 && rall > 0
    requires rall == if rb == 0 then ra else |a| + rb
    requires if r == 0 then rb == 0 else 0 < rb && 0 < here <= |nodes[r].recs| && b[rb - 1] == nodes[r].recs[here - 1]
    ensures var n, h := if below then 0 else 1 + r, if r == 0 then ra else here;
            if n == 0 then rall == 0 else 0 < rall <= |a + b| && 0 < h <= |nodes[n - 1].recs| && (a + b)[rall - 1] == nodes[n - 1].recs[h - 1]
  {
  }

  lemma {:induction false} FirstRank(recs: seq<Rec>, k: Key)
    requires recs != []
    ensures Rank(recs, k) == if Less(k, KeyOf(recs[0])) then 0 else 1 + Rank(recs[1..], k)
  {
  }

  /** So it is in every list of nonempty nodes with sorted contents. */
  lemma {:induction false} RankInNodes(nodes: seq<Node>, index: seq<Rec>, k: Key)
    requires Leads(nodes, index) && Sorted(Flatten(nodes))
    ensures RankAgrees(nodes, index, k)
  {
    if nodes != [] {
      LeadsTail(nodes, index);
      assert Sorted(Flatten(nodes[1..])) by { SortedParts(nodes[0].recs, Flatten(nodes[1..])); }
      hide Sorted, Flatten, RankAgrees, Leads, LeadsAt;
      RankInNodes(nodes[1..], index[1..], k);
      RankStep(nodes, index, k);
    }
  }

  // ----- building upwards -----

  /** The record points to a node of the given height. */
  predicate Points(nodes: seq<Node>, r: Rec, height: nat) {
    && r.Pointer?
    && 1 <= ChildOf(r) < |nodes|
    && nodes[ChildOf(r)].height == height && nodes[ChildOf(r)].kind == KindAt(height)
  }

  /** Every index node points one level down, to nodes written before it. */
  predicate Wired(nodes: seq<Node>) {
    forall n :: 1 <= n < |nodes| ==> PointsDown(nodes[..n], nodes[n])
  }

  predicate PointsDown(before: seq<Node>, node: Node) {
    node.kind == IndexNode ==>
      node.height >= 2 && forall i :: 0 <= i < |node.recs| ==> Points(before, node.recs[i], node.height - 1)
  }

  /** Nodes added later, and the header node, do not change a search below an existing node. */
  lemma {:induction false} SearchStable(v: seq<Node>, w: seq<Node>, n: nat, depth: nat, k: Key)
    requires Wired(v) && |v| <= |w|
    requires forall i :: 1 <= i < |v| ==> v[i] == w[i]
    requires 1 <= n < |v| && v[n].height == depth >= 1 && v[n].kind == KindAt(depth)
    ensures Search(v, n, depth, k) == Search(w, n, depth, k)
    decreases depth
  {
    var r := Rank(v[n].recs, k);
    if r > 0 && depth > 1 {
      assert PointsDown(v[..n], v[n]);
      SearchStable(v, w, ChildOf(v[n].recs[r - 1]), depth - 1, k);
    }
  }

  lemma {:induction false} InFlatten(nodes: seq<Node>, j: nat, i: nat)
    requires j < |nodes| && i < |nodes[j].recs|
    ensures nodes[j].recs[i] in Flatten(nodes)
  {
    if j > 0 { InFlatten(nodes[1..], j - 1, i); }
  }

  lemma {:induction false} FlattenAppend(nodes: seq<Node>, node: Node)
    ensures Flatten(nodes + [node]) == Flatten(nodes) + node.recs
  {
    if nodes == [] {
      assert [node][1..] == [];
    } else {
      assert (nodes + [node])[1..] == nodes[1..] + [node];
      FlattenAppend(nodes[1..], node);
    }
  }

  lemma {:induction false} FirstKeysIncrease(nodes: seq<Node>, i: nat, j: nat)
    requires Sorted(Flatten(nodes)) && i < j < |nodes|
    requires forall j :: 0 <= j < |nodes| ==> nodes[j].recs != []
    ensures Less(KeyOf(nodes[i].recs[0]), KeyOf(nodes[j].recs[0]))
  {
    var a, b := nodes[0].recs, Flatten(nodes[1..]);
    SortedParts(a, b);
    if i > 0 {
      FirstKeysIncrease(nodes[1..], i - 1, j - 1);
    } else {
      InFlatten(nodes[1..], j - 1, 0);
      var x :| 0 <= x < |b| && b[x] == nodes[j].recs[0];
      assert (a + b)[|a| + x] == b[x] && (a + b)[0] == a[0];
    }
  }

  /** The index of a level lists its nodes by increasing first key. */
  lemma {:induction false} IndexOfLevel(v: seq<Node>, nodes: seq<Node>, height: nat, recs: seq<Rec>, index: seq<Rec>)
    requires Sorted(recs) && Carries(nodes, |v|, recs, index) && OfHeight(nodes, height)
    requires 1 <= |v|
    ensures Sorted(index)
    ensures forall j :: 0 <= j < |index| ==> Points(v + nodes, index[j], height)
  {
    forall i, j | 0 <= i < j < |index| ensures Less(KeyOf(index[i]), KeyOf(index[j])) {
      FirstKeysIncrease(nodes, i, j);
    }
    forall j | 0 <= j < |index| ensures Points(v + nodes, index[j], height) {
      assert (v + nodes)[|v| + j] == nodes[j];
    }
  }

  lemma {:induction false} ListsSorted(recs: seq<Rec>, m: map<Key, Bytes>)
    requires Lists(recs, m)
    ensures Sorted(recs)
  {
  }

  lemma {:induction false} CarriedRank(nodes: seq<Node>, base: nat, recs: seq<Rec>, index: seq<Rec>, k: Key)
    requires Sorted(recs) && Carries(nodes, base, recs, index)
    ensures |index| == |nodes| && RankAgrees(nodes, index, k)
  {
    forall j | 0 <= j < |nodes| ensures LeadsAt(nodes[j], index[j]) { }
    hide Sorted, Rank, Flatten;
    RankInNodes(nodes, index, k);
  }

  /** Searching via the index of the leaf level is looking up the map. */
  lemma {:induction false} LeafSearch(v: seq<Node>, nodes: seq<Node>, recs: seq<Rec>, index: seq<Rec>,
                   m: map<Key, Bytes>, k: Key)
    requires Lists(recs, m) && Carries(nodes, |v|, recs, index)
    requires 1 <= |v|
    ensures IsFloor(m, k, SearchVia(v + nodes, index, 1, k))
  {
    hide Sorted, Lists, Rank, Flatten, Less, IsFloor;
    assert Sorted(recs) by { ListsSorted(recs, m); }
    CarriedRank(nodes, |v|, recs, index, k);
    RankFinds(recs, m, k);
    var r := Rank(index, k);
    if r > 0 {
      assert ChildOf(index[r - 1]) == |v| + r - 1 && (v + nodes)[|v| + r - 1] == nodes[r - 1];
    }
  }

  /** Everything from the rank on is above the key. */
  lemma {:induction false} AboveRank(recs: seq<Rec>, k: Key, i: nat)
    requires Sorted(recs) && Rank(recs, k) <= i < |recs|
    ensures Less(k, KeyOf(recs[i]))
  {
    var r := Rank(recs, k);
    if i > r { Transitive(k, KeyOf(recs[r]), KeyOf(recs[i])); }
  }

  /** The last record not above the key is the floor of the map. */
  lemma {:induction false} RankFinds(recs: seq<Rec>, m: map<Key, Bytes>, k: Key)
    requires Lists(recs, m)
    ensures var r := Rank(recs, k);
            && (r > 0 ==> recs[r - 1].Keyed?)
            && IsFloor(m, k, if r == 0 then None else Some(Binding(recs[r - 1].key, recs[r - 1].payload)))
  {
    var r := Rank(recs, k);
    forall h | h in m ensures Less(k, h) || (r > 0 && !Less(KeyOf(recs[r - 1]), h)) {
      var i :| 0 <= i < |recs| && KeyOf(recs[i]) == h;
      if i >= r {
        AboveRank(recs, k, i);
      } else if i < r - 1 {
        Trichotomy(KeyOf(recs[i]), KeyOf(recs[r - 1]));
      } else {
        Irreflexive(h);
      }
    }
    if r > 0 { assert recs[r - 1] in recs; }
  }

  /** Putting an index level on top changes no search. */
  lemma {:induction false} IndexSearch(v: seq<Node>, below: seq<Rec>, nodes: seq<Node>, height: nat,
                    index: seq<Rec>, k: Key)
    requires height >= 1 && Wired(v) && Sorted(below)
    requires forall r :: r in below ==> Points(v, r, height)
    requires Carries(nodes, |v|, below, index)
    requires 1 <= |v|
    ensures SearchVia(v + nodes, index, height + 1, k) == SearchVia(v, below, height, k)
  {
    CarriedRank(nodes, |v|, below, index, k);
    hide Sorted, Flatten, Less;
    var r := Rank(index, k);
    if r > 0 {
      assert (v + nodes)[|v| + r - 1] == nodes[r - 1];
      var hit := below[Rank(below, k) - 1];
      assert Points(v, hit, height);
      SearchStable(v, v + nodes, ChildOf(hit), height, k);
    }
  }

  /** Adding a level keeps the wiring. */
  lemma {:induction false} LevelWired(v: seq<Node>, below: seq<Rec>, nodes: seq<Node>, height: nat)
    requires Wired(v) && 1 <= height
    requires height > 1 ==> forall r :: r in below ==> Points(v, r, height - 1)
    requires Flatten(nodes) == below && OfHeight(nodes, height)
    ensures Wired(v + nodes)
  {
    var w := v + nodes;
    forall n | 1 <= n < |w| ensures PointsDown(w[..n], w[n]) {
      if n < |v| {
        assert w[n] == v[n] && w[..n] == v[..n];
      } else {
        var j := n - |v|;
        assert w[n] == nodes[j];
        forall i | 0 <= i < |w[n].recs| && height > 1 ensures Points(w[..n], w[n].recs[i], height - 1) {
          InFlatten(nodes, j, i);
          assert Points(v, w[n].recs[i], height - 1);
        }
      }
    }
  }

  // ----- how many nodes a level has -----

  /** Two records whose keys are among those indexed fit a node together. */
  predicate PairsFit(fmt: KeyFormat, recs: seq<Rec>, capacity: nat) {
    forall i, j :: 0 <= i < |recs| && 0 <= j < |recs| ==>
      DESC + 3 * OFFS + KeySize(fmt, KeyOf(recs[i])) + 4 + KeySize(fmt, KeyOf(recs[j])) + 4 <= capacity
  }

  /** If pairs fit, every node of an index level but the last has two records or more, so an index
      level has at most half as many nodes, rounded up, as the level below. */
  lemma {:induction false} LevelShrinks(fmt: KeyFormat, nodes: seq<Node>, capacity: nat, below: seq<Rec>)
    requires Flatten(nodes) == below && Packed(fmt, nodes, capacity)
    requires forall r :: r in below ==> r.Pointer?
    requires PairsFit(fmt, below, capacity)
    ensures below != [] ==> 2 * |nodes| <= |below| + 1
    ensures below == [] <==> nodes == []
  {
    forall j | 0 <= j < |nodes| - 1 ensures |nodes[j].recs| >= 2 {
      InFlatten(nodes, j, 0);
      InFlatten(nodes, j + 1, 0);
      var a, b := nodes[j].recs[0], nodes[j + 1].recs[0];
      if |nodes[j].recs| == 1 {
        assert [] + [a] == nodes[j].recs;
        TotalAppend(fmt, [], a);
        TotalAppend(fmt, [a], b);
      }
    }
    CountRecords(nodes);
  }

  lemma {:induction false} CountRecords(nodes: seq<Node>)
    requires forall j :: 0 <= j < |nodes| - 1 ==> |nodes[j].recs| >= 2
    requires nodes != [] ==> nodes[|nodes| - 1].recs != []
    ensures nodes != [] ==> |Flatten(nodes)| >= 2 * |nodes| - 1
    ensures nodes == [] <==> Flatten(nodes) == []
  {
    if |nodes| > 1 { CountRecords(nodes[1..]); }
  }
}
