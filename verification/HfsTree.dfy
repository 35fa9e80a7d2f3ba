/** The B-tree bulk loader (`TreeBuilder`): packs a sorted map into leaf nodes, then the first keys
    of each level into the level above, until a single root is left. */
module HfsTree {
  import opened Bytes
  import opened Lexical
  import opened HfsNode
  import opened HfsSearch
  import opened Words

  /** One finished level: holds `recs` in order, packed, chained, numbered from `base`. */
  predicate Level(fmt: KeyFormat, nodes: seq<Node>, base: nat, height: nat, capacity: nat,
                  recs: seq<Rec>, index: seq<Rec>) {
    && Carries(nodes, base, recs, index)
    && OfHeight(nodes, height)
    && Packed(fmt, nodes, capacity)
    && Chained(nodes, base)
  }

  /** A node as it is before any record goes in. */
  function Blank(height: nat, bLink: nat): Node {
    Node(KindAt(height), height, 0, bLink, [])
  }

  lemma {:induction false} FirstNode(fmt: KeyFormat, base: nat, height: nat, capacity: nat, r: Rec)
    requires Occupied(fmt, [r]) <= capacity
    ensures Level(fmt, [] + [Blank(height, 0).(recs := [r])], base, height, capacity, [r], [Pointer(KeyOf(r), base)])
  {
    var n := Blank(height, 0).(recs := [r]);
    assert [] + [n] == [n] && [n][0] == n && [n][1..] == [];
    assert Flatten([n]) == [r] + [];
  }

  /** The next record goes into the last node while it fits. */
  lemma {:induction false} Grow(fmt: KeyFormat, closed: seq<Node>, cur: Node, base: nat, height: nat, capacity: nat,
             recs: seq<Rec>, index: seq<Rec>, r: Rec)
    requires Level(fmt, closed + [cur], base, height, capacity, recs, index)
    requires Occupied(fmt, cur.recs + [r]) <= capacity
    ensures Level(fmt, closed + [cur.(recs := cur.recs + [r])], base, height, capacity, recs + [r], index)
  {
    var cur' := cur.(recs := cur.recs + [r]);
    GrowPacked(fmt, closed, cur, cur', capacity);
    GrowCarries(closed, cur, cur', base, recs, index, r);
    GrowLinks(closed, cur, cur', base, height);
  }

  lemma {:induction false} GrowPacked(fmt: KeyFormat, closed: seq<Node>, cur: Node, cur': Node, capacity: nat)
    requires Packed(fmt, closed + [cur], capacity)
    requires cur'.recs != [] && (cur.recs != [] ==> cur'.recs[0] == cur.recs[0]) && Occupied(fmt, cur'.recs) <= capacity
    ensures Packed(fmt, closed + [cur'], capacity)
  {
    hide Occupied;
    var v, w := closed + [cur], closed + [cur'];
    assert v[|closed|] == cur && w[|closed|] == cur';
    assert forall j :: 0 <= j < |closed| ==> v[j] == closed[j] == w[j];
  }

  lemma {:induction false} GrowCarries(closed: seq<Node>, cur: Node, cur': Node, base: nat, recs: seq<Rec>, index: seq<Rec>, r: Rec)
    requires Carries(closed + [cur], base, recs, index) && cur'.recs == cur.recs + [r]
    ensures Carries(closed + [cur'], base, recs + [r], index)
  {
    FlattenAppend(closed, cur);
    FlattenAppend(closed, cur');
    hide Flatten;
    var v, w := closed + [cur], closed + [cur'];
    assert v[|closed|] == cur && w[|closed|] == cur';
    assert forall j :: 0 <= j < |closed| ==> v[j] == closed[j] == w[j];
  }

  lemma {:induction false} GrowLinks(closed: seq<Node>, cur: Node, cur': Node, base: nat, height: nat)
    requires Chained(closed + [cur], base) && OfHeight(closed + [cur], height)
    requires cur'.kind == cur.kind && cur'.height == cur.height && cur'.fLink == cur.fLink && cur'.bLink == cur.bLink
    ensures Chained(closed + [cur'], base) && OfHeight(closed + [cur'], height)
  {
    var v, w := closed + [cur], closed + [cur'];
    assert v[|closed|] == cur && w[|closed|] == cur';
    assert forall j :: 0 <= j < |closed| ==> v[j] == closed[j] == w[j];
  }

  /** Otherwise the last node is closed, and a new one takes the record. */
  lemma {:induction false} Close(fmt: KeyFormat, closed: seq<Node>, cur: Node, base: nat, height: nat, capacity: nat,
              recs: seq<Rec>, index: seq<Rec>, r: Rec)
    requires Level(fmt, closed + [cur], base, height, capacity, recs, index)
    requires Occupied(fmt, cur.recs + [r]) > capacity && Occupied(fmt, [r]) <= capacity
    ensures var here := base + |closed|;
            Level(fmt, closed + [cur.(fLink := here + 1)] + [Blank(height, here).(recs := [r])],
                  base, height, capacity, recs + [r], index + [Pointer(KeyOf(r), here + 1)])
  {
    var here := base + |closed|;
    var cur', new' := cur.(fLink := here + 1), Blank(height, here).(recs := [r]);
    ClosePacked(fmt, closed, cur, cur', new', capacity);
    CloseCarries(closed, cur, cur', new', base, recs, index, r);
    CloseLinks(closed, cur, cur', new', base, height);
  }

  lemma {:induction false} CloseCarries(closed: seq<Node>, cur: Node, cur': Node, next: Node, base: nat,
                                        recs: seq<Rec>, index: seq<Rec>, r: Rec)
    requires Carries(closed + [cur], base, recs, index)
    requires cur'.recs == cur.recs && next.recs == [r]
    ensures Carries(closed + [cur'] + [next], base, recs + [r],
                    index + [Pointer(KeyOf(r), base + |closed| + 1)])
  {
    FlattenAppend(closed, cur);
    FlattenAppend(closed, cur');
    FlattenAppend(closed + [cur'], next);
    var v, w := closed + [cur], closed + [cur'] + [next];
    assert forall j :: 0 <= j <= |closed| ==> v[j].recs == w[j].recs;
    assert w[|closed| + 1] == next;
  }

  lemma {:induction false} CloseLinks(closed: seq<Node>, cur: Node, cur': Node, next: Node, base: nat, height: nat)
    requires Chained(closed + [cur], base) && OfHeight(closed + [cur], height)
    requires cur' == cur.(fLink := base + |closed| + 1)
    requires next.(recs := []) == Blank(height, base + |closed|)
    ensures Chained(closed + [cur'] + [next], base) && OfHeight(closed + [cur'] + [next], height)
  {
    var v, w := closed + [cur], closed + [cur'] + [next];
    assert v[|closed|] == cur && w[|closed|] == cur' && w[|closed| + 1] == next;
    assert forall j :: 0 <= j < |closed| ==> v[j] == closed[j] == w[j];
  }

  lemma {:induction false} ClosePacked(fmt: KeyFormat, closed: seq<Node>, cur: Node, cur': Node, next: Node, capacity: nat)
    requires Packed(fmt, closed + [cur], capacity)
    requires cur'.recs == cur.recs && |next.recs| == 1
    requires Occupied(fmt, cur.recs + next.recs) > capacity && Occupied(fmt, next.recs) <= capacity
    ensures Packed(fmt, closed + [cur'] + [next], capacity)
  {
    var v, w := closed + [cur], closed + [cur'] + [next];
    assert [next.recs[0]] == next.recs;
    assert forall j :: 0 <= j <= |closed| ==> v[j].recs == w[j].recs;
    assert w[|closed| + 1] == next;
  }

  /** The nodes of a level, all closed but the last, and the index onto them. */
  datatype Packing = Packing(closed: seq<Node>, last: Node, index: seq<Rec>)
  {
    function Nodes(): seq<Node> {
      closed + [last]
    }
  }

  /** What packing one record after another leads to. */
  ghost function Pack(fmt: KeyFormat, base: nat, height: nat, capacity: nat, recs: seq<Rec>): Packing
    requires recs != []
  {
    var r := recs[|recs| - 1];
    if |recs| == 1 then
      Packing([], Blank(height, 0).(recs := [r]), [Pointer(KeyOf(r), base)])
    else
      PackNext(fmt, base, height, capacity, Pack(fmt, base, height, capacity, recs[..|recs| - 1]), r)
  }

  ghost function PackNext(fmt: KeyFormat, base: nat, height: nat, capacity: nat, p: Packing, r: Rec): Packing {
    if Occupied(fmt, p.last.recs + [r]) <= capacity then
      p.(last := p.last.(recs := p.last.recs + [r]))
    else
      var here := base + |p.closed|;
      Packing(p.closed + [p.last.(fLink := here + 1)], Blank(height, here).(recs := [r]),
              p.index + [Pointer(KeyOf(r), here + 1)])
  }

  /** Packing yields a proper level. */
  lemma {:induction false} PackIsLevel(fmt: KeyFormat, base: nat, height: nat, capacity: nat, recs: seq<Rec>)
    requires recs != []
    requires forall r :: r in recs ==> Occupied(fmt, [r]) <= capacity
    ensures var p := Pack(fmt, base, height, capacity, recs);
            Level(fmt, p.Nodes(), base, height, capacity, recs, p.index)
  {
    var init, r := recs[..|recs| - 1], recs[|recs| - 1];
    assert recs == init + [r];
    if |recs| == 1 {
      FirstNode(fmt, base, height, capacity, r);
    } else {
      PackIsLevel(fmt, base, height, capacity, init);
      NextIsLevel(fmt, base, height, capacity, Pack(fmt, base, height, capacity, init), init, r);
    }
  }

  lemma {:induction false} NextIsLevel(fmt: KeyFormat, base: nat, height: nat, capacity: nat, p: Packing, recs: seq<Rec>, r: Rec)
    requires Level(fmt, p.Nodes(), base, height, capacity, recs, p.index)
    requires Occupied(fmt, [r]) <= capacity
    ensures var q := PackNext(fmt, base, height, capacity, p, r);
            Level(fmt, q.Nodes(), base, height, capacity, recs + [r], q.index)
  {
    if Occupied(fmt, p.last.recs + [r]) <= capacity {
      Grow(fmt, p.closed, p.last, base, height, capacity, recs, p.index, r);
    } else {
      Close(fmt, p.closed, p.last, base, height, capacity, recs, p.index, r);
    }
  }

  // ----- the tree as it grows -----

  /** Every search answers as the map does. */
  ghost predicate Answers(nodes: seq<Node>, root: nat, depth: nat, m: map<Key, Bytes>) {
    forall k :: IsFloor(m, k, Search(nodes, root, depth, k))
  }

  ghost predicate AnswersVia(nodes: seq<Node>, index: seq<Rec>, depth: nat, m: map<Key, Bytes>) {
    forall k :: IsFloor(m, k, SearchVia(nodes, index, depth, k))
  }

  /** The tree built so far, up to the level `index` points to, answers every search as the map does. */
  ghost predicate Built(nodes: seq<Node>, index: seq<Rec>, height: nat, m: map<Key, Bytes>) {
    && Wired(nodes) && nodes != [] && index != [] && height >= 1
    && Sorted(index)
    && (forall r :: r in index ==> Points(nodes, r, height))
    && AnswersVia(nodes, index, height, m)
    && LastIsTop(nodes, index)
  }

  /** Levels are runs of consecutive nodes, linked both ways, each level right after the one below it. */
  predicate Runs(nodes: seq<Node>) {
    forall n :: 1 <= n < |nodes| ==> RunAt(nodes, n)
  }

  predicate RunAt(nodes: seq<Node>, n: nat)
    requires 1 <= n < |nodes|
  {
    && (n == 1 ==> nodes[n].height == 1 && nodes[n].bLink == 0)
    && if n + 1 < |nodes| && nodes[n + 1].height == nodes[n].height then
         nodes[n].fLink == n + 1 && nodes[n + 1].bLink == n
       else
         nodes[n].fLink == 0 &&
         (n + 1 < |nodes| ==> nodes[n + 1].height == nodes[n].height + 1 && nodes[n + 1].bLink == 0)
  }

  lemma {:induction false} LevelRuns(v: seq<Node>, nodes: seq<Node>, height: nat)
    requires v != [] && Runs(v) && Chained(nodes, |v|) && OfHeight(nodes, height)
    requires if |v| == 1 then height == 1 else v[|v| - 1].height + 1 == height
    ensures Runs(v + nodes)
  {
    var w := v + nodes;
    forall n | 1 <= n < |w| ensures RunAt(w, n) {
      if n < |v| {
        assert RunAt(v, n);
        if n == |v| - 1 && nodes != [] { assert w[n + 1] == nodes[0]; }
      } else {
        assert w[n] == nodes[n - |v|];
        if n + 1 < |w| { assert w[n + 1] == nodes[n + 1 - |v|]; }
      }
    }
  }

  /** The last pointer of the index is to the last node. */
  predicate LastIsTop(nodes: seq<Node>, index: seq<Rec>)
    requires nodes != [] && index != []
  {
    var top, r := nodes[|nodes| - 1], index[|index| - 1];
    top.recs != [] && r == Pointer(KeyOf(top.recs[0]), |nodes| - 1)
  }

  lemma {:induction false} TopOfLevel(v: seq<Node>, nodes: seq<Node>, recs: seq<Rec>, index: seq<Rec>)
    requires v != [] && recs != [] && Carries(nodes, |v|, recs, index)
    ensures nodes != [] && LastIsTop(v + nodes, index)
  {
    assert nodes != [];
    assert (v + nodes)[|v| + |nodes| - 1] == nodes[|nodes| - 1];
  }

  lemma {:induction false} LeavesBuilt(v: seq<Node>, nodes: seq<Node>, recs: seq<Rec>, index: seq<Rec>, m: map<Key, Bytes>)
    requires Wired(v) && v != [] && recs != [] && Lists(recs, m)
    requires Carries(nodes, |v|, recs, index) && OfHeight(nodes, 1)
    ensures Built(v + nodes, index, 1, m)
  {
    TopOfLevel(v, nodes, recs, index);
    LevelWired(v, recs, nodes, 1);
    IndexOfLevel(v, nodes, 1, recs, index);
    var w := v + nodes;
    forall k ensures IsFloor(m, k, SearchVia(w, index, 1, k)) { LeafSearch(v, nodes, recs, index, m, k); }
  }

  lemma {:induction false} AnswersUp(v: seq<Node>, below: seq<Rec>, nodes: seq<Node>, height: nat, index: seq<Rec>, m: map<Key, Bytes>)
    requires height >= 1 && Wired(v) && Sorted(below) && v != [] && Carries(nodes, |v|, below, index)
    requires forall r :: r in below ==> Points(v, r, height)
    requires AnswersVia(v, below, height, m)
    ensures AnswersVia(v + nodes, index, height + 1, m)
  {
    hide IsFloor, SearchVia, Wired, Sorted, Carries, Points;
    var w, h := v + nodes, height + 1;
    forall k ensures IsFloor(m, k, SearchVia(w, index, h, k)) {
      IndexSearch(v, below, nodes, height, index, k);
    }
  }

  lemma {:induction false} IndexBuilt(v: seq<Node>, below: seq<Rec>, nodes: seq<Node>, height: nat, index: seq<Rec>, m: map<Key, Bytes>)
    requires Built(v, below, height, m)
    requires Carries(nodes, |v|, below, index) && OfHeight(nodes, height + 1)
    ensures Built(v + nodes, index, height + 1, m)
  {
    hide AnswersVia, Wired, Sorted, Points, LastIsTop, Carries, OfHeight, Flatten;
    CarriesAll(nodes, |v|, below, index);
    TopOfLevel(v, nodes, below, index);
    LevelWired(v, below, nodes, height + 1);
    IndexOfLevel(v, nodes, height + 1, below, index);
    AnswersUp(v, below, nodes, height, index, m);
  }

  lemma {:induction false} CarriesAll(nodes: seq<Node>, base: nat, recs: seq<Rec>, index: seq<Rec>)
    requires Carries(nodes, base, recs, index)
    ensures Flatten(nodes) == recs && |index| == |nodes|
  {
  }

  /** Every node holds encodable records, and no more of them than fit. */
  predicate Sound(fmt: KeyFormat, capacity: nat, nodes: seq<Node>) {
    forall n :: 1 <= n < |nodes| ==> SoundNode(fmt, capacity, nodes[n])
  }

  predicate SoundNode(fmt: KeyFormat, capacity: nat, node: Node) {
    && Occupied(fmt, node.recs) <= capacity && node.kind == KindAt(node.height)
    && (forall i :: 0 <= i < |node.recs| ==> node.recs[i].Encodable(fmt))
    && (node.kind == LeafNode ==> forall i :: 0 <= i < |node.recs| ==> node.recs[i].Keyed?)
  }

  lemma {:induction false} LevelSound(fmt: KeyFormat, capacity: nat, v: seq<Node>, nodes: seq<Node>, height: nat,
                                      recs: seq<Rec>, index: seq<Rec>)
    requires Sound(fmt, capacity, v) && v != [] && height >= 1
    requires Packed(fmt, nodes, capacity) && Carries(nodes, |v|, recs, index) && OfHeight(nodes, height)
    requires forall r :: r in recs ==> r.Encodable(fmt) && if height == 1 then r.Keyed? else r.Pointer?
    ensures Sound(fmt, capacity, v + nodes)
    ensures forall r :: r in index ==> r.Encodable(fmt)
  {
    hide Occupied;
    forall j | 0 <= j < |nodes| ensures SoundNode(fmt, capacity, nodes[j]) {
      forall i | 0 <= i < |nodes[j].recs| ensures nodes[j].recs[i] in recs { InFlatten(nodes, j, i); }
    }
    forall j | 0 <= j < |nodes| ensures index[j].Encodable(fmt) {
      InFlatten(nodes, j, 0);
      assert nodes[j].recs[0].Encodable(fmt);
    }
  }

  lemma {:induction false} TopHeight(nodes: seq<Node>, index: seq<Rec>, height: nat, m: map<Key, Bytes>)
    requires Built(nodes, index, height, m)
    ensures |nodes| > 1 && nodes[|nodes| - 1].height == height
  {
    assert Points(nodes, index[|index| - 1], height);
  }

  /** Once a single node is left on top, searching from it is looking the map up. */
  lemma {:induction false} RootSearch(nodes: seq<Node>, index: seq<Rec>, height: nat, m: map<Key, Bytes>, k: Key)
    requires Built(nodes, index, height, m) && |index| == 1
    ensures IsFloor(m, k, Search(nodes, |nodes| - 1, height, k))
  {
    var root := nodes[|nodes| - 1];
    assert IsFloor(m, k, SearchVia(nodes, index, height, k));
    assert Rank(index, k) == if Less(k, KeyOf(root.recs[0])) then 0 else 1;
  }

  /** An index record fits an empty node if two do, and the keys of a level are keys of the one below. */
  lemma {:induction false} KeysShrink(fmt: KeyFormat, base: nat, nodes: seq<Node>, capacity: nat, recs: seq<Rec>, index: seq<Rec>)
    requires Carries(nodes, base, recs, index) && PairsFit(fmt, recs, capacity)
    ensures PairsFit(fmt, index, capacity)
    ensures forall r :: r in index ==> r.Pointer? && Occupied(fmt, [r]) <= capacity
  {
    forall j | 0 <= j < |index|
      ensures exists i :: 0 <= i < |recs| && KeyOf(recs[i]) == KeyOf(index[j])
    {
      InFlatten(nodes, j, 0);
      var i :| 0 <= i < |recs| && recs[i] == nodes[j].recs[0];
    }
    forall r | r in index ensures r.Pointer? && Occupied(fmt, [r]) <= capacity {
      TotalAppend(fmt, [], r);
      assert [] + [r] == [r];
    }
  }

  /** The leaf chain: from node `n` along the forward links, up to node `last`. */
  function Scan(nodes: seq<Node>, n: nat, last: nat, fuel: nat): seq<Rec>
    decreases fuel
  {
    if n >= |nodes| then []
    else if n == last || fuel == 0 then nodes[n].recs
    else nodes[n].recs + Scan(nodes, nodes[n].fLink, last, fuel - 1)
  }

  lemma {:induction false} ScanLevel(nodes: seq<Node>, level: seq<Node>, base: nat, j: nat, fuel: nat)
    requires Chained(level, base) && j < |level| && base + |level| <= |nodes|
    requires nodes[base..base + |level|] == level
    requires |level| - 1 - j <= fuel
    ensures Scan(nodes, base + j, base + |level| - 1, fuel) == Flatten(level[j..])
    decreases fuel
  {
    assert nodes[base + j] == nodes[base..base + |level|][j] == level[j];
    assert level[j..][1..] == level[j + 1..];
    if j + 1 < |level| {
      ScanLevel(nodes, level, base, j + 1, fuel - 1);
    } else {
      assert Flatten(level[j..]) == level[j].recs + [];
    }
  }

  /** Halving, rounded up, from `c` nodes to `d`, keeps the count times its power of two within bounds. */
  lemma {:induction false} Halved(c: nat, d: nat, p: nat, leaves: nat)
    requires c >= 2 && d >= 1 && 2 * d <= c + 1 && p > 0 && (c - 1) * p < leaves
    ensures (d - 1) * (2 * p) < leaves
    ensures p < leaves
  {
    assert (2 * d - 2) * p <= (c - 1) * p;
    assert 1 * p <= (c - 1) * p;
  }

  /** The state between two passes: what is built, and that the next pass will work and will shrink. */
  ghost predicate Growing(fmt: KeyFormat, capacity: nat, nodes: seq<Node>, leaves: seq<Node>,
                          index: seq<Rec>, level: nat, m: map<Key, Bytes>) {
    && Built(nodes, index, level, m)
    && level >= 1 && index != [] && Runs(nodes)
    && Sound(fmt, capacity, nodes) && (forall r :: r in index ==> r.Encodable(fmt))
    && PairsFit(fmt, index, capacity)
    && (forall r :: r in index ==> r.Pointer? && Occupied(fmt, [r]) <= capacity)
    && (|index| - 1) * Pow2(level - 1) < |leaves|
    && (level > 1 ==> Pow2(level - 2) < |leaves|)
    && 1 + |leaves| <= |nodes| && nodes[1..1 + |leaves|] == leaves
  }

  lemma {:induction false} LeafPass(fmt: KeyFormat, capacity: nat, head: seq<Node>, recs: seq<Rec>, m: map<Key, Bytes>)
    requires |head| == 1 && recs != [] && Lists(recs, m) && PairsFit(fmt, recs, capacity)
    requires forall r :: r in recs ==> r.Encodable(fmt) && Occupied(fmt, [r]) <= capacity
    ensures var p := Pack(fmt, 1, 1, capacity, recs);
            Growing(fmt, capacity, head + p.Nodes(), p.Nodes(), p.index, 1, m)
  {
    assert Sound(fmt, capacity, head) && forall r :: r in recs ==> r.Keyed?;
    assert Wired(head) && Runs(head);
    hide Occupied, Pack, PairsFit, Lists, Wired, Runs, Sound, Built;
    PackIsLevel(fmt, 1, 1, capacity, recs);
    var p := Pack(fmt, 1, 1, capacity, recs);
    LeafLevel(fmt, capacity, head, recs, m, p.Nodes(), p.index);
    FirstGrowing(fmt, capacity, head, p.Nodes(), p.index, m);
  }

  lemma {:induction false} LeafLevel(fmt: KeyFormat, capacity: nat, head: seq<Node>, recs: seq<Rec>, m: map<Key, Bytes>,
                                     nodes: seq<Node>, index: seq<Rec>)
    requires |head| == 1 && Wired(head) && Runs(head) && Sound(fmt, capacity, head) && recs != [] && Lists(recs, m)
    requires PairsFit(fmt, recs, capacity) && (forall r :: r in recs ==> r.Encodable(fmt) && r.Keyed?)
    requires Level(fmt, nodes, 1, 1, capacity, recs, index)
    ensures Built(head + nodes, index, 1, m) && Runs(head + nodes) && Sound(fmt, capacity, head + nodes)
    ensures (forall r :: r in index ==> r.Encodable(fmt)) && PairsFit(fmt, index, capacity) && |index| == |nodes|
    ensures forall r :: r in index ==> r.Pointer? && Occupied(fmt, [r]) <= capacity
  {
    assert |index| == |nodes|;
    hide Occupied, PairsFit, Lists, Wired, Runs, Sound, Built, Packed, Chained, OfHeight, Carries;
    LeavesBuilt(head, nodes, recs, index, m);
    LevelRuns(head, nodes, 1);
    LevelSound(fmt, capacity, head, nodes, 1, recs, index);
    KeysShrink(fmt, 1, nodes, capacity, recs, index);
  }

  lemma {:induction false} FirstGrowing(fmt: KeyFormat, capacity: nat, head: seq<Node>, nodes: seq<Node>, index: seq<Rec>, m: map<Key, Bytes>)
    requires |head| == 1 && nodes != [] && |index| == |nodes|
    requires Built(head + nodes, index, 1, m) && Runs(head + nodes) && Sound(fmt, capacity, head + nodes)
    requires (forall r :: r in index ==> r.Encodable(fmt)) && PairsFit(fmt, index, capacity)
    requires forall r :: r in index ==> r.Pointer? && Occupied(fmt, [r]) <= capacity
    ensures Growing(fmt, capacity, head + nodes, nodes, index, 1, m)
  {
    hide Occupied, PairsFit, Runs, Sound, Built;
    assert (head + nodes)[1..1 + |nodes|] == nodes;
    assert (|index| - 1) * Pow2(0) < |nodes|;
  }

  lemma {:induction false} IndexPass(fmt: KeyFormat, capacity: nat, nodes: seq<Node>, leaves: seq<Node>,
                                     index: seq<Rec>, level: nat, m: map<Key, Bytes>)
    requires Growing(fmt, capacity, nodes, leaves, index, level, m) && |index| > 1
    ensures var p := Pack(fmt, |nodes|, level + 1, capacity, index);
            && |p.index| < |index|
            && Growing(fmt, capacity, nodes + p.Nodes(), leaves, p.index, level + 1, m)
    ensures forall r :: r in index ==> Occupied(fmt, [r]) <= capacity
  {
    hide Occupied, Pack, Sorted, Search, SearchVia, Rank, Points, Wired, Flatten, Built, PairsFit, Chained, Packed, OfHeight, Total, RunAt, Sound;
    var p := Pack(fmt, |nodes|, level + 1, capacity, index);
    PackIsLevel(fmt, |nodes|, level + 1, capacity, index);
    IndexBuilt(nodes, index, p.Nodes(), level, p.index, m);
    TopHeight(nodes, index, level, m);
    LevelRuns(nodes, p.Nodes(), level + 1);
    LevelSound(fmt, capacity, nodes, p.Nodes(), level + 1, index, p.index);
    KeysShrink(fmt, |nodes|, p.Nodes(), capacity, index, p.index);
    LevelShrinks(fmt, p.Nodes(), capacity, index);
    Halved(|index|, |p.index|, Pow2(level - 1), |leaves|);
    assert (nodes + p.Nodes())[1..1 + |leaves|] == nodes[1..1 + |leaves|];
  }

  /** The nodes `first` to `last` are leaves, each linked to the next. */
  predicate LeafChain(nodes: seq<Node>, first: nat, last: nat) {
    && 1 <= first <= last < |nodes|
    && (forall n :: first <= n <= last ==>
          nodes[n].kind == LeafNode && nodes[n].fLink == if n < last then n + 1 else 0)
  }

  /** The finished tree: root, depth and leaf chain. */
  ghost predicate TreeOf(fmt: KeyFormat, capacity: nat, nodes: seq<Node>, recs: seq<Rec>, m: map<Key, Bytes>,
                         root: nat, depth: nat, first: nat, last: nat) {
    && 1 <= root < |nodes| && Wired(nodes) && Runs(nodes[..root + 1]) && Sound(fmt, capacity, nodes[..root + 1])
    && nodes[root].height == depth >= 1 && nodes[root].kind == KindAt(depth)
    && Answers(nodes, root, depth, m)
    && LeafChain(nodes, first, last) && last <= root
    && Scan(nodes, first, last, last - first) == recs
    && (depth > 1 ==> Pow2(depth - 2) < last - first + 1)
  }

  lemma {:induction false} RootAnswers(nodes: seq<Node>, index: seq<Rec>, level: nat, m: map<Key, Bytes>)
    requires Built(nodes, index, level, m) && |index| == 1
    ensures Answers(nodes, |nodes| - 1, level, m)
    ensures |nodes| > 1 && nodes[|nodes| - 1].height == level && nodes[|nodes| - 1].kind == KindAt(level)
  {
    assert Points(nodes, index[0], level);
    var root := |nodes| - 1;
    forall k ensures IsFloor(m, k, Search(nodes, root, level, k)) { RootSearch(nodes, index, level, m, k); }
  }

  lemma {:induction false} RootTree(fmt: KeyFormat, capacity: nat, nodes: seq<Node>, recs: seq<Rec>, leaves: seq<Node>, leafIndex: seq<Rec>,
                                    index: seq<Rec>, level: nat, m: map<Key, Bytes>)
    requires recs != [] && |index| <= 1 && Growing(fmt, capacity, nodes, leaves, index, level, m)
    requires Level(fmt, leaves, 1, 1, capacity, recs, leafIndex)
    ensures TreeOf(fmt, capacity, nodes, recs, m, |nodes| - 1, level, 1, |leaves|)
  {
    hide Occupied, Packed, PairsFit, Runs, Sound, Search, Scan, Flatten, Chained, LeafChain, OfHeight, Wired, Answers, AnswersVia, Points, Sorted;
    assert leaves != [] by { CarriedLeaves(leaves, recs, leafIndex); }
    assert Flatten(leaves) == recs;
    LeavesScanned(nodes, leaves, recs);
    RootAnswers(nodes, index, level, m);
    assert nodes[..|nodes|] == nodes;
    hide Carries;
  }

  lemma {:induction false} CarriedLeaves(leaves: seq<Node>, recs: seq<Rec>, index: seq<Rec>)
    requires Carries(leaves, 1, recs, index) && recs != []
    ensures leaves != []
  {
  }

  lemma {:induction false} RootPass(fmt: KeyFormat, capacity: nat, nodes: seq<Node>, recs: seq<Rec>,
                                    index: seq<Rec>, level: nat, m: map<Key, Bytes>)
    requires recs != [] && forall r :: r in recs ==> Occupied(fmt, [r]) <= capacity
    requires |index| <= 1
    requires Growing(fmt, capacity, nodes, Pack(fmt, 1, 1, capacity, recs).Nodes(), index, level, m)
    ensures TreeOf(fmt, capacity, nodes, recs, m, |nodes| - 1, level, 1, |Pack(fmt, 1, 1, capacity, recs).Nodes()|)
  {
    hide Occupied, Pack, Growing, TreeOf, Level;
    PackIsLevel(fmt, 1, 1, capacity, recs);
    var p := Pack(fmt, 1, 1, capacity, recs);
    RootTree(fmt, capacity, nodes, recs, p.Nodes(), p.index, index, level, m);
  }

  lemma {:induction false} LeavesScanned(nodes: seq<Node>, leaves: seq<Node>, recs: seq<Rec>)
    requires Chained(leaves, 1) && OfHeight(leaves, 1) && Flatten(leaves) == recs && leaves != []
    requires 1 + |leaves| <= |nodes| && nodes[1..1 + |leaves|] == leaves
    ensures LeafChain(nodes, 1, |leaves|) && Scan(nodes, 1, |leaves|, |leaves| - 1) == recs
  {
    ScanLevel(nodes, leaves, 1, 0, |leaves| - 1);
    assert leaves[0..] == leaves;
    hide Scan, Flatten;
    forall n | 1 <= n <= |leaves| ensures nodes[n] == leaves[n - 1] {
      assert nodes[n] == nodes[1..1 + |leaves|][n - 1];
    }
  }

  // ----- header and map nodes -----

  /** Bits of the node bitmap that fit the header node, and each map node, in bytes. */
  function HeadLen(capacity: nat): int {
    capacity - 256
  }

  function MapLen(capacity: nat): int {
    capacity - 18
  }

  /** Bitmap bytes held by the header node and the first `n` map nodes. */
  function Covered(capacity: nat, n: nat): int {
    HeadLen(capacity) + n * MapLen(capacity)
  }

  /** The header node of a tree of `total` nodes whose map nodes start at number `first`. */
  function HeaderView(capacity: nat, first: nat, total: nat): Node
    requires capacity > 256
  {
    Node(HeaderNode, 0, if first < total then first else 0, 0, [Header, User, Bits(0, HeadLen(capacity))])
  }

  /** Map node number `j` of such a tree: linked to its neighbours, and holding the next piece of the bitmap. */
  function MapView(capacity: nat, first: nat, total: nat, j: nat): Node
    requires capacity > 256 && first <= j
  {
    Node(MapNode, 0, if j + 1 < total then j + 1 else 0, if j == first then 0 else j - 1,
         [Bits(Covered(capacity, j - first), MapLen(capacity))])
  }

  /** Header and map nodes of a finished tree: one chain, whose map records tile the bitmap without a
      gap; there is a bit for every node, and there would not be without the last map node. */
  predicate Mapped(capacity: nat, nodes: seq<Node>, first: nat) {
    && capacity > 256 && 1 <= first <= |nodes|
    && nodes[0] == HeaderView(capacity, first, |nodes|)
    && (forall j :: first <= j < |nodes| ==> nodes[j] == MapView(capacity, first, |nodes|, j))
    && 8 * Covered(capacity, |nodes| - first) >= |nodes|
    && (first < |nodes| ==> 8 * Covered(capacity, |nodes| - 1 - first) < |nodes| - 1)
  }

  /** The bitmap bytes that come before the map record of node `k`. */
  function Before(capacity: nat, first: nat, k: nat): int
    requires k == 0 || first <= k
  {
    if k == 0 then 0 else Covered(capacity, k - first)
  }

  /** All map nodes so far are as in a finished tree, but node `k`, the last, has no map record yet. */
  predicate Mapping(capacity: nat, start: seq<Node>, nodes: seq<Node>, k: nat, done: int) {
    var first := |start|;
    && capacity > 256 && 1 <= first <= |nodes|
    && start[0] == Node(HeaderNode, 0, 0, 0, [Header, User])
    && nodes[1..first] == start[1..]
    && k == (if first == |nodes| then 0 else |nodes| - 1)
    && done == Before(capacity, first, k)
    && (k == 0 ==> nodes[0] == start[0])
    && (k > 0 ==> nodes[0] == HeaderView(capacity, first, |nodes|) && 8 * done < |nodes| - 1)
    && (forall j :: first <= j < |nodes| ==>
          nodes[j] == if j == k then MapView(capacity, first, |nodes|, j).(recs := [])
                      else MapView(capacity, first, |nodes|, j))
  }

  function Filled(nodes: seq<Node>, k: nat, done: nat, len: nat): seq<Node>
    requires k < |nodes|
  {
    nodes[k := nodes[k].(recs := nodes[k].recs + [Bits(done, len)])]
  }

  function Extended(nodes: seq<Node>, k: nat): seq<Node>
    requires k < |nodes|
  {
    nodes[k := nodes[k].(fLink := |nodes|)]
    + [Node(MapNode, 0, 0, if k == 0 then 0 else |nodes| - 1, [])]
  }

  /** One round of the loop: either there are bits enough now, or one more map node is needed. */
  lemma {:induction false} MappingStep(capacity: nat, start: seq<Node>, nodes: seq<Node>, k: nat, done: nat, len: nat)
    requires Mapping(capacity, start, nodes, k, done)
    requires len == if k == 0 then HeadLen(capacity) else MapLen(capacity)
    ensures nodes[k].recs == if k == 0 then [Header, User] else []
    ensures var filled := Filled(nodes, k, done, len);
            if 8 * (done + len) >= |nodes| then
              |start| <= |filled| && Mapped(capacity, filled, |start|) && filled[1..|start|] == start[1..]
            else
              Mapping(capacity, start, Extended(filled, k), |nodes|, done + len)
  {
    var first, filled := |start|, Filled(nodes, k, done, len);
    CoveredNext(capacity, if k == 0 then 0 else k - first);
    assert done + len == Covered(capacity, |nodes| - first);
    assert filled[1..first] == start[1..];
    if 8 * (done + len) < |nodes| {
      var w := Extended(filled, k);
      assert w[1..first] == start[1..];
    }
  }

  lemma {:induction false} MappingStart(capacity: nat, start: seq<Node>)
    requires capacity > 256 && start != [] && start[0] == Node(HeaderNode, 0, 0, 0, [Header, User])
    ensures Mapping(capacity, start, start, 0, 0)
  {}

  lemma {:induction false} CoveredNext(capacity: nat, n: nat)
    ensures Covered(capacity, 0) == HeadLen(capacity)
    ensures Covered(capacity, n + 1) == Covered(capacity, n) + MapLen(capacity)
  {}

  lemma {:induction false} MapFreeSpace(node: NodeSpec)
    requires node.Valid() && (node.recs == [Header, User] || node.recs == [])
    ensures forall capacity ::
              node.FreeSpace(capacity) == if node.recs == [] then MapLen(capacity) else HeadLen(capacity)
  {
    node.OffsetsMatch();
    HeaderSizes(node.fmt);
    hide Total;
  }

  lemma {:induction false} HeaderSizes(fmt: KeyFormat)
    ensures Total(fmt, [Header, User]) == HEADER_REC + USER_REC && Total(fmt, []) == 0
  {
    TotalAppend(fmt, [], Header);
    TotalAppend(fmt, [] + [Header], User);
    assert [Header, User] == [] + [Header] + [User];
  }

  lemma {:induction false} ScanStable(v: seq<Node>, w: seq<Node>, first: nat, last: nat)
    requires LeafChain(v, first, last) && |v| <= |w|
    requires forall i :: 1 <= i < |v| ==> v[i] == w[i]
    ensures Scan(v, first, last, last - first) == Scan(w, first, last, last - first)
    decreases last - first
  {
    assert v[first] == w[first];
    if first < last {
      assert LeafChain(v, first + 1, last) && v[first].fLink == first + 1;
      ScanStable(v, w, first + 1, last);
      hide LeafChain;
    }
  }

  /** Map nodes and the map record of the header node leave the tree as it is. */
  lemma {:induction false} TreeStable(fmt: KeyFormat, capacity: nat, v: seq<Node>, w: seq<Node>, recs: seq<Rec>, m: map<Key, Bytes>,
                                      root: nat, depth: nat, first: nat, last: nat)
    requires TreeOf(fmt, capacity, v, recs, m, root, depth, first, last)
    requires |v| <= |w| && w[1..|v|] == v[1..]
    requires forall j :: |v| <= j < |w| ==> w[j].kind == MapNode
    ensures TreeOf(fmt, capacity, w, recs, m, root, depth, first, last)
  {
    assert forall i :: 1 <= i < |v| ==> v[i] == v[1..][i - 1] == w[i];
    forall k ensures IsFloor(m, k, Search(w, root, depth, k)) {
      SearchStable(v, w, root, depth, k);
    }
    forall n | 1 <= n < |w| ensures PointsDown(w[..n], w[n]) {
      if n < |v| { assert PointsDown(v[..n], v[n]); }
    }
    ScanStable(v, w, first, last);
    var t, u := v[..root + 1], w[..root + 1];
    forall n | 1 <= n < root + 1 ensures RunAt(u, n) && SoundNode(fmt, capacity, u[n]) {
      assert RunAt(t, n) && t[n] == u[n];
    }
  }

  // ----- the file -----

  predicate AllWritable(fmt: KeyFormat, nodes: seq<Node>, capacity: nat) {
    forall n :: 0 <= n < |nodes| ==> Writable(fmt, nodes[n], capacity)
  }

  /** The B-tree file: the nodes one after another. */
  function Image(fmt: KeyFormat, late: Late, nodes: seq<Node>, capacity: nat): (b: Bytes)
    requires AllWritable(fmt, nodes, capacity)
  {
    if nodes == [] then [] else
    Image(fmt, late, nodes[..|nodes| - 1], capacity) + NodeBytes(fmt, late, nodes[|nodes| - 1], capacity)
  }

  /** The fields of the header record (`BTHeaderRec`) that describe the tree. */
  datatype TreeFields = TreeFields(treeDepth: nat, rootNode: nat, leafRecords: nat,
                                   firstLeafNode: nat, lastLeafNode: nat, totalNodes: nat)

  /** Key length limit, key comparison and attributes: `tuneForCatalog`, `tuneForOverflow`. */
  function Tuning(fmt: KeyFormat): (nat, nat, nat) {
    match fmt
    case CatalogKeys => (516, 0xBC, 6)
    case ExtentKeys => (10, 0, 2)
  }

  function HeaderRecord(fmt: KeyFormat, t: TreeFields, nodeSize: nat, clumpSize: nat): HeaderBytes {
    BE16(t.treeDepth % U16) + BE32(t.rootNode % U32) + BE32(t.leafRecords % U32)
    + BE32(t.firstLeafNode % U32) + BE32(t.lastLeafNode % U32)
    + BE16(nodeSize % U16) + BE16(Tuning(fmt).0) + BE32(t.totalNodes % U32) + BE32(0)
    + [0, 0] + BE32(clumpSize % U32) + [0, Tuning(fmt).1] + BE32(Tuning(fmt).2) + Zeros(64)
  }

  class TreeBuilder {
    const fmt: KeyFormat
    const nodeSize: nat
    var nodeList: seq<NodeSpec>
    var treeDepth: nat
    var rootNode: nat
    var leafRecords: nat
    var firstLeafNode: nat
    var lastLeafNode: nat
    var totalNodes: nat
    ghost var nodes: seq<Node>  // what the listed nodes hold

    ghost predicate Valid()
      reads this`nodeList, this`nodes, nodeList
    {
      && |nodeList| == |nodes| >= 1
      && (forall i, j :: 0 <= i < j < |nodeList| ==> nodeList[i] != nodeList[j])
      && (forall i :: 0 <= i < |nodeList| ==>
            nodeList[i].Valid() && nodeList[i].fmt == fmt && nodeList[i].View() == nodes[i])
    }

    method List(node: NodeSpec)
      requires Valid() && node.Valid() && node.fmt == fmt && node !in nodeList
      modifies this`nodeList, this`nodes
      ensures Valid() && nodeList == old(nodeList) + [node] && nodes == old(nodes) + [node.View()]
    {
      nodeList := nodeList + [node];
      nodes := nodes + [node.View()];
    }

    /** Lists a full node, and opens the next one of its level. */
    method CloseNode(prev: NodeSpec, height: nat) returns (next: NodeSpec)
      requires Valid() && prev.Valid() && prev.fmt == fmt && prev !in nodeList
      modifies this`nodeList, this`nodes, prev
      ensures Valid() && nodeList == old(nodeList) + [prev]
      ensures nodes == old(nodes) + [old(prev.View()).(fLink := |old(nodeList)| + 1)]
      ensures fresh(next) && next.Valid() && next.fmt == fmt && next.View() == Blank(height, |old(nodeList)|)
    {
      var past := |nodeList|;
      nodeList := nodeList + [prev];
      next := new NodeSpec(fmt, KindAt(height), height);
      prev.fLink := past + 1;
      next.bLink := past;
      nodes := nodes + [prev.View()];
    }

    /** One round of the packing loop: `next` is the node being filled, `base` the first of its level. */
    method PackRecord(next: NodeSpec, index: seq<Rec>, ghost base: nat, height: nat, r: Rec)
      returns (next': NodeSpec, index': seq<Rec>)
      requires Valid() && base <= |nodes|
      requires next.Valid() && next.fmt == fmt && next !in nodeList
      requires Occupied(fmt, [r]) <= nodeSize
      modifies this`nodeList, this`nodes, next
      ensures Valid() && next'.Valid() && next'.fmt == fmt && next' !in nodeList && next'.recs != []
      ensures if next' == next then nodeList == old(nodeList) && nodes == old(nodes)
              else fresh(next') && nodeList == old(nodeList) + [next] && old(nodes) <= nodes
      ensures var was := Packing(old(nodes)[base..], old(next.View()), index);
              Packing(nodes[base..], next'.View(), index') ==
              if old(next.recs) == [] then was.(last := was.last.(recs := [r]), index := index + [Pointer(KeyOf(r), |old(nodeList)|)])
              else PackNext(fmt, base, height, nodeSize, was, r)
    {
      next', index' := next, index;
      assert [] + [r] == [r];
      next.FitsExactly(nodeSize, r);
      if !next.FitsIn(nodeSize, r.Size(fmt)) {
        next' := CloseNode(next, height);
      }
      if next'.numRecords == 0 {
        index' := index + [Pointer(KeyOf(r), |nodeList|)];
      }
      next'.Put(r);
    }

    /** `compactLevel`: the records of a sorted map, packed into new nodes at the end of the list. */
    method CompactLevel(recs: seq<Rec>, height: nat) returns (index: seq<Rec>)
      requires Valid() && recs != []
      requires forall r :: r in recs ==> Occupied(fmt, [r]) <= nodeSize
      modifies this`nodeList, this`nodes
      ensures Valid() && old(nodeList) <= nodeList && |nodeList| == |nodes|
      ensures forall i :: |old(nodeList)| <= i < |nodeList| ==> fresh(nodeList[i])
      ensures var p := Pack(fmt, |old(nodes)|, height, nodeSize, recs);
              nodes == old(nodes) + p.Nodes() && index == p.index
    {
      hide Occupied, PackNext;
      ghost var base := |nodes|;
      index := [];
      var next := new NodeSpec(fmt, KindAt(height), height);
      for i := 0 to |recs|
        invariant Valid() && old(nodes) <= nodes && old(nodeList) <= nodeList
        invariant forall j :: |old(nodeList)| <= j < |nodeList| ==> fresh(nodeList[j])
        invariant fresh(next) && next !in nodeList && next.Valid() && next.fmt == fmt
        invariant i == 0 ==> nodes == old(nodes) && index == [] && next.View() == Blank(height, 0)
        invariant i > 0 ==> next.recs != [] && Packing(nodes[base..], next.View(), index) == Pack(fmt, base, height, nodeSize, recs[..i])
      {
        assert recs[..i + 1][..i] == recs[..i];
        next, index := PackRecord(next, index, base, height, recs[i]);
      }
      List(next);
      assert recs[..|recs|] == recs;
    }

    /** Index levels, one on top of another, until a single record is left. */
    method IndexLevels(leafIndex: seq<Rec>, ghost leaves: seq<Node>, ghost m: map<Key, Bytes>) returns (indices: seq<Rec>, level: nat)
      requires Valid() && Growing(fmt, nodeSize, nodes, leaves, leafIndex, 1, m)
      modifies this`nodeList, this`nodes
      ensures Valid() && old(nodeList) <= nodeList && old(nodes) <= nodes && |nodeList| == |nodes|
      ensures forall i :: |old(nodeList)| <= i < |nodeList| ==> fresh(nodeList[i])
      ensures |indices| <= 1 && Growing(fmt, nodeSize, nodes, leaves, indices, level, m)
    {
      assert |nodeList| == |nodes|;
      hide Occupied, Pack, Growing, Valid;
      indices, level := leafIndex, 1;
      while |indices| > 1
        invariant Valid() && old(nodeList) <= nodeList && old(nodes) <= nodes && |nodeList| == |nodes|
        invariant forall i :: |old(nodeList)| <= i < |nodeList| ==> fresh(nodeList[i])
        invariant Growing(fmt, nodeSize, nodes, leaves, indices, level, m)
        decreases |indices|
      {
        IndexPass(fmt, nodeSize, nodes, leaves, indices, level, m);
        level := level + 1;
        indices := CompactLevel(indices, level);
      }
    }

    /** The leaf level and the index levels on top of it. */
    method BuildNodes(recs: seq<Rec>, ghost m: map<Key, Bytes>) returns (level: nat, last: nat)
      requires Valid() && |nodes| == |nodeList| == 1
      requires recs != [] && Lists(recs, m) && PairsFit(fmt, recs, nodeSize)
      requires forall r :: r in recs ==> r.Encodable(fmt) && Occupied(fmt, [r]) <= nodeSize
      modifies this`nodeList, this`nodes
      ensures Valid() && old(nodeList) <= nodeList && old(nodes) <= nodes && |nodeList| == |nodes|
      ensures forall i :: 1 <= i < |nodeList| ==> fresh(nodeList[i])
      ensures TreeOf(fmt, nodeSize, nodes, recs, m, |nodes| - 1, level, 1, last)
    {
      hide Occupied, Pack, PairsFit, Lists, Growing, TreeOf, Rec.Encodable, Valid;
      var leafIndex := CompactLevel(recs, 1);
      last := |nodeList| - 1;
      LeafPass(fmt, nodeSize, old(nodes), recs, m);
      ghost var leaves := Pack(fmt, 1, 1, nodeSize, recs).Nodes();
      assert last == |leaves|;
      var indices;
      indices, level := IndexLevels(leafIndex, leaves, m);
      RootPass(fmt, nodeSize, nodes, recs, indices, level, m);
    }

    /** The leaf pass and the index passes of `compactBTree`. */
    method BuildLevels(recs: seq<Rec>, ghost m: map<Key, Bytes>)
      requires Valid() && |nodes| == 1
      requires recs != [] && Lists(recs, m) && PairsFit(fmt, recs, nodeSize)
      requires forall r :: r in recs ==> r.Encodable(fmt) && Occupied(fmt, [r]) <= nodeSize
      modifies this`nodeList, this`nodes, this`firstLeafNode, this`lastLeafNode, this`leafRecords,
               this`rootNode, this`treeDepth
      ensures Valid() && old(nodeList) <= nodeList && old(nodes) <= nodes
      ensures forall i :: 1 <= i < |nodeList| ==> fresh(nodeList[i])
      ensures TreeOf(fmt, nodeSize, nodes, recs, m, rootNode, treeDepth, firstLeafNode, lastLeafNode)
      ensures rootNode == |nodes| - 1 && leafRecords == |recs|
    {
      hide Occupied, PairsFit, Lists, TreeOf, Rec.Encodable;
      firstLeafNode := |nodeList|;
      leafRecords := |recs|;
      treeDepth, lastLeafNode := BuildNodes(recs, m);
      rootNode := |nodeList| - 1;
    }

    /** Fills the rest of node `k` with a map record; returns its length. */
    method FillMap(k: nat, done: nat) returns (mset: int)
      requires Valid() && k < |nodes|
      requires nodeSize > 256 && (nodes[k].recs == [Header, User] || nodes[k].recs == [])
      modifies this`nodes, nodeList[k]
      ensures Valid()
      ensures mset == (if old(nodes)[k].recs == [] then MapLen(nodeSize) else HeadLen(nodeSize)) > 0
      ensures nodes == Filled(old(nodes), k, done, mset)
    {
      var mapNode := nodeList[k];
      MapFreeSpace(mapNode);
      mset := mapNode.FreeSpace(nodeSize);
      mapNode.Put(Bits(done, mset));
      nodes := nodes[k := mapNode.View()];
    }

    /** Links node `k` to a new, empty map node at the end of the list. */
    method ExtendMap(k: nat) returns (mapNode: NodeSpec)
      requires Valid() && k < |nodes|
      modifies this`nodes, this`nodeList, nodeList[k]
      ensures Valid() && old(nodeList) + [mapNode] == nodeList && fresh(mapNode)
      ensures nodes == Extended(old(nodes), k)
    {
      var lastNoNo := if k == 0 then 0 else |nodeList| - 1;
      nodeList[k].fLink := |nodeList|;
      nodes := nodes[k := nodeList[k].View()];
      mapNode := new NodeSpec(fmt, MapNode, 0);
      mapNode.bLink := lastNoNo;
      List(mapNode);
    }

    /** The last loop of `compactBTree`: map records, in as many map nodes as they need. */
    method AddMapNodes()
      requires Valid() && nodeSize > 256
      requires nodes[0] == Node(HeaderNode, 0, 0, 0, [Header, User])
      modifies this`nodeList, this`nodes, this`totalNodes, nodeList[0]
      ensures Valid() && old(nodeList) <= nodeList
      ensures |old(nodes)| <= |nodes| && nodes[1..|old(nodes)|] == old(nodes)[1..]
      ensures Mapped(nodeSize, nodes, |old(nodes)|) && totalNodes == |nodes|
    {
      hide Covered, Mapped, Mapping;
      MappingStart(nodeSize, nodes);
      var k: nat := 0;  // the number of `mapNode`
      var done: nat := 0;
      while true
        invariant Valid() && old(nodeList) <= nodeList && k < |nodeList|
        invariant k > 0 ==> fresh(nodeList[k])
        invariant Mapping(nodeSize, old(nodes), nodes, k, done)
        decreases |nodeList| + 7 - 8 * done
      {
        var bits := |nodeList|;
        MappingStep(nodeSize, old(nodes), nodes, k, done, if k == 0 then HeadLen(nodeSize) else MapLen(nodeSize));
        var mset := FillMap(k, done);
        done := done + mset;
        if done >= (bits + 7) / 8 { break; }
        var mapNode := ExtendMap(k);
        k := |nodeList| - 1;
      }
      totalNodes := |nodeList|;
    }

    constructor (fmt: KeyFormat, nodeSize: nat)
      ensures Valid() && this.fmt == fmt && this.nodeSize == nodeSize && fresh(nodeList[0])
      ensures nodes == [Node(HeaderNode, 0, 0, 0, [Header, User])]
    {
      this.fmt, this.nodeSize := fmt, nodeSize;
      var headerRec := new NodeSpec(fmt, HeaderNode, 0);
      headerRec.Put(Header);
      headerRec.Put(User);
      nodeList := [headerRec];
      nodes := [Node(HeaderNode, 0, 0, 0, [Header, User])];
      treeDepth, rootNode, leafRecords, firstLeafNode, lastLeafNode, totalNodes := 0, 0, 0, 0, 0, 0;
    }

    /** `compactBTree`, on the bindings of a map in key order. */
    method CompactBTree(recs: seq<Rec>, ghost m: map<Key, Bytes>)
      requires Valid() && nodeSize > 256
      requires nodes == [Node(HeaderNode, 0, 0, 0, [Header, User])]
      requires Lists(recs, m) && PairsFit(fmt, recs, nodeSize)
      requires forall r :: r in recs ==> r.Encodable(fmt) && Occupied(fmt, [r]) <= nodeSize
      modifies this, nodeList[0]
      ensures Valid()
      ensures if recs == [] then rootNode == treeDepth == firstLeafNode == lastLeafNode == leafRecords == 0
              else TreeOf(fmt, nodeSize, nodes, recs, m, rootNode, treeDepth, firstLeafNode, lastLeafNode) && leafRecords == |recs|
      ensures Mapped(nodeSize, nodes, rootNode + 1) && totalNodes == |nodes|
    {
      hide TreeOf, Lists, PairsFit, Occupied;
      if recs != [] {
        BuildLevels(recs, m);
      } else {
        rootNode, treeDepth, firstLeafNode, lastLeafNode, leafRecords := 0, 0, 0, 0, 0;
      }
      ghost var tree := nodes;
      AddMapNodes();
      if recs != [] {
        TreeStable(fmt, nodeSize, tree, nodes, recs, m, rootNode, treeDepth, firstLeafNode, lastLeafNode);
      }
    }

    function Fields(): TreeFields
      reads this
    {
      TreeFields(treeDepth, rootNode, leafRecords, firstLeafNode, lastLeafNode, totalNodes)
    }

    /** `writeTo`: every node in turn; the header record is read now. */
    method WriteTo(out: Output, clumpSize: nat, bitmap: nat -> byte) returns (ok: bool)
      requires Valid() && AllWritable(fmt, nodes, nodeSize)
      modifies out
      ensures ok <==> OnSector(|old(out.bytes)|) && OnSector(nodeSize)
      ensures ok ==> out.bytes == old(out.bytes)
                                  + Image(fmt, Late(HeaderRecord(fmt, Fields(), nodeSize, clumpSize), bitmap), nodes, nodeSize)
    {
      hide NodeBytes, HeaderRecord, Writable;
      var late := Late(HeaderRecord(fmt, Fields(), nodeSize, clumpSize), bitmap);
      ok := true;
      for i := 0 to |nodeList|
        invariant AllWritable(fmt, nodes[..i], nodeSize)
        invariant OnSector(|out.bytes|) || out.bytes == old(out.bytes)
        invariant ok <==> i == 0 || (OnSector(|old(out.bytes)|) && OnSector(nodeSize))
        invariant ok ==> out.bytes == old(out.bytes) + Image(fmt, late, nodes[..i], nodeSize)
      {
        NextNode(fmt, late, nodes, i, nodeSize, old(out.bytes));
        hide Image, AllWritable, OnSector;
        if OnSector(|out.bytes|) { SectorsAdd(|out.bytes|, nodeSize); }
        ok := nodeList[i].WriteTo(out, late, nodeSize);
        if !ok { return; }
      }
      assert nodes[..|nodes|] == nodes;
    }
  }

  lemma {:induction false} NextNode(fmt: KeyFormat, late: Late, nodes: seq<Node>, i: nat, capacity: nat, before: Bytes)
    requires i < |nodes| && AllWritable(fmt, nodes, capacity)
    ensures Writable(fmt, nodes[i], capacity) && AllWritable(fmt, nodes[..i], capacity) && AllWritable(fmt, nodes[..i + 1], capacity)
    ensures before + Image(fmt, late, nodes[..i], capacity) + NodeBytes(fmt, late, nodes[i], capacity)
            == before + Image(fmt, late, nodes[..i + 1], capacity)
  {
    hide Writable;
    assert nodes[..i + 1][..i] == nodes[..i];
    assert Image(fmt, late, nodes[..i + 1], capacity) == Image(fmt, late, nodes[..i], capacity) + NodeBytes(fmt, late, nodes[i], capacity);
    hide Image, NodeBytes;
    Associate(before, Image(fmt, late, nodes[..i], capacity), NodeBytes(fmt, late, nodes[i], capacity));
  }
}
