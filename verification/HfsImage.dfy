/** The B-tree file byte for byte: what `TreeBuilder::writeTo` writes, what a host parses back from it,
    and that a host searching the bytes finds exactly what the map holds. */
module HfsImage {
  import opened Bytes
  import opened Lexical
  import opened HfsNode
  import opened HfsSearch
  import opened Options
  import opened HfsTree
  import opened Words
  import opened Blocks

  // ----- reading one node -----

  function NumRecords(node: Bytes): nat
    requires |node| >= DESC
  {
    FromBE16(node[10..12])
  }

  /** The offset of record `i`, from the table at the end of the node; one more gives the free space. */
  function OffsetOf(node: Bytes, i: nat): nat
    requires OFFS * (i + 1) <= |node|
  {
    FromBE16(node[|node| - OFFS * (i + 1)..|node| - OFFS * i])
  }

  /** The bytes of record `i`, or none where the node is malformed. */
  function RecordAt(node: Bytes, i: nat): Bytes {
    if OFFS * (i + 2) <= |node| && OffsetOf(node, i) <= OffsetOf(node, i + 1) <= |node|
    then node[OffsetOf(node, i)..OffsetOf(node, i + 1)] else []
  }

  function ParseKey(fmt: KeyFormat, rec: Bytes): Key
    requires |rec| >= 12 || (fmt.CatalogKeys? && |rec| >= 8)
  {
    match fmt
    case CatalogKeys =>
      var len := 2 * FromBE16(rec[6..8]);
      [FromBE32(rec[2..6])] + if 8 + len <= |rec| then NameOf(rec[8..8 + len]) else []
    case ExtentKeys =>
      [FromBE32(rec[4..8]), rec[2], FromBE32(rec[8..12])]
  }

  /** A record of a leaf or index node: the key says its own length, and the rest is data or a child number. */
  function ParseRecord(fmt: KeyFormat, kind: NodeKind, rec: Bytes): Rec {
    if |rec| < 12 && (|rec| < 8 || fmt.ExtentKeys?) then User else
    var end := 2 + FromBE16(rec[..2]);
    if end > |rec| then User
    else if kind != IndexNode then Keyed(ParseKey(fmt, rec), rec[end..])
    else if end + 4 == |rec| then Pointer(ParseKey(fmt, rec), FromBE32(rec[end..]))
    else User
  }

  function ParseKind(b: byte): NodeKind {
    if b == 255 then LeafNode else if b == 0 then IndexNode else if b == 1 then HeaderNode else MapNode
  }

  function ParseNode(fmt: KeyFormat, node: Bytes): Node
    requires |node| >= DESC
  {
    var kind := ParseKind(node[8]);
    Node(kind, node[9], FromBE32(node[..4]), FromBE32(node[4..8]),
         seq(NumRecords(node), i requires 0 <= i => ParseRecord(fmt, kind, RecordAt(node, i))))
  }

  // ----- slicing a node -----

  lemma {:induction false} Slice(a: Bytes, b: Bytes, c: Bytes, i: nat, j: nat)
    requires i <= j <= |b|
    ensures (a + b + c)[|a| + i..|a| + j] == b[i..j]
  {}

  lemma {:induction false} TableAt(offsets: seq<nat>, j: nat)
    requires forall i :: 0 <= i < |offsets| ==> offsets[i] < U16
    requires j < |offsets|
    ensures OffsetTable(offsets)[OFFS * j..OFFS * j + 2] == BE16(offsets[j])
  {
    if j > 0 {
      TableAt(offsets[1..], j - 1);
      assert OffsetTable(offsets)[OFFS * j..OFFS * j + 2] == OffsetTable(offsets[1..])[OFFS * (j - 1)..OFFS * (j - 1) + 2];
    }
  }

  lemma {:induction false} RecBytesAt(fmt: KeyFormat, late: Late, recs: seq<Rec>, i: nat)
    requires forall r :: r in recs ==> r.Encodable(fmt)
    requires i < |recs|
    ensures Total(fmt, recs[..i]) <= Total(fmt, recs[..i + 1]) <= Total(fmt, recs)
    ensures RecBytes(fmt, late, recs)[Total(fmt, recs[..i])..Total(fmt, recs[..i + 1])] == recs[i].Encode(fmt, late)
  {
    hide Rec.Encode, Rec.Encodable, Rec.Size, Total;
    var init, last := recs[..|recs| - 1], recs[|recs| - 1].Encode(fmt, late);
    var lo, hi := Total(fmt, recs[..i]), Total(fmt, recs[..i + 1]);
    TotalOfPrefix(fmt, recs, i + 1);
    TotalAppend(fmt, recs[..i], recs[i]);
    assert recs[..i + 1] == recs[..i] + [recs[i]];
    var front := RecBytes(fmt, late, init);
    assert RecBytes(fmt, late, recs) == [] + front + last == front + last + [];
    if i < |init| {
      assert init[..i] == recs[..i] && init[..i + 1] == recs[..i + 1];
      RecBytesAt(fmt, late, init, i);
      Slice([], front, last, lo, hi);
    } else {
      assert recs[..i + 1] == recs && recs[..i] == init;
      Slice(front, last, [], 0, |last|);
    }
  }

  /** Reading a written node back slices out exactly the records that were put in. */
  lemma {:induction false} NodeRoundTrip(fmt: KeyFormat, late: Late, node: Node, capacity: nat, i: nat)
    requires Writable(fmt, node, capacity) && i < |node.recs|
    ensures var b := NodeBytes(fmt, late, node, capacity);
            && NumRecords(b) == |node.recs|
            && RecordAt(b, i) == node.recs[i].Encode(fmt, late)
  {
    hide NodeBytes, Descriptor, RecBytes, Total, Occupied;
    var recs := node.recs;
    var rest := NodeParts(fmt, late, node, capacity);
    OffsetAt(fmt, late, node, capacity, i);
    OffsetAt(fmt, late, node, capacity, i + 1);
    RecBytesAt(fmt, late, recs, i);
    Slice(Descriptor(node), RecBytes(fmt, late, recs), rest, Total(fmt, recs[..i]), Total(fmt, recs[..i + 1]));
  }

  lemma {:induction false} NodeParts(fmt: KeyFormat, late: Late, node: Node, capacity: nat) returns (rest: Bytes)
    requires Writable(fmt, node, capacity)
    ensures var b := NodeBytes(fmt, late, node, capacity);
            b == Descriptor(node) + RecBytes(fmt, late, node.recs) + rest && NumRecords(b) == |node.recs|
    ensures Occupied(fmt, node.recs) <= capacity
  {
    hide Total, Descriptor, RecBytes, OffsetTable, BE16, BE32;
    OffsetsBounded(fmt, node.recs);
    var head, body := Descriptor(node), RecBytes(fmt, late, node.recs);
    var pad, table := Zeros(capacity - Occupied(fmt, node.recs)), OffsetTable(Offsets(fmt, node.recs));
    rest := pad + table;
    Associate(head + body, pad, table);
    DescriptorFields(node);
    Slice([], head, body + rest, 10, 12);
    assert [] + head + (body + rest) == head + body + rest;
  }

  /** What is left of a node is blank: two bytes of the descriptor, and everything between the records and
      the offsets. */
  lemma {:induction false} NodeRest(fmt: KeyFormat, late: Late, node: Node, capacity: nat)
    requires Writable(fmt, node, capacity)
    ensures Occupied(fmt, node.recs) <= capacity && OFFS * (|node.recs| + 1) <= capacity
    ensures var b, n := NodeBytes(fmt, late, node, capacity), |node.recs|;
            && b[12..14] == [0, 0]
            && OffsetOf(b, n) <= capacity - OFFS * (n + 1)
            && b[OffsetOf(b, n)..capacity - OFFS * (n + 1)] == Zeros(capacity - OFFS * (n + 1) - OffsetOf(b, n))
  {
    hide NodeBytes, OffsetOf, Descriptor, Total, Zeros, RecBytes;
    var n := |node.recs|;
    OffsetAt(fmt, late, node, capacity, n);
    assert node.recs[..n] == node.recs;
    FreeBlank(fmt, late, node, capacity);
    var rest := NodeParts(fmt, late, node, capacity);
    Reserved(node);
    var head, body := Descriptor(node), RecBytes(fmt, late, node.recs);
    Associate(head, body, rest);
    Slice([], head, body + rest, 12, 14);
    assert [] + head + (body + rest) == head + (body + rest);
  }

  lemma {:induction false} Reserved(node: Node)
    requires node.fLink < U32 && node.bLink < U32 && node.height < 256 && |node.recs| < U16
    ensures Descriptor(node)[12..14] == [0, 0]
  {
    hide BE16, BE32;
  }

  lemma {:induction false} FreeBlank(fmt: KeyFormat, late: Late, node: Node, capacity: nat)
    requires Writable(fmt, node, capacity)
    ensures var at, end := DESC + Total(fmt, node.recs), capacity - OFFS * (|node.recs| + 1);
            at <= end && NodeBytes(fmt, late, node, capacity)[at..end] == Zeros(end - at)
  {
    hide Descriptor, RecBytes, OffsetTable, Total, Zeros, Rec.Encodable;
    OffsetsBounded(fmt, node.recs);
    var front, pad := Descriptor(node) + RecBytes(fmt, late, node.recs), Zeros(capacity - Occupied(fmt, node.recs));
    Slice(front, pad, OffsetTable(Offsets(fmt, node.recs)), 0, |pad|);
  }

  lemma {:induction false} DescriptorFields(node: Node)
    requires node.fLink < U32 && node.bLink < U32 && node.height < 256 && |node.recs| < U16
    ensures var d := Descriptor(node);
            && d[..4] == BE32(node.fLink) && d[4..8] == BE32(node.bLink)
            && d[8] == KindByte(node.kind) && d[9] == node.height
            && d[10..12] == BE16(|node.recs|)
  {
    hide BE16, BE32;
  }

  lemma {:induction false} OffsetAt(fmt: KeyFormat, late: Late, node: Node, capacity: nat, i: nat)
    requires Writable(fmt, node, capacity) && i <= |node.recs|
    ensures OFFS * (i + 1) <= capacity
    ensures OffsetOf(NodeBytes(fmt, late, node, capacity), i) == DESC + Total(fmt, node.recs[..i])
  {
    var recs := node.recs;
    var b, offsets := NodeBytes(fmt, late, node, capacity), Offsets(fmt, recs);
    OffsetsBounded(fmt, recs);
    hide Descriptor, RecBytes, Rec.Encodable, BE16, FromBE16, Total;
    var table := OffsetTable(offsets);
    var front := Descriptor(node) + RecBytes(fmt, late, recs) + Zeros(capacity - Occupied(fmt, recs));
    assert b == front + table + [];
    var j := |recs| - i;
    TableAt(offsets, j);
    Slice(front, table, [], OFFS * j, OFFS * j + 2);
    assert recs[..|recs| - j] == recs[..i];
  }

  // ----- reading one record -----

  lemma {:induction false} NameRoundTrip(name: Key)
    requires forall i :: 0 <= i < |name| ==> 0 <= name[i] < U16
    ensures NameOf(NameBytes(name)) == name
  {
    if name != [] {
      NameRoundTrip(name[1..]);
      assert NameBytes(name)[..2] == BE16(name[0]) && NameBytes(name)[2..] == NameBytes(name[1..]);
    }
  }

  lemma {:induction false} Parted(b: Bytes, a0: Bytes, a1: Bytes, a2: Bytes, a3: Bytes, tail: Bytes)
    requires b == a0 + a1 + a2 + a3 + tail && |a0| == 2 && |a1| == 4 && |a2| == 2
    ensures b[..2] == a0 && b[2..6] == a1 && b[6..8] == a2 && b[8..8 + |a3|] == a3
  {
  }

  lemma {:induction false} KeyRoundTrip(fmt: KeyFormat, key: Key, tail: Bytes)
    requires KeyFits(fmt, key)
    ensures var b := EncodeKey(fmt, key) + tail;
            && FromBE16(b[..2]) + 2 == KeySize(fmt, key)
            && ParseKey(fmt, b) == key && (fmt.ExtentKeys? ==> b[3] == 0)
  {
    var b := EncodeKey(fmt, key) + tail;
    match fmt
    case CatalogKeys =>
      NameRoundTrip(key[1..]);
      var a3 := NameBytes(key[1..]);
      hide NameBytes, BE32, BE16;
      var a0, a1, a2 := BE16(4 + 2 * |key|), BE32(key[0]), BE16(|key| - 1);
      Parted(b, a0, a1, a2, a3, tail);
    case ExtentKeys =>
      var a0, a1, a2, a3 := BE16(10), [key[1], 0], BE32(key[0]), BE32(key[2]);
      assert b == a0 + a1 + a2 + a3 + tail;
      assert b[..2] == a0 && b[2..4] == a1 && b[4..8] == a2 && b[8..12] == a3;
      assert b[2..4][0] == a1[0] && b[2..4][1] == a1[1];
  }

  /** A record of a leaf or index node is read back as it was, if the child's number fits its field. */
  lemma {:induction false} RecordRoundTrip(fmt: KeyFormat, late: Late, kind: NodeKind, r: Rec)
    requires r.Encodable(fmt)
    requires if kind == IndexNode then r.Pointer? && r.child < U32 else r.Keyed?
    ensures ParseRecord(fmt, kind, r.Encode(fmt, late)) == r
  {
    hide EncodeKey, ParseKey, BE32, FromBE32, FromBE16;
    var tail := if r.Keyed? then r.payload else BE32(r.child);
    KeyRoundTrip(fmt, r.key, tail);
    assert (EncodeKey(fmt, r.key) + tail)[KeySize(fmt, r.key)..] == tail;
  }

  // ----- reading the file -----

  /** A tree node is read back as it was. */
  lemma {:induction false} NodeParses(fmt: KeyFormat, late: Late, node: Node, capacity: nat)
    requires Writable(fmt, node, capacity) && (node.kind == LeafNode || node.kind == IndexNode)
    requires forall r :: r in node.recs ==> if node.kind == IndexNode then r.Pointer? && r.child < U32 else r.Keyed?
    ensures ParseNode(fmt, NodeBytes(fmt, late, node, capacity)) == node
  {
    hide NodeBytes, Descriptor, ParseRecord, RecordAt, RecBytes, Occupied, BE32, FromBE32, BE16, FromBE16;
    var b := NodeBytes(fmt, late, node, capacity);
    var rest := NodeParts(fmt, late, node, capacity);
    DescriptorFields(node);
    var head, tail := Descriptor(node), RecBytes(fmt, late, node.recs) + rest;
    Associate(head, RecBytes(fmt, late, node.recs), rest);
    assert b == head + tail;
    assert b[..4] == head[..4] && b[4..8] == head[4..8] && b[8] == head[8] && b[9] == head[9];
    forall i | 0 <= i < |node.recs|
      ensures ParseRecord(fmt, node.kind, RecordAt(b, i)) == node.recs[i]
    {
      NodeRoundTrip(fmt, late, node, capacity, i);
      RecordRoundTrip(fmt, late, node.kind, node.recs[i]);
    }
    assert ParseNode(fmt, b).recs == node.recs;
  }

  /** Of any node, the descriptor and the number of records are read back; the records are sliced out
      as `NodeRoundTrip` says. */
  lemma {:induction false} NodeHead(fmt: KeyFormat, late: Late, node: Node, capacity: nat)
    requires Writable(fmt, node, capacity)
    ensures var p := ParseNode(fmt, NodeBytes(fmt, late, node, capacity));
            p.(recs := []) == node.(recs := []) && |p.recs| == |node.recs|
  {
    hide NodeBytes, Descriptor, ParseRecord, RecordAt, RecBytes, Occupied, BE32, FromBE32, BE16, FromBE16, Rec.Encodable;
    var b := NodeBytes(fmt, late, node, capacity);
    var rest := NodeParts(fmt, late, node, capacity);
    DescriptorFields(node);
    var head, tail := Descriptor(node), RecBytes(fmt, late, node.recs) + rest;
    Associate(head, RecBytes(fmt, late, node.recs), rest);
    assert b == head + tail;
    assert b[..4] == head[..4] && b[4..8] == head[4..8] && b[8] == head[8] && b[9] == head[9];
    assert b[10..12] == head[10..12];
  }

  lemma {:induction false} ImageLength(fmt: KeyFormat, late: Late, nodes: seq<Node>, capacity: nat)
    requires AllWritable(fmt, nodes, capacity)
    ensures |Image(fmt, late, nodes, capacity)| == |nodes| * capacity
  {
    hide NodeBytes, Writable;
    if nodes != [] {
      ImageLength(fmt, late, nodes[..|nodes| - 1], capacity);
      Successor(|nodes| - 1, capacity);
    }
  }

  /** Block number `n` of the file, empty if the file ends before it does. */
  function Block(b: Bytes, n: nat, size: nat): Bytes {
    if n * size + size <= |b| then b[n * size..n * size + size] else []
  }

  lemma {:induction false} Successor(n: nat, d: nat)
    ensures (n + 1) * d == n * d + d
  {}

  /** Node `n` of the file starts at byte `n` times the node size. */
  lemma {:induction false} ImageAt(fmt: KeyFormat, late: Late, nodes: seq<Node>, capacity: nat, n: nat)
    requires AllWritable(fmt, nodes, capacity) && n < |nodes|
    ensures Block(Image(fmt, late, nodes, capacity), n, capacity) == NodeBytes(fmt, late, nodes[n], capacity)
  {
    hide NodeBytes, Writable;
    var init, last := nodes[..|nodes| - 1], NodeBytes(fmt, late, nodes[|nodes| - 1], capacity);
    assert AllWritable(fmt, init, capacity);
    var front := Image(fmt, late, init, capacity);
    assert Image(fmt, late, nodes, capacity) == front + last;
    hide Image, Block;
    ImageLength(fmt, late, init, capacity);
    if n < |init| {
      Multiples(n, |init|, capacity);
      ImageAt(fmt, late, init, capacity, n);
      BlockInFront(front, last, n, capacity);
    } else {
      LastBlock(front, last, n, capacity);
    }
  }

  lemma {:induction false} BlockInFront(front: Bytes, last: Bytes, n: nat, size: nat)
    requires n * size + size <= |front|
    ensures Block(front + last, n, size) == Block(front, n, size)
  {}

  lemma {:induction false} LastBlock(front: Bytes, last: Bytes, n: nat, size: nat)
    requires n * size == |front| && |last| == size
    ensures Block(front + last, n, size) == last
  {}

  /** The nodes a host finds in a file, given the node size. */
  function ParseFile(fmt: KeyFormat, b: Bytes, nodeSize: nat): seq<Node>
    requires nodeSize >= DESC
  {
    seq(|b| / nodeSize, n requires 0 <= n < |b| / nodeSize =>
      assert n * nodeSize + nodeSize <= |b| by { Multiples(n, |b| / nodeSize, nodeSize); }
      ParseNode(fmt, Block(b, n, nodeSize)))
  }

  lemma {:induction false} Multiples(n: nat, q: nat, d: nat)
    requires n < q
    ensures n * d + d <= q * d
  {
    assert (n + 1) * d <= q * d;
  }

  /** The header record as a host reads it from the first node. */
  datatype HostHeader = HostHeader(depth: nat, root: nat, leafRecords: nat, firstLeaf: nat, lastLeaf: nat, nodeSize: nat, maxKey: nat,
                                   totalNodes: nat, freeNodes: nat, clumpSize: nat, treeType: byte, compare: byte, attributes: nat, reserved: Bytes)

  function HeaderOf(b: Bytes): HostHeader
    requires |b| > 256
  {
    HostHeader(FromBE16(b[14..16]), FromBE32(b[16..20]), FromBE32(b[20..24]), FromBE32(b[24..28]), FromBE32(b[28..32]), FromBE16(b[32..34]),
               FromBE16(b[34..36]), FromBE32(b[36..40]), FromBE32(b[40..44]), FromBE32(b[46..50]), b[50], b[51], FromBE32(b[52..56]), b[44..46] + b[56..120])
  }

  /** A host's search in a B-tree file for the greatest key not above a given one: depth, root and node
      size come from the header record. */
  function HostFloor(fmt: KeyFormat, b: Bytes, k: Key): Option<Binding> {
    if |b| <= 256 || HeaderOf(b).nodeSize < DESC then None else
    var h := HeaderOf(b);
    Search(ParseFile(fmt, b, h.nodeSize), h.root, h.depth, k)
  }

  /** A host's scan of all records: from the first leaf along the links to the last. */
  function HostScan(fmt: KeyFormat, b: Bytes): seq<Rec> {
    if |b| <= 256 || HeaderOf(b).nodeSize < DESC || HeaderOf(b).firstLeaf == 0 then [] else
    var h := HeaderOf(b);
    Scan(ParseFile(fmt, b, h.nodeSize), h.firstLeaf, h.lastLeaf, h.totalNodes)
  }

  /** The map records from node `n` on, along the links. The header node has its map record last. */
  function MapFrom(fmt: KeyFormat, b: Bytes, nodeSize: nat, n: nat, fuel: nat): Bytes
    decreases fuel
  {
    var node := Block(b, n, nodeSize);
    if |node| < DESC then [] else
    var next := ParseNode(fmt, node).fLink;
    RecordAt(node, if n == 0 then 2 else 0) + if next == 0 || fuel == 0 then [] else MapFrom(fmt, b, nodeSize, next, fuel - 1)
  }

  /** The node bitmap as a host collects it. */
  function HostBitmap(fmt: KeyFormat, b: Bytes): Bytes {
    if |b| <= 256 then [] else MapFrom(fmt, b, HeaderOf(b).nodeSize, 0, HeaderOf(b).totalNodes)
  }

  /** A host's look-up of a key. */
  function HostSearch(fmt: KeyFormat, b: Bytes, k: Key): Option<Bytes> {
    Exact(HostFloor(fmt, b, k), k)
  }

  // ----- the whole file -----

  lemma {:induction false} HeightsRise(nodes: seq<Node>, n: nat)
    requires Runs(nodes) && 1 <= n < |nodes|
    ensures nodes[n].height <= nodes[|nodes| - 1].height
    ensures nodes[n].fLink <= |nodes| && nodes[n].bLink <= n
    decreases |nodes| - n
  {
    assert RunAt(nodes, n);
    if n > 1 { assert RunAt(nodes, n - 1); }
    if n + 1 < |nodes| { HeightsRise(nodes, n + 1); }
  }

  lemma {:induction false} Pow2Rises(n: nat)
    requires n >= 32
    ensures Pow2(n) >= U32
  {
    if n > 32 {
      Pow2Rises(n - 1);
    } else {
      assert Pow2(8) == 256 && Pow2(16) == 256 * Pow2(8) && Pow2(24) == 256 * Pow2(16) && Pow2(32) == 256 * Pow2(24);
    }
  }

  /** A tree of fewer than 2^32 nodes is so shallow that all its fields fit their widths. */
  lemma {:induction false} TreeWritable(fmt: KeyFormat, capacity: nat, nodes: seq<Node>, recs: seq<Rec>, m: map<Key, Bytes>,
                                        t: TreeFields, n: nat)
    requires TreeOf(fmt, capacity, nodes, recs, m, t.rootNode, t.treeDepth, t.firstLeafNode, t.lastLeafNode)
    requires |nodes| < U32 && capacity < U16 && 1 <= n <= t.rootNode
    ensures Writable(fmt, nodes[n], capacity) && t.treeDepth < 256 && t.rootNode < |nodes|
    ensures nodes[n].kind == LeafNode || nodes[n].kind == IndexNode
    ensures forall r :: r in nodes[n].recs ==> if nodes[n].kind == IndexNode then r.Pointer? && r.child < U32 else r.Keyed?
  {
    hide Occupied, Search, Scan;
    var tree, node := nodes[..t.rootNode + 1], nodes[n];
    assert tree[n] == node && tree[t.rootNode] == nodes[t.rootNode];
    HeightsRise(tree, n);
    if t.treeDepth >= 34 { Pow2Rises(t.treeDepth - 2); }
    assert SoundNode(fmt, capacity, tree[n]);
    assert PointsDown(nodes[..n], nodes[n]);
  }

  lemma {:induction false} HeadRecords(fmt: KeyFormat, bits: Rec)
    requires bits.Bits?
    ensures var recs := [Header, User, bits];
            Occupied(fmt, recs) == bits.len + 256 && forall r :: r in recs ==> r.Encodable(fmt)
  {
    TotalAppend(fmt, [], Header);
    TotalAppend(fmt, [] + [Header], User);
    TotalAppend(fmt, [] + [Header] + [User], bits);
    assert [Header, User, bits] == [] + [Header] + [User] + [bits];
  }

  lemma {:induction false} MapRecords(fmt: KeyFormat, bits: Rec)
    requires bits.Bits?
    ensures Occupied(fmt, [bits]) == bits.len + 18 && forall r :: r in [bits] ==> r.Encodable(fmt)
  {
    TotalAppend(fmt, [], bits);
    assert [bits] == [] + [bits];
  }

  lemma {:induction false} MapWritable(fmt: KeyFormat, capacity: nat, nodes: seq<Node>, first: nat, n: nat)
    requires Mapped(capacity, nodes, first) && |nodes| < U32 && capacity < U16
    requires n == 0 || first <= n < |nodes|
    ensures Writable(fmt, nodes[n], capacity)
  {
    hide Covered, Occupied, Rec.Encodable;
    if n == 0 {
      assert nodes[0] == HeaderView(capacity, first, |nodes|);
      HeadRecords(fmt, nodes[0].recs[2]);
    } else {
      assert nodes[n] == MapView(capacity, first, |nodes|, n);
      MapRecords(fmt, nodes[n].recs[0]);
    }
    hide Mapped;
  }

  /** The header record is where a host looks for it: in the first node, after the descriptor. */
  lemma {:induction false} HeaderInPlace(fmt: KeyFormat, late: Late, nodes: seq<Node>, capacity: nat, first: nat)
    requires Mapped(capacity, nodes, first) && AllWritable(fmt, nodes, capacity)
    ensures var b := Image(fmt, late, nodes, capacity);
            |b| >= capacity > 256 && b[14..120] == late.header
  {
    hide Image, NodeBytes, Writable;
    var b, node := Image(fmt, late, nodes, capacity), NodeBytes(fmt, late, nodes[0], capacity);
    ImageLength(fmt, late, nodes, capacity);
    Multiples(0, |nodes|, capacity);
    ImageAt(fmt, late, nodes, capacity, 0);
    assert node == b[..capacity];
    NodeRoundTrip(fmt, late, nodes[0], capacity, 0);
    OffsetAt(fmt, late, nodes[0], capacity, 0);
    OffsetAt(fmt, late, nodes[0], capacity, 1);
    assert nodes[0].recs[..1] == [] + [Header];
    TotalAppend(fmt, [], Header);
    HeaderSlice(b, node, late.header);
  }

  lemma {:induction false} HeaderSlice(b: Bytes, node: Bytes, h: Bytes)
    requires |b| >= |node| > 256 && node == b[..|node|] && |h| == HEADER_REC && node[14..120] == h
    ensures b[14..120] == h
  {
    forall k | 0 <= k < HEADER_REC ensures b[14..120][k] == h[k] { assert b[14 + k] == node[14 + k] == node[14..120][k]; }
  }

  /** What a host reads there. */
  lemma {:induction false} HeaderRead(fmt: KeyFormat, t: TreeFields, nodeSize: nat, clumpSize: nat, b: Bytes)
    requires |b| > 256 && b[14..120] == HeaderRecord(fmt, t, nodeSize, clumpSize)
    ensures HeaderOf(b) == HostHeader(t.treeDepth % U16, t.rootNode % U32, t.leafRecords % U32, t.firstLeafNode % U32, t.lastLeafNode % U32,
                                      nodeSize % U16, if fmt == CatalogKeys then 516 else 10, t.totalNodes % U32, 0, clumpSize % U32,
                                      0, if fmt == CatalogKeys then 0xBC else 0, if fmt == CatalogKeys then 6 else 2, Zeros(66))
  {
    var h: Bytes := HeaderRecord(fmt, t, nodeSize, clumpSize);
    RecordFields(fmt, t, nodeSize, clumpSize);
    hide HeaderRecord, BE16, BE32, FromBE16, FromBE32, Zeros;
    FieldsAt(b, h);
  }

  lemma {:induction false} RecordFields(fmt: KeyFormat, t: TreeFields, nodeSize: nat, clumpSize: nat)
    ensures var h: Bytes := HeaderRecord(fmt, t, nodeSize, clumpSize);
            && h[0..2] == BE16(t.treeDepth % U16) && h[2..6] == BE32(t.rootNode % U32) && h[6..10] == BE32(t.leafRecords % U32)
            && h[10..14] == BE32(t.firstLeafNode % U32) && h[14..18] == BE32(t.lastLeafNode % U32) && h[18..20] == BE16(nodeSize % U16)
            && h[20..22] == BE16(Tuning(fmt).0) && h[22..26] == BE32(t.totalNodes % U32) && h[26..30] == BE32(0) && h[32..36] == BE32(clumpSize % U32)
            && h[36] == 0 && h[37] == Tuning(fmt).1 && h[38..42] == BE32(Tuning(fmt).2) && h[30..32] + h[42..106] == Zeros(66)
  {
    hide BE16, BE32;
    var h: Bytes := HeaderRecord(fmt, t, nodeSize, clumpSize);
    var tree := BE16(t.treeDepth % U16) + BE32(t.rootNode % U32) + BE32(t.leafRecords % U32) + BE32(t.firstLeafNode % U32) + BE32(t.lastLeafNode % U32);
    var size := BE16(nodeSize % U16) + BE16(Tuning(fmt).0) + BE32(t.totalNodes % U32) + BE32(0);
    var rest := [0, 0] + BE32(clumpSize % U32) + [0, Tuning(fmt).1] + BE32(Tuning(fmt).2) + Zeros(64);
    assert h == tree + size + rest;
    hide HeaderRecord, Zeros, Tuning;
    assert h[..18] == tree && h[18..30] == size && h[30..106] == rest;
    InTree(h, tree, t.treeDepth % U16, t.rootNode % U32, t.leafRecords % U32, t.firstLeafNode % U32, t.lastLeafNode % U32);
    InSize(h, size, nodeSize % U16, Tuning(fmt).0, t.totalNodes % U32);
    InRest(h, rest, clumpSize % U32, Tuning(fmt).1, Tuning(fmt).2);
  }

  lemma {:induction false} InTree(h: Bytes, tree: Bytes, depth: nat, root: nat, count: nat, first: nat, last: nat)
    requires depth < U16 && root < U32 && count < U32 && first < U32 && last < U32 && |h| == HEADER_REC && h[..18] == tree
    requires tree == BE16(depth) + BE32(root) + BE32(count) + BE32(first) + BE32(last)
    ensures h[0..2] == BE16(depth) && h[2..6] == BE32(root) && h[6..10] == BE32(count) && h[10..14] == BE32(first) && h[14..18] == BE32(last)
  {
    hide BE16, BE32;
    forall k | 0 <= k < 18 ensures h[k] == tree[k] { assert h[k] == h[..18][k]; }
  }

  lemma {:induction false} InSize(h: Bytes, size: Bytes, nodeSize: nat, maxKey: nat, total: nat)
    requires nodeSize < U16 && maxKey < U16 && total < U32 && |h| == HEADER_REC && h[18..30] == size
    requires size == BE16(nodeSize) + BE16(maxKey) + BE32(total) + BE32(0)
    ensures h[18..20] == BE16(nodeSize) && h[20..22] == BE16(maxKey) && h[22..26] == BE32(total) && h[26..30] == BE32(0)
  {
    hide BE16, BE32;
    forall k | 18 <= k < 30 ensures h[k] == size[k - 18] { assert h[k] == h[18..30][k - 18]; }
  }

  lemma {:induction false} InRest(h: Bytes, rest: Bytes, clump: nat, compare: byte, attributes: nat)
    requires clump < U32 && attributes < U32 && |h| == HEADER_REC && h[30..106] == rest
    requires rest == [0, 0] + BE32(clump) + [0, compare] + BE32(attributes) + Zeros(64)
    ensures h[32..36] == BE32(clump) && h[36] == 0 && h[37] == compare && h[38..42] == BE32(attributes)
    ensures h[30..32] + h[42..106] == Zeros(66)
  {
    hide BE32;
    forall k | 30 <= k < 106 ensures h[k] == rest[k - 30] { assert h[k] == h[30..106][k - 30]; }
  }

  /** The fields of the header record, by their places in the file. */
  lemma {:induction false} FieldsAt(b: Bytes, h: Bytes)
    requires |b| > 256 && |h| == HEADER_REC && b[14..120] == h
    ensures b[14..16] == h[0..2] && b[16..20] == h[2..6] && b[20..24] == h[6..10] && b[24..28] == h[10..14] && b[28..32] == h[14..18]
    ensures b[32..34] == h[18..20] && b[34..36] == h[20..22] && b[36..40] == h[22..26] && b[40..44] == h[26..30] && b[46..50] == h[32..36]
    ensures b[50] == h[36] && b[51] == h[37] && b[52..56] == h[38..42] && b[44..46] == h[30..32] && b[56..120] == h[42..106]
  {
    forall k | 0 <= k < HEADER_REC ensures b[14 + k] == h[k] { assert b[14 + k] == b[14..120][k]; }
  }

  /** What `CompactBTree` leaves behind. */
  ghost predicate Finished(fmt: KeyFormat, capacity: nat, nodes: seq<Node>, recs: seq<Rec>, m: map<Key, Bytes>, t: TreeFields) {
    && Mapped(capacity, nodes, t.rootNode + 1) && t.leafRecords == |recs| && t.totalNodes == |nodes|
    && if recs == [] then t.rootNode == t.treeDepth == t.firstLeafNode == t.lastLeafNode == 0
       else TreeOf(fmt, capacity, nodes, recs, m, t.rootNode, t.treeDepth, t.firstLeafNode, t.lastLeafNode)
  }

  lemma {:induction false} FinishedWritable(fmt: KeyFormat, capacity: nat, nodes: seq<Node>, recs: seq<Rec>, m: map<Key, Bytes>, t: TreeFields)
    requires Finished(fmt, capacity, nodes, recs, m, t)
    requires |nodes| < U32 && capacity < U16
    ensures AllWritable(fmt, nodes, capacity)
  {
    hide Writable, TreeOf, Mapped;
    forall n | 0 <= n < |nodes| ensures Writable(fmt, nodes[n], capacity) {
      if 1 <= n <= t.rootNode {
        TreeWritable(fmt, capacity, nodes, recs, m, t, n);
      } else {
        MapWritable(fmt, capacity, nodes, t.rootNode + 1, n);
      }
    }
  }

  /** A host parses every tree node of the file as it was. */
  lemma {:induction false} FileParses(fmt: KeyFormat, late: Late, capacity: nat, nodes: seq<Node>, recs: seq<Rec>,
                                      m: map<Key, Bytes>, t: TreeFields, n: nat)
    requires TreeOf(fmt, capacity, nodes, recs, m, t.rootNode, t.treeDepth, t.firstLeafNode, t.lastLeafNode)
    requires AllWritable(fmt, nodes, capacity) && |nodes| < U32 && DESC <= capacity < U16 && 1 <= n <= t.rootNode
    ensures var parsed := ParseFile(fmt, Image(fmt, late, nodes, capacity), capacity);
            |parsed| == |nodes| && parsed[n] == nodes[n]
  {
    hide Image, Writable, Search, ParseNode, NodeBytes, Runs, Wired, Sound, Scan, LeafChain;
    ImageLength(fmt, late, nodes, capacity);
    Quotient(|nodes|, 0, capacity);
    TreeWritable(fmt, capacity, nodes, recs, m, t, n);
    NodeParses(fmt, late, nodes[n], capacity);
    ImageAt(fmt, late, nodes, capacity, n);
  }

  /** And the descriptor of every node, header and map nodes included. */
  lemma {:induction false} FileHeads(fmt: KeyFormat, late: Late, capacity: nat, nodes: seq<Node>, n: nat)
    requires AllWritable(fmt, nodes, capacity) && DESC <= capacity < U16 && n < |nodes|
    ensures var parsed := ParseFile(fmt, Image(fmt, late, nodes, capacity), capacity);
            |parsed| == |nodes| && parsed[n].(recs := []) == nodes[n].(recs := []) && |parsed[n].recs| == |nodes[n].recs|
  {
    hide Image, Writable, ParseNode, NodeBytes;
    ImageLength(fmt, late, nodes, capacity);
    Quotient(|nodes|, 0, capacity);
    NodeHead(fmt, late, nodes[n], capacity);
    ImageAt(fmt, late, nodes, capacity, n);
  }

  lemma {:induction false} FileSearch(fmt: KeyFormat, late: Late, capacity: nat, nodes: seq<Node>, recs: seq<Rec>,
                                      m: map<Key, Bytes>, t: TreeFields, k: Key)
    requires TreeOf(fmt, capacity, nodes, recs, m, t.rootNode, t.treeDepth, t.firstLeafNode, t.lastLeafNode)
    requires AllWritable(fmt, nodes, capacity) && |nodes| < U32 && DESC <= capacity < U16
    ensures t.rootNode < |nodes| && t.treeDepth < 256
    ensures IsFloor(m, k, Search(ParseFile(fmt, Image(fmt, late, nodes, capacity), capacity), t.rootNode, t.treeDepth, k))
  {
    hide Image, Writable, Search, ParseFile, Runs, Wired, Sound, Scan, LeafChain;
    var root := t.rootNode;
    var parsed, tree := ParseFile(fmt, Image(fmt, late, nodes, capacity), capacity), nodes[..root + 1];
    forall n | 1 <= n <= root ensures |parsed| == |nodes| && nodes[n] == parsed[n] {
      FileParses(fmt, late, capacity, nodes, recs, m, t, n);
    }
    TreeWritable(fmt, capacity, nodes, recs, m, t, root);
    WiredPrefix(nodes, root + 1);
    SearchStable(tree, nodes, root, t.treeDepth, k);
    SearchStable(tree, parsed, root, t.treeDepth, k);
  }

  /** The host finds in the bytes of the file exactly what the map holds: the binding with the greatest
      key not above the wanted one, hence the value of every key of the map, and nothing for any other. */
  lemma {:induction false} HostFinds(fmt: KeyFormat, capacity: nat, nodes: seq<Node>, recs: seq<Rec>, m: map<Key, Bytes>,
                                     t: TreeFields, clumpSize: nat, bitmap: nat -> byte, k: Key)
    requires Lists(recs, m) && Finished(fmt, capacity, nodes, recs, m, t)
    requires |nodes| < U32 && capacity < U16
    ensures AllWritable(fmt, nodes, capacity)
    ensures var b := Image(fmt, Late(HeaderRecord(fmt, t, capacity, clumpSize), bitmap), nodes, capacity);
            && IsFloor(m, k, HostFloor(fmt, b, k)) && HostSearch(fmt, b, k) == Lookup(m, k)
            && Tells(fmt, b, recs, |nodes|, capacity, clumpSize, bitmap)
  {
    hide Tells, Finished, Lists, Image, Writable, Search, HeaderRecord, ParseFile, TreeOf, Mapped, BE16, BE32, FromBE16, FromBE32, IsFloor;
    FileTells(fmt, capacity, nodes, recs, m, t, clumpSize, bitmap);
    FileAnswers(fmt, capacity, nodes, recs, m, t, clumpSize, bitmap, k);
    FloorIsExact(m, k, HostFloor(fmt, Image(fmt, Late(HeaderRecord(fmt, t, capacity, clumpSize), bitmap), nodes, capacity), k));
  }

  lemma {:induction false} FileAnswers(fmt: KeyFormat, capacity: nat, nodes: seq<Node>, recs: seq<Rec>, m: map<Key, Bytes>,
                                       t: TreeFields, clumpSize: nat, bitmap: nat -> byte, k: Key)
    requires Lists(recs, m) && Finished(fmt, capacity, nodes, recs, m, t)
    requires |nodes| < U32 && capacity < U16
    ensures AllWritable(fmt, nodes, capacity)
    ensures IsFloor(m, k, HostFloor(fmt, Image(fmt, Late(HeaderRecord(fmt, t, capacity, clumpSize), bitmap), nodes, capacity), k))
  {
    hide Lists, Image, Writable, Search, HeaderRecord, ParseFile, TreeOf, Mapped, BE16, BE32, FromBE16, FromBE32, IsFloor;
    FinishedWritable(fmt, capacity, nodes, recs, m, t);
    var late := Late(HeaderRecord(fmt, t, capacity, clumpSize), bitmap);
    HeaderInPlace(fmt, late, nodes, capacity, t.rootNode + 1);
    var b := Image(fmt, late, nodes, capacity);
    HeaderRead(fmt, t, capacity, clumpSize, b);
    if recs == [] {
      EmptySearch(ParseFile(fmt, b, capacity), recs, m, k);
    } else {
      FileSearch(fmt, late, capacity, nodes, recs, m, t, k);
    }
  }

  // ----- what else a host reads -----

  lemma {:induction false} ScanEnough(nodes: seq<Node>, n: nat, last: nat, fuel: nat)
    requires LeafChain(nodes, n, last) && fuel >= last - n
    ensures Scan(nodes, n, last, fuel) == Scan(nodes, n, last, last - n)
    decreases last - n
  {
    if n < last {
      assert nodes[n].fLink == n + 1 && LeafChain(nodes, n + 1, last);
      hide LeafChain;
      ScanEnough(nodes, n + 1, last, fuel - 1);
    }
  }

  lemma {:induction false} ChainPrefix(nodes: seq<Node>, first: nat, last: nat, n: nat, other: seq<Node>)
    requires LeafChain(nodes, first, last) && last < n <= |nodes| && n <= |other| && forall i :: 1 <= i < n ==> other[i] == nodes[i]
    ensures LeafChain(nodes[..n], first, last) && LeafChain(other, first, last)
  {
  }

  /** The scan of the parsed file yields all records. */
  lemma {:induction false} FileScan(fmt: KeyFormat, late: Late, capacity: nat, nodes: seq<Node>, recs: seq<Rec>,
                                    m: map<Key, Bytes>, t: TreeFields, fuel: nat)
    requires TreeOf(fmt, capacity, nodes, recs, m, t.rootNode, t.treeDepth, t.firstLeafNode, t.lastLeafNode)
    requires AllWritable(fmt, nodes, capacity) && |nodes| < U32 && DESC <= capacity < U16 && fuel >= |nodes|
    ensures 1 <= t.firstLeafNode <= t.lastLeafNode < |nodes|
    ensures Scan(ParseFile(fmt, Image(fmt, late, nodes, capacity), capacity), t.firstLeafNode, t.lastLeafNode, fuel) == recs
  {
    hide Image, Writable, Search, ParseFile, Runs, Wired, Sound, Scan, LeafChain;
    var n, first, last := t.rootNode + 1, t.firstLeafNode, t.lastLeafNode;
    var parsed, tree := ParseFile(fmt, Image(fmt, late, nodes, capacity), capacity), nodes[..n];
    forall i | 1 <= i < n ensures |parsed| == |nodes| && nodes[i] == parsed[i] {
      FileParses(fmt, late, capacity, nodes, recs, m, t, i);
    }
    ChainPrefix(nodes, first, last, n, parsed);
    ScanStable(tree, nodes, first, last);
    ScanStable(tree, parsed, first, last);
    LeavesWithin(nodes, first, last);
    ScanEnough(parsed, first, last, fuel);
  }

  lemma {:induction false} LeavesWithin(nodes: seq<Node>, first: nat, last: nat)
    requires LeafChain(nodes, first, last)
    ensures 1 <= first <= last < |nodes|
  {
  }

  /** `len` bytes of a bitmap from one on. */
  function Cut(bitmap: nat -> byte, from: nat, len: nat): (b: Bytes)
    ensures |b| == len && forall i: nat :: i < len ==> b[i] == bitmap(from + i)
  {
    seq(len, i requires 0 <= i => bitmap(from + i))
  }

  lemma {:induction false} BitmapCut(late: Late, from: nat, len: nat)
    ensures BitmapBytes(late, from, len) == Cut(late.bitmap, from, len)
  {
    if len > 0 {
      BitmapCut(late, from, len - 1);
      assert Cut(late.bitmap, from, len) == Cut(late.bitmap, from, len - 1) + [late.bitmap(from + len - 1)];
      hide Cut;
    }
  }

  lemma {:induction false} CutMore(bitmap: nat -> byte, from: nat, a: nat, b: nat)
    ensures Cut(bitmap, from, a) + Cut(bitmap, from + a, b) == Cut(bitmap, from, a + b)
  {
    assert Cut(bitmap, from, a) + Cut(bitmap, from + a, b) == Cut(bitmap, from, a + b);
  }

  /** The map record of one node. */
  lemma {:induction false} MapAt(fmt: KeyFormat, late: Late, capacity: nat, nodes: seq<Node>, first: nat, n: nat)
    requires Mapped(capacity, nodes, first) && AllWritable(fmt, nodes, capacity) && DESC <= capacity && (n == 0 || first <= n < |nodes|)
    ensures var node := Block(Image(fmt, late, nodes, capacity), n, capacity);
            && |node| >= DESC && ParseNode(fmt, node).fLink == nodes[n].fLink
            && RecordAt(node, if n == 0 then 2 else 0)
               == if n == 0 then Cut(late.bitmap, 0, HeadLen(capacity)) else Cut(late.bitmap, Covered(capacity, n - first), MapLen(capacity))
  {
    hide Image, NodeBytes, Writable, ParseNode, RecordAt, Covered, Cut, Block;
    ImageAt(fmt, late, nodes, capacity, n);
    NodeHead(fmt, late, nodes[n], capacity);
    BlockSize(fmt, late, nodes[n], capacity);
    if n == 0 {
      NodeRoundTrip(fmt, late, nodes[0], capacity, 2);
      BitmapCut(late, 0, HeadLen(capacity));
    } else {
      assert nodes[n] == MapView(capacity, first, |nodes|, n);
      NodeRoundTrip(fmt, late, nodes[n], capacity, 0);
      BitmapCut(late, Covered(capacity, n - first), MapLen(capacity));
    }
  }

  lemma {:induction false} BlockSize(fmt: KeyFormat, late: Late, node: Node, capacity: nat)
    requires Writable(fmt, node, capacity)
    ensures |NodeBytes(fmt, late, node, capacity)| == capacity
  {
  }

  /** Map nodes from number `n` on hold the rest of the bitmap. */
  lemma {:induction false} MapRest(fmt: KeyFormat, late: Late, capacity: nat, nodes: seq<Node>, first: nat, n: nat, fuel: nat)
    requires Mapped(capacity, nodes, first) && AllWritable(fmt, nodes, capacity) && DESC <= capacity && first <= n < |nodes|
    requires fuel >= |nodes| - n
    ensures Covered(capacity, n - first) >= 0 && Covered(capacity, |nodes| - first) >= Covered(capacity, n - first)
    ensures MapFrom(fmt, Image(fmt, late, nodes, capacity), capacity, n, fuel)
         == Cut(late.bitmap, Covered(capacity, n - first), Covered(capacity, |nodes| - first) - Covered(capacity, n - first))
    decreases |nodes| - n
  {
    hide Image, ParseNode, RecordAt, Covered, MapLen, Cut, Block, Mapped, MapFrom, AllWritable;
    MapAt(fmt, late, capacity, nodes, first, n);
    MapLinks(capacity, nodes, first, n);
    CoveredNext(capacity, n - first);
    var b := Image(fmt, late, nodes, capacity);
    MapFromIs(fmt, b, capacity, n, fuel);
    if n + 1 < |nodes| {
      MapRest(fmt, late, capacity, nodes, first, n + 1, fuel - 1);
      CutMore(late.bitmap, Covered(capacity, n - first), MapLen(capacity), Covered(capacity, |nodes| - first) - Covered(capacity, n + 1 - first));
    }
  }

  lemma {:induction false} MapFromIs(fmt: KeyFormat, b: Bytes, size: nat, n: nat, fuel: nat)
    requires |Block(b, n, size)| >= DESC && fuel > 0
    ensures var node := Block(b, n, size);
            var next := ParseNode(fmt, node).fLink;
            var rec := RecordAt(node, if n == 0 then 2 else 0);
            MapFrom(fmt, b, size, n, fuel) == if next == 0 then rec else rec + MapFrom(fmt, b, size, next, fuel - 1)
  {
    hide ParseNode, RecordAt, Block;
  }

  lemma {:induction false} MapLinks(capacity: nat, nodes: seq<Node>, first: nat, n: nat)
    requires Mapped(capacity, nodes, first) && (n == 0 || first <= n < |nodes|)
    ensures capacity > 256 && 1 <= first <= |nodes|
    ensures nodes[n].fLink == if n == 0 then (if first < |nodes| then first else 0) else if n + 1 < |nodes| then n + 1 else 0
    ensures 8 * Covered(capacity, |nodes| - first) >= |nodes|
  {
    if n > 0 { assert nodes[n] == MapView(capacity, first, |nodes|, n); }
  }

  lemma {:induction false} CoveredNext(capacity: nat, n: nat)
    requires capacity > 256
    ensures Covered(capacity, n) >= 0 && Covered(capacity, n + 1) == Covered(capacity, n) + MapLen(capacity)
    ensures Covered(capacity, 0) == HeadLen(capacity) >= 0 && MapLen(capacity) >= 0
  {
    assert (n + 1) * MapLen(capacity) == n * MapLen(capacity) + MapLen(capacity);
  }

  /** Along the links a host collects the bitmap from its first byte on, with a bit for every node. */
  lemma {:induction false} BitmapCollected(fmt: KeyFormat, late: Late, capacity: nat, nodes: seq<Node>, first: nat, fuel: nat)
    requires Mapped(capacity, nodes, first) && AllWritable(fmt, nodes, capacity) && DESC <= capacity && fuel >= |nodes|
    ensures Covered(capacity, |nodes| - first) >= 0 && 8 * Covered(capacity, |nodes| - first) >= |nodes|
    ensures MapFrom(fmt, Image(fmt, late, nodes, capacity), capacity, 0, fuel) == Cut(late.bitmap, 0, Covered(capacity, |nodes| - first))
  {
    hide Image, ParseNode, RecordAt, Covered, MapLen, HeadLen, Cut, Block, Mapped, MapFrom, AllWritable;
    MapAt(fmt, late, capacity, nodes, first, 0);
    MapLinks(capacity, nodes, first, 0);
    CoveredNext(capacity, 0);
    MapFromIs(fmt, Image(fmt, late, nodes, capacity), capacity, 0, fuel);
    if first < |nodes| {
      MapRest(fmt, late, capacity, nodes, first, first, fuel - 1);
      CutMore(late.bitmap, 0, HeadLen(capacity), Covered(capacity, |nodes| - first) - HeadLen(capacity));
    }
  }

  /** What a file says of itself: its size in nodes and the keys to expect, its records in order from the
      first leaf to the last and their number, a bitmap with a bit for every node, and a blank user record. */
  ghost predicate Tells(fmt: KeyFormat, b: Bytes, recs: seq<Rec>, total: nat, size: nat, clumpSize: nat, bitmap: nat -> byte) {
    && HeaderTells(fmt, b, |recs|, total, size, clumpSize)
    && HostScan(fmt, b) == recs
    && BitmapTells(HostBitmap(fmt, b), total, bitmap)
    && RecordAt(Block(b, 0, size), 1) == Zeros(128)
    && size >= DESC && NodesTold(ParseFile(fmt, b, size), HeaderOf(b).root, total)
  }

  /** The nodes by their descriptors: the header node in front, leaves and index nodes up to the root, linked
      level by level, and map nodes behind, linked to each other and to the header node. */
  ghost predicate NodesTold(nodes: seq<Node>, root: nat, total: nat) {
    && |nodes| == total > root
    && nodes[0].kind == HeaderNode && nodes[0].height == nodes[0].bLink == 0 && nodes[0].fLink == (if root + 1 < total then root + 1 else 0)
    && (forall n :: 1 <= n <= root ==> TreeTold(nodes, root, n))
    && (forall n :: root < n < total && n > 0 ==> MapTold(nodes, root, n))
  }

  predicate TreeTold(nodes: seq<Node>, root: nat, n: nat)
    requires 1 <= n <= root < |nodes|
  {
    nodes[n].kind == (if nodes[n].height == 1 then LeafNode else IndexNode) && RunAt(nodes[..root + 1], n)
  }

  predicate MapTold(nodes: seq<Node>, root: nat, n: nat)
    requires 0 < n < |nodes|
  {
    && nodes[n].kind == MapNode && nodes[n].height == 0
    && nodes[n].bLink == (if n == root + 1 then 0 else n - 1)
    && nodes[n].fLink == (if n + 1 < |nodes| then n + 1 else 0)
  }

  ghost predicate HeaderTells(fmt: KeyFormat, b: Bytes, count: nat, total: nat, size: nat, clumpSize: nat) {
    && |b| > 256
    && var h := HeaderOf(b);
    && h.nodeSize == size && h.totalNodes == total && |b| == total * size && h.freeNodes == 0 && h.clumpSize == clumpSize % U32 && h.treeType == 0
    && h.reserved == Zeros(66) && h.leafRecords == count % U32 && KeysDeclared(fmt, h)
  }

  ghost predicate BitmapTells(bits: Bytes, total: nat, bitmap: nat -> byte) {
    8 * |bits| >= total && forall i: nat :: i < |bits| ==> bits[i] == bitmap(i)
  }

  /** The key limit, the comparison and the attributes: catalog keys, compared in binary, vary in size and
      have names of at most 255 characters; extent keys are all of one size. */
  ghost predicate KeysDeclared(fmt: KeyFormat, h: HostHeader) {
    && (forall key: Key :: KeyFits(fmt, key) ==> DeclaredFor(fmt, h, key))
    && h.compare == (if fmt == CatalogKeys then 0xBC else 0)
    && h.attributes == 2 + (if fmt == CatalogKeys then 4 else 0)
  }

  predicate DeclaredFor(fmt: KeyFormat, h: HostHeader, key: Key) {
    match fmt
    case CatalogKeys => 2 + h.maxKey >= KeySize(fmt, key) <==> |key| - 1 <= 255
    case ExtentKeys => 2 + h.maxKey == KeySize(fmt, key)
  }

  lemma {:induction false} FileTells(fmt: KeyFormat, capacity: nat, nodes: seq<Node>, recs: seq<Rec>, m: map<Key, Bytes>,
                                     t: TreeFields, clumpSize: nat, bitmap: nat -> byte)
    requires Finished(fmt, capacity, nodes, recs, m, t) && |nodes| < U32 && capacity < U16
    ensures AllWritable(fmt, nodes, capacity)
    ensures Tells(fmt, Image(fmt, Late(HeaderRecord(fmt, t, capacity, clumpSize), bitmap), nodes, capacity), recs, |nodes|, capacity, clumpSize, bitmap)
  {
    hide *;
    FinishedWritable(fmt, capacity, nodes, recs, m, t);
    FinishedMeans(fmt, capacity, nodes, recs, m, t);
    var late := Late(HeaderRecord(fmt, t, capacity, clumpSize), bitmap);
    HeaderInPlace(fmt, late, nodes, capacity, t.rootNode + 1);
    ImageLength(fmt, late, nodes, capacity);
    var b := Image(fmt, late, nodes, capacity);
    HeaderSays(fmt, capacity, |nodes|, t, clumpSize, b);
    ScanSays(fmt, late, capacity, nodes, recs, m, t, clumpSize, b);
    BitmapSays(fmt, late, capacity, nodes, t, clumpSize, b);
    UserBlank(fmt, late, capacity, nodes, t.rootNode + 1);
    NodesSay(fmt, late, capacity, nodes, recs, m, t);
    HeaderRead(fmt, t, capacity, clumpSize, b);
    TellsAll(fmt, b, recs, |nodes|, capacity, clumpSize, bitmap, t.rootNode);
  }

  lemma {:induction false} FinishedMeans(fmt: KeyFormat, capacity: nat, nodes: seq<Node>, recs: seq<Rec>, m: map<Key, Bytes>, t: TreeFields)
    requires Finished(fmt, capacity, nodes, recs, m, t) && |nodes| < U32
    ensures Mapped(capacity, nodes, t.rootNode + 1) && capacity > 256 >= DESC && t.leafRecords == |recs|
    ensures t.totalNodes == |nodes| && t.rootNode < |nodes| && t.rootNode % U32 == t.rootNode
  {
  }

  lemma {:induction false} TellsAll(fmt: KeyFormat, b: Bytes, recs: seq<Rec>, total: nat, size: nat, clumpSize: nat, bitmap: nat -> byte, root: nat)
    requires HeaderTells(fmt, b, |recs|, total, size, clumpSize) && HostScan(fmt, b) == recs && BitmapTells(HostBitmap(fmt, b), total, bitmap)
    requires RecordAt(Block(b, 0, size), 1) == Zeros(128)
    requires size >= DESC && |b| > 256 && HeaderOf(b).root == root && NodesTold(ParseFile(fmt, b, size), root, total)
    ensures Tells(fmt, b, recs, total, size, clumpSize, bitmap)
  {
    hide HeaderTells, BitmapTells, NodesTold, HostScan, HostBitmap, HeaderOf, RecordAt, ParseFile, Block, Zeros;
  }

  lemma {:induction false} NodesSay(fmt: KeyFormat, late: Late, capacity: nat, nodes: seq<Node>, recs: seq<Rec>, m: map<Key, Bytes>, t: TreeFields)
    requires Finished(fmt, capacity, nodes, recs, m, t) && AllWritable(fmt, nodes, capacity) && |nodes| < U32 && DESC <= capacity < U16
    ensures NodesTold(ParseFile(fmt, Image(fmt, late, nodes, capacity), capacity), t.rootNode, |nodes|)
  {
    hide Image, ParseFile, TreeOf, AllWritable, Mapped, RunAt, MapTold, TreeTold;
    var parsed, root := ParseFile(fmt, Image(fmt, late, nodes, capacity), capacity), t.rootNode;
    FinishedMeans(fmt, capacity, nodes, recs, m, t);
    HeadSays(fmt, late, capacity, nodes, root);
    forall n | root < n < |nodes| && n > 0 ensures MapTold(parsed, root, n) { MapSays(fmt, late, capacity, nodes, root, n); }
    forall n | 1 <= n <= root ensures parsed[n] == nodes[n] { FileParses(fmt, late, capacity, nodes, recs, m, t, n); }
    assert nodes[1..root + 1] == parsed[1..root + 1];
    forall n | 1 <= n <= root ensures TreeTold(parsed, root, n) {
      TreeNodes(fmt, capacity, nodes, recs, m, t, n);
      ToldSame(nodes, parsed, root, n);
    }
  }

  lemma {:induction false} HeadSays(fmt: KeyFormat, late: Late, capacity: nat, nodes: seq<Node>, root: nat)
    requires Mapped(capacity, nodes, root + 1) && AllWritable(fmt, nodes, capacity) && DESC <= capacity < U16 && root < |nodes|
    ensures var parsed := ParseFile(fmt, Image(fmt, late, nodes, capacity), capacity);
            && |parsed| == |nodes| && parsed[0].kind == HeaderNode && parsed[0].height == parsed[0].bLink == 0
            && parsed[0].fLink == if root + 1 < |nodes| then root + 1 else 0
  {
    hide Image, ParseFile, AllWritable, Covered;
    FileHeads(fmt, late, capacity, nodes, 0);
  }

  lemma {:induction false} MapSays(fmt: KeyFormat, late: Late, capacity: nat, nodes: seq<Node>, root: nat, n: nat)
    requires Mapped(capacity, nodes, root + 1) && AllWritable(fmt, nodes, capacity) && DESC <= capacity < U16 && root < n < |nodes|
    ensures var parsed := ParseFile(fmt, Image(fmt, late, nodes, capacity), capacity); |parsed| == |nodes| && MapTold(parsed, root, n)
  {
    hide Image, ParseFile, AllWritable, Covered;
    FileHeads(fmt, late, capacity, nodes, n);
    assert nodes[n] == MapView(capacity, root + 1, |nodes|, n);
  }

  lemma {:induction false} ToldSame(v: seq<Node>, w: seq<Node>, root: nat, n: nat)
    requires |v| == |w| && 1 <= n <= root < |v| && v[1..root + 1] == w[1..root + 1] && TreeTold(v, root, n)
    ensures TreeTold(w, root, n)
  {
    assert v[n] == v[1..root + 1][n - 1] && w[n] == w[1..root + 1][n - 1];
    if n < root { assert v[n + 1] == v[1..root + 1][n] && w[n + 1] == w[1..root + 1][n]; }
  }

  lemma {:induction false} TreeNodes(fmt: KeyFormat, capacity: nat, nodes: seq<Node>, recs: seq<Rec>, m: map<Key, Bytes>, t: TreeFields, n: nat)
    requires TreeOf(fmt, capacity, nodes, recs, m, t.rootNode, t.treeDepth, t.firstLeafNode, t.lastLeafNode) && 1 <= n <= t.rootNode
    ensures t.rootNode < |nodes| && TreeTold(nodes, t.rootNode, n)
  {
    var tree := nodes[..t.rootNode + 1];
    HeightPositive(tree, n);
    assert tree[n] == nodes[n] && SoundNode(fmt, capacity, tree[n]) && RunAt(tree, n);
    hide Runs, Sound, Wired, Scan, Search, LeafChain, Occupied;
  }

  lemma {:induction false} HeightPositive(tree: seq<Node>, n: nat)
    requires Runs(tree) && 1 <= n < |tree|
    ensures tree[n].height >= 1
  {
    assert RunAt(tree, n);
    if n > 1 {
      assert RunAt(tree, n - 1);
      HeightPositive(tree, n - 1);
      hide Runs;
    }
  }

  lemma {:induction false} HeaderSays(fmt: KeyFormat, capacity: nat, total: nat, t: TreeFields, clumpSize: nat, b: Bytes)
    requires |b| == total * capacity > 256 && b[14..120] == HeaderRecord(fmt, t, capacity, clumpSize)
    requires t.totalNodes == total < U32 && capacity < U16
    ensures HeaderTells(fmt, b, t.leafRecords, total, capacity, clumpSize)
  {
    hide HeaderRecord, HeaderOf;
    HeaderRead(fmt, t, capacity, clumpSize, b);
  }

  lemma {:induction false} ScanSays(fmt: KeyFormat, late: Late, capacity: nat, nodes: seq<Node>, recs: seq<Rec>, m: map<Key, Bytes>,
                                    t: TreeFields, clumpSize: nat, b: Bytes)
    requires Finished(fmt, capacity, nodes, recs, m, t) && AllWritable(fmt, nodes, capacity) && |nodes| < U32 && DESC <= capacity < U16
    requires b == Image(fmt, late, nodes, capacity) && |b| > 256 && b[14..120] == HeaderRecord(fmt, t, capacity, clumpSize)
    ensures HostScan(fmt, b) == recs
  {
    hide Image, Writable, ParseFile, TreeOf, Mapped, Scan, HeaderOf, HeaderRecord;
    HeaderRead(fmt, t, capacity, clumpSize, b);
    if recs != [] { FileScan(fmt, late, capacity, nodes, recs, m, t, |nodes|); }
  }

  lemma {:induction false} BitmapSays(fmt: KeyFormat, late: Late, capacity: nat, nodes: seq<Node>, t: TreeFields, clumpSize: nat, b: Bytes)
    requires Mapped(capacity, nodes, t.rootNode + 1) && AllWritable(fmt, nodes, capacity) && t.totalNodes == |nodes| < U32 && DESC <= capacity < U16
    requires b == Image(fmt, late, nodes, capacity) && |b| > 256 && b[14..120] == HeaderRecord(fmt, t, capacity, clumpSize)
    ensures BitmapTells(HostBitmap(fmt, b), |nodes|, late.bitmap)
  {
    hide Image, Writable, Mapped, HeaderOf, HeaderRecord, MapFrom, Covered;
    HeaderRead(fmt, t, capacity, clumpSize, b);
    BitmapCollected(fmt, late, capacity, nodes, t.rootNode + 1, |nodes|);
  }

  /** The second record of the header node is reserved for the user, and blank. */
  lemma {:induction false} UserBlank(fmt: KeyFormat, late: Late, capacity: nat, nodes: seq<Node>, first: nat)
    requires Mapped(capacity, nodes, first) && AllWritable(fmt, nodes, capacity)
    ensures RecordAt(Block(Image(fmt, late, nodes, capacity), 0, capacity), 1) == Zeros(128)
  {
    hide Image, NodeBytes, Writable, RecordAt, Covered, Block;
    ImageAt(fmt, late, nodes, capacity, 0);
    NodeRoundTrip(fmt, late, nodes[0], capacity, 1);
  }

  lemma {:induction false} EmptySearch(nodes: seq<Node>, recs: seq<Rec>, m: map<Key, Bytes>, k: Key)
    requires Lists(recs, m) && recs == []
    ensures IsFloor(m, k, Search(nodes, 0, 0, k))
  {}

  lemma {:induction false} WiredPrefix(nodes: seq<Node>, n: nat)
    requires Wired(nodes) && n <= |nodes|
    ensures Wired(nodes[..n])
  {
    var v := nodes[..n];
    forall i | 1 <= i < n ensures PointsDown(v[..i], v[i]) { assert v[..i] == nodes[..i]; }
  }

  /** A tree from its map to the bytes of its file, and back. Nodes are counted in 32 bits: what comes
      after more of them (`!fits`) is not modelled. */
  method BuildFile(fmt: KeyFormat, nodeSize: nat, recs: seq<Rec>, ghost m: map<Key, Bytes>, clumpSize: nat, bitmap: nat -> byte, out: Output)
    returns (fits: bool, ok: bool, ghost nodes: seq<Node>, ghost t: TreeFields)
    requires 256 < nodeSize < U16 && Lists(recs, m) && PairsFit(fmt, recs, nodeSize)
    requires forall r :: r in recs ==> r.Encodable(fmt) && Occupied(fmt, [r]) <= nodeSize
    modifies out
    ensures Finished(fmt, nodeSize, nodes, recs, m, t) && fits == (|nodes| < U32)
    ensures fits ==> (ok <==> OnSector(|old(out.bytes)|) && OnSector(nodeSize))
    ensures fits && ok ==> old(out.bytes) <= out.bytes
    ensures fits && ok ==>
              var b := out.bytes[|old(out.bytes)|..];
              (forall k :: Answered(fmt, b, m, k)) && Tells(fmt, b, recs, |nodes|, nodeSize, clumpSize, bitmap)
  {
    hide Tells, Lists, PairsFit, Occupied, Rec.Encodable, OnSector, AllWritable, TreeOf, Mapped, Image;
    var tree := new TreeBuilder(fmt, nodeSize);
    tree.CompactBTree(recs, m);
    t, nodes := tree.Fields(), tree.nodes;
    assert Finished(fmt, nodeSize, nodes, recs, m, t);
    hide Finished;
    if tree.totalNodes >= U32 { return false, false, nodes, t; }
    FinishedWritable(fmt, nodeSize, nodes, recs, m, t);
    ghost var before := out.bytes;
    fits := true;
    ok := tree.WriteTo(out, clumpSize, bitmap);
    if ok {
      ghost var file := Image(fmt, Late(HeaderRecord(fmt, t, nodeSize, clumpSize), bitmap), nodes, nodeSize);
      assert out.bytes == before + file && out.bytes[|before|..] == file;
      FileTells(fmt, nodeSize, nodes, recs, m, t, clumpSize, bitmap);
      forall k ensures Answered(fmt, file, m, k) { HostFinds(fmt, nodeSize, nodes, recs, m, t, clumpSize, bitmap, k); }
    }
  }

  /** A host's searches of a file answer as the map does. */
  ghost predicate Answered(fmt: KeyFormat, b: Bytes, m: map<Key, Bytes>, k: Key) {
    IsFloor(m, k, HostFloor(fmt, b, k)) && HostSearch(fmt, b, k) == Lookup(m, k)
  }
}
