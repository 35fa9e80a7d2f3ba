/** B-tree records and nodes (`NodeSpec`), and the bytes a node is written as. */
module HfsNode {
  import opened Bytes
  import opened Lexical

  /** Which of the two trees: the catalog (variable keys) or the extents overflow file (fixed keys). */
  datatype KeyFormat = CatalogKeys | ExtentKeys

  /** A catalog key is [parent id] followed by the name; an extent key is [file id, fork, start block]. */
  predicate KeyFits(fmt: KeyFormat, key: Key) {
    match fmt
    case CatalogKeys =>
      && 1 <= |key| <= 0x7ff0
      && 0 <= key[0] < U32
      && (forall i :: 1 <= i < |key| ==> 0 <= key[i] < U16)
    case ExtentKeys =>
      |key| == 3 && 0 <= key[0] < U32 && 0 <= key[1] < 256 && 0 <= key[2] < U32
  }

  /** `RecordSize` of a key. */
  function KeySize(fmt: KeyFormat, key: Key): nat {
    match fmt
    case CatalogKeys => 6 + 2 * |key|
    case ExtentKeys => 12
  }

  function NameBytes(name: Key): (b: Bytes)
    requires forall i :: 0 <= i < |name| ==> 0 <= name[i] < U16
    ensures |b| == 2 * |name|
  {
    if name == [] then [] else BE16(name[0]) + NameBytes(name[1..])
  }

  function NameOf(b: Bytes): (name: Key)
    requires |b| % 2 == 0
  {
    if b == [] then [] else [FromBE16(b[..2])] + NameOf(b[2..])
  }

  function EncodeKey(fmt: KeyFormat, key: Key): (b: Bytes)
    requires KeyFits(fmt, key)
    ensures |b| == KeySize(fmt, key)
  {
    match fmt
    case CatalogKeys => BE16(4 + 2 * |key|) + BE32(key[0]) + BE16(|key| - 1) + NameBytes(key[1..])
    case ExtentKeys => BE16(10) + [key[1], 0] + BE32(key[0]) + BE32(key[2])
  }

  /** Sizes of the header record (`BTHeaderRec`) and of the user record next to it. */
  const HEADER_REC := 106
  const USER_REC := 128

  type HeaderBytes = b: Bytes | |b| == HEADER_REC witness Zeros(HEADER_REC)

  /** What a record only refers to, and is read when the node is written. */
  datatype Late = Late(header: HeaderBytes, bitmap: nat -> byte)

  function BitmapBytes(late: Late, from: nat, len: nat): (b: Bytes)
    ensures |b| == len
  {
    if len == 0 then [] else BitmapBytes(late, from, len - 1) + [late.bitmap(from + len - 1)]
  }

  /** A record: keyed data, a keyed pointer to a child node, the header record, the empty user
      record, or `len` bytes of the node bitmap from its byte `from` on (map record). */
  datatype Rec =
    | Keyed(key: Key, payload: Bytes)
    | Pointer(key: Key, child: nat)
    | Header
    | User
    | Bits(from: nat, len: nat)
  {
    function Size(fmt: KeyFormat): nat {
      match this
      case Keyed(key, payload) => KeySize(fmt, key) + |payload|
      case Pointer(key, _) => KeySize(fmt, key) + 4
      case Header => HEADER_REC
      case User => USER_REC
      case Bits(_, len) => len
    }

    predicate Encodable(fmt: KeyFormat) {
      Keyed? || Pointer? ==> KeyFits(fmt, key)
    }

    /** The bytes of the record. */
    function Encode(fmt: KeyFormat, late: Late): (b: Bytes)
      requires Encodable(fmt)
      ensures |b| == Size(fmt)
    {
      match this
      case Keyed(key, payload) => EncodeKey(fmt, key) + payload
      case Pointer(key, child) => EncodeKey(fmt, key) + BE32(child % U32)
      case Header => late.header
      case User => Zeros(USER_REC)
      case Bits(from, len) => BitmapBytes(late, from, len)
    }
  }

  datatype NodeKind = LeafNode | IndexNode | HeaderNode | MapNode

  /** What a finished node holds. */
  datatype Node = Node(kind: NodeKind, height: nat, fLink: nat, bLink: nat, recs: seq<Rec>)

  /** Size of the node descriptor, and of one entry of the record offset table. */
  const DESC := 14
  const OFFS := 2

  function Total(fmt: KeyFormat, recs: seq<Rec>): nat {
    if recs == [] then 0 else Total(fmt, recs[..|recs| - 1]) + recs[|recs| - 1].Size(fmt)
  }

  /** Bytes taken by a node with these records: descriptor, records, and one offset more than records. */
  function Occupied(fmt: KeyFormat, recs: seq<Rec>): nat {
    DESC + Total(fmt, recs) + OFFS * (|recs| + 1)
  }

  /** Where each record starts, and where the free space starts; the last offset comes first. */
  function Offsets(fmt: KeyFormat, recs: seq<Rec>): seq<nat> {
    seq(|recs| + 1, i requires 0 <= i <= |recs| => DESC + Total(fmt, recs[..|recs| - i]))
  }

  lemma {:induction false} TotalAppend(fmt: KeyFormat, recs: seq<Rec>, r: Rec)
    ensures Total(fmt, recs + [r]) == Total(fmt, recs) + r.Size(fmt)
  {
    assert (recs + [r])[..|recs|] == recs;
  }

  lemma {:induction false} TotalOfPrefix(fmt: KeyFormat, recs: seq<Rec>, k: nat)
    requires k <= |recs|
    ensures Total(fmt, recs[..k]) <= Total(fmt, recs)
  {
    if k < |recs| {
      assert recs[..|recs| - 1][..k] == recs[..k];
      TotalOfPrefix(fmt, recs[..|recs| - 1], k);
    } else {
      assert recs[..k] == recs;
    }
  }

  /** The growing output the nodes are written to. */
  class Output {
    var bytes: Bytes

    constructor ()
      ensures bytes == []
    {
      bytes := [];
    }

    method Append(b: Bytes)
      modifies this
      ensures bytes == old(bytes) + b
    {
      bytes := bytes + b;
    }
  }

  function RecBytes(fmt: KeyFormat, late: Late, recs: seq<Rec>): (b: Bytes)
    requires forall r :: r in recs ==> r.Encodable(fmt)
    ensures |b| == Total(fmt, recs)
  {
    if recs == [] then [] else
    RecBytes(fmt, late, recs[..|recs| - 1]) + recs[|recs| - 1].Encode(fmt, late)
  }

  function OffsetTable(offsets: seq<nat>): (b: Bytes)
    requires forall i :: 0 <= i < |offsets| ==> offsets[i] < U16
    ensures |b| == OFFS * |offsets|
  {
    if offsets == [] then [] else BE16(offsets[0]) + OffsetTable(offsets[1..])
  }

  function KindByte(kind: NodeKind): byte {
    match kind
    case LeafNode => 255
    case IndexNode => 0
    case HeaderNode => 1
    case MapNode => 2
  }

  function Descriptor(node: Node): (b: Bytes)
    requires node.fLink < U32 && node.bLink < U32 && node.height < 256 && |node.recs| < U16
    ensures |b| == DESC
  {
    BE32(node.fLink) + BE32(node.bLink) + [KindByte(node.kind), node.height] + BE16(|node.recs|) + [0, 0]
  }

  /** A node whose fields fit their widths and whose records fit the node. */
  predicate Writable(fmt: KeyFormat, node: Node, capacity: nat) {
    && node.fLink < U32 && node.bLink < U32 && node.height < 256
    && (forall r :: r in node.recs ==> r.Encodable(fmt))
    && Occupied(fmt, node.recs) <= capacity < U16
  }

  lemma {:induction false} OffsetsBounded(fmt: KeyFormat, recs: seq<Rec>)
    ensures forall i :: 0 <= i <= |recs| ==> Offsets(fmt, recs)[i] <= DESC + Total(fmt, recs)
  {
    forall i | 0 <= i <= |recs| ensures Offsets(fmt, recs)[i] <= DESC + Total(fmt, recs) {
      TotalOfPrefix(fmt, recs, |recs| - i);
    }
  }

  function NodeBytes(fmt: KeyFormat, late: Late, node: Node, capacity: nat): (b: Bytes)
    requires Writable(fmt, node, capacity)
    ensures |b| == capacity
  {
    OffsetsBounded(fmt, node.recs);
    Descriptor(node) + RecBytes(fmt, late, node.recs)
    + Zeros(capacity - Occupied(fmt, node.recs)) + OffsetTable(Offsets(fmt, node.recs))
  }

  lemma {:induction false} Associate(a: Bytes, b: Bytes, c: Bytes)
    ensures a + b + c == a + (b + c)
  {}

  lemma {:induction false} Reassociate(a: Bytes, b: Bytes, c: Bytes, d: Bytes, e: Bytes)
    ensures a + b + c + d + e == a + (b + c + d + e)
  {}

  const SECTOR := 512

  predicate OnSector(n: nat) {
    n % SECTOR == 0
  }

  lemma {:induction false} SectorsAdd(a: nat, b: nat)
    requires OnSector(a)
    ensures OnSector(a + b) <==> OnSector(b)
  {}

  class NodeSpec {
    const fmt: KeyFormat
    var offset: nat
    var kind: NodeKind
    var height: nat
    var fLink: nat
    var bLink: nat
    var numRecords: nat
    var recs: seq<Rec>
    var offsets: seq<nat>

    /** Record `k` starts where its offset says; offset number |recs| is that of the free space. */
    ghost predicate StartsAt(k: nat)
      reads this`recs, this`offsets
      requires k <= |recs| < |offsets|
    {
      offsets[|recs| - k] == DESC + Total(fmt, recs[..k])
    }

    ghost predicate Valid()
      reads this`recs, this`offsets, this`offset, this`numRecords
    {
      && numRecords == |recs| && |offsets| == |recs| + 1 && offset == offsets[0]
      && forall k :: 0 <= k <= |recs| ==> StartsAt(k)
    }

    ghost function View(): Node
      reads this
    {
      Node(kind, height, fLink, bLink, recs)
    }

    constructor (fmt: KeyFormat, kind: NodeKind, height: nat)
      ensures Valid() && this.fmt == fmt && View() == Node(kind, height, 0, 0, [])
    {
      this.fmt := fmt;
      this.kind, this.height, this.fLink, this.bLink := kind, height, 0, 0;
      this.offset, this.recs := DESC, [];
      this.offsets, this.numRecords := [DESC], 0;
      new;
      assert StartsAt(0);
    }

    function Size(): nat
      reads this
    {
      offset + OFFS * |offsets|
    }

    /** The size of the map record that fills the node up, its own offset included. */
    function FreeSpace(capacity: nat): int
      reads this
    {
      capacity - Size() - OFFS
    }

    predicate FitsIn(capacity: nat, recordSize: nat)
      reads this
    {
      Size() + recordSize + OFFS <= capacity
    }

    /** A record fits exactly when the node with the record added is not overfull. */
    lemma FitsExactly(capacity: nat, r: Rec)
      requires Valid()
      ensures FitsIn(capacity, r.Size(fmt)) <==> Occupied(fmt, recs + [r]) <= capacity
    {
      assert StartsAt(|recs|) && recs[..|recs|] == recs;
      TotalAppend(fmt, recs, r);
    }

    lemma OffsetsMatch()
      requires Valid()
      ensures offset == DESC + Total(fmt, recs)
      ensures offsets == Offsets(fmt, recs)
    {
      forall i | 0 <= i <= |recs| ensures offsets[i] == Offsets(fmt, recs)[i] {
        assert StartsAt(|recs| - i);
      }
      assert StartsAt(|recs|) && recs[..|recs|] == recs;
    }

    /** As `Valid`, but for the last record, whose end is not marked yet. */
    ghost predicate Unmarked()
      reads this`recs, this`offsets, this`offset, this`numRecords
    {
      && recs != [] && numRecords + 1 == |recs| == |offsets| && offset == DESC + Total(fmt, recs)
      && forall k :: 0 <= k < |recs| ==> offsets[|recs| - 1 - k] == DESC + Total(fmt, recs[..k])
    }

    /** The bytes of the node in the pieces they are written in. */
    lemma {:induction false} NodePieces(late: Late, capacity: nat)
      requires Valid() && Writable(fmt, View(), capacity)
      ensures Size() <= capacity && |recs| < U16 && (forall i :: 0 <= i < |offsets| ==> offsets[i] < U16)
      ensures fLink < U32 && bLink < U32 && height < 256 && (forall r :: r in recs ==> r.Encodable(fmt))
      ensures NodeBytes(fmt, late, View(), capacity)
           == Descriptor(View()) + RecBytes(fmt, late, recs) + Zeros(capacity - Size()) + OffsetTable(offsets)
    {
      OffsetsMatch();
      OffsetsBounded(fmt, recs);
      hide RecBytes, Total;
    }

    method AddRecord(r: Rec)
      modifies this
      ensures recs == old(recs) + [r] && offset == old(offset) + r.Size(fmt)
      ensures offsets == old(offsets) && numRecords == old(numRecords)
      ensures View() == old(View()).(recs := recs)
      ensures old(Valid()) ==> Unmarked()
    {
      ghost var was := recs;
      if Valid() {
        OffsetsMatch();
        TotalAppend(fmt, recs, r);
        forall k | 0 <= k <= |recs| ensures offsets[|recs| - k] == DESC + Total(fmt, recs[..k]) { assert StartsAt(k); }
      }
      recs := recs + [r];
      offset := offset + r.Size(fmt);
      assert forall k :: 0 <= k <= |was| ==> recs[..k] == was[..k];
    }

    method MarkRecord()
      modifies this
      ensures offsets == [offset] + old(offsets) && numRecords == old(numRecords) + 1
      ensures View() == old(View()) && offset == old(offset)
      ensures old(Unmarked()) ==> Valid()
    {
      offsets := [offset] + offsets;
      numRecords := numRecords + 1;
      forall k | 0 <= k <= |recs| && old(Unmarked()) ensures StartsAt(k) { assert recs[..|recs|] == recs; }
    }

    /** Adds a whole record and its offset. */
    method Put(r: Rec)
      requires Valid()
      modifies this
      ensures Valid()
      ensures View() == old(View()).(recs := old(recs) + [r])
    {
      AddRecord(r);
      MarkRecord();
    }

    method WriteRecords(out: Output, late: Late)
      requires forall r :: r in recs ==> r.Encodable(fmt)
      modifies out
      ensures out.bytes == old(out.bytes) + RecBytes(fmt, late, recs)
    {
      for i := 0 to |recs|
        invariant out.bytes == old(out.bytes) + RecBytes(fmt, late, recs[..i])
      {
        assert recs[..i + 1][..i] == recs[..i];
        Associate(old(out.bytes), RecBytes(fmt, late, recs[..i]), recs[i].Encode(fmt, late));
        out.Append(recs[i].Encode(fmt, late));
      }
      assert recs[..|recs|] == recs;
    }

    /** Appends the node to an output. Fails, as the original aborts, when either end is off a sector. */
    method WriteTo(out: Output, late: Late, capacity: nat) returns (ok: bool)
      requires Valid() && Writable(fmt, View(), capacity)
      modifies out
      ensures ok <==> OnSector(|old(out.bytes)|) && OnSector(capacity)
      ensures ok ==> out.bytes == old(out.bytes) + NodeBytes(fmt, late, View(), capacity)
    {
      hide Total, Offsets, RecBytes, Rec.Encodable, OnSector, NodeBytes, Writable, Valid, Occupied, Descriptor, OffsetTable, Zeros;
      if !OnSector(|out.bytes|) { return false; }
      SectorsAdd(|out.bytes|, capacity);
      ghost var node := View();
      NodePieces(late, capacity);
      var head, pad, table := Descriptor(Node(kind, height, fLink, bLink, recs)), Zeros(capacity - Size()), OffsetTable(offsets);
      out.Append(head);
      WriteRecords(out, late);
      out.Append(pad);
      out.Append(table);
      Reassociate(old(out.bytes), head, RecBytes(fmt, late, recs), pad, table);
      ok := OnSector(|out.bytes|);
    }
  }
}
