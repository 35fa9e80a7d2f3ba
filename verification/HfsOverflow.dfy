/** The overflow records of a file, in the bytes of the extents overflow file, and the block map a host
    reads from there. */
module HfsOverflow {
  import opened Bytes
  import opened Lexical
  import opened Options
  import opened HfsNode
  import opened HfsSearch
  import opened HfsTree
  import opened HfsImage
  import opened HfsFork
  import HfsKeys

  // ----- extent records -----

  predicate DescFits(d: Desc) {
    d.start < U32 && d.count < U32
  }

  predicate RecordFits(r: seq<Desc>) {
    forall i :: 0 <= i < |r| ==> DescFits(r[i])
  }

  /** `HFSPlusExtentRecord`. */
  function RecordBytes(r: seq<Desc>): (b: Bytes)
    requires RecordFits(r)
    ensures |b| == 8 * |r|
  {
    if r == [] then [] else
    assert DescFits(r[0]);
    BE32(r[0].start) + BE32(r[0].count) + RecordBytes(r[1..])
  }

  function RecordOf(b: Bytes): seq<Desc> {
    if |b| < 8 then [] else [Desc(FromBE32(b[..4]), FromBE32(b[4..8]))] + RecordOf(b[8..])
  }

  lemma {:induction false} RecordReadBack(r: seq<Desc>)
    requires RecordFits(r)
    ensures RecordOf(RecordBytes(r)) == r
  {
    if r != [] {
      assert DescFits(r[0]);
      var a, c, rest := BE32(r[0].start), BE32(r[0].count), RecordBytes(r[1..]);
      var b := RecordBytes(r);
      assert b == a + c + rest && b[..4] == a && b[4..8] == c && b[8..] == rest;
      hide BE32, FromBE32;
      RecordReadBack(r[1..]);
    }
  }

  // ----- the overflow file -----

  /** The key of an overflow record of the data fork. */
  function OverKey(file: nat, blk: nat): Key {
    HfsKeys.ExtentKey(file, 0, blk).ToKey()
  }

  predicate IsExtentKey(key: Key) {
    |key| == 3 && key[0] >= 0 && key[1] >= 0 && key[2] >= 0
  }

  /** The map holds exactly the overflow records of the file, among those of other files. */
  ghost predicate Filed(m: map<Key, Bytes>, file: nat, records: map<Loc, seq<Desc>>) {
    && (forall key :: key in m ==> IsExtentKey(key))
    && (forall k: nat :: Over(k) in records <==> OverKey(file, k) in m)
    && (forall k: nat :: Over(k) in records ==> RecordFits(records[Over(k)]) && m[OverKey(file, k)] == RecordBytes(records[Over(k)]))
  }

  /** How a host finds file block `j`: in the catalog record, or else in the record of the file that a
      search of the overflow file arrives at. */
  function HostBlock(b: Bytes, catalog: seq<Desc>, file: nat, j: nat): Option<nat> {
    if Walk(catalog, j).Some? then Walk(catalog, j) else InOverflow(HostFloor(ExtentKeys, b, OverKey(file, j)), file, j)
  }

  function InOverflow(found: Option<Binding>, file: nat, j: nat): Option<nat> {
    match found
    case None => None
    case Some(Binding(key, payload)) =>
      if |key| == 3 && key[0] == file && key[1] == 0 && 0 <= key[2] <= j then Walk(RecordOf(payload), j - key[2]) else None
  }

  lemma {:induction false} KeyOrder(a: Key, file: nat, blk: nat)
    requires IsExtentKey(a)
    ensures Less(a, OverKey(file, blk)) <==> a[0] < file || (a[0] == file && a[1] == 0 && a[2] < blk)
    ensures Less(OverKey(file, blk), a) <==> file < a[0] || (file == a[0] && (a[1] > 0 || a[2] > blk))
    ensures a == OverKey(file, blk) <==> a[0] == file && a[1] == 0 && a[2] == blk
  {
    var k := HfsKeys.ExtentKey(a[0], a[1], a[2]);
    assert k.ToKey() == a;
    HfsKeys.ExtentOrder(k, HfsKeys.ExtentKey(file, 0, blk));
    HfsKeys.ExtentOrder(HfsKeys.ExtentKey(file, 0, blk), k);
  }

  /** The greatest key not above the one for block `j` is the greatest start block not above `j`, if the
      file has one. */
  lemma {:induction false} FloorInFile(m: map<Key, Bytes>, file: nat, records: map<Loc, seq<Desc>>, j: nat, found: Option<Binding>)
    requires Filed(m, file, records) && IsFloor(m, OverKey(file, j), found)
    requires Catalog in records && Walk(records[Catalog], j).None?
    ensures InOverflow(found, file, j) == Read(records, j)
  {
    hide Less, OverKey, RecordOf, RecordBytes;
    var k := FloorKey(records, j);
    FloorBelow(records, j, j + 1, []);
    if k.Some? {
      KeyIs(file, k.value);
      KeyOrder(OverKey(file, k.value), file, j);
    }
    if found.Some? {
      var key := found.value.key;
      KeyOrder(key, file, j);
      if k.Some? { KeyOrder(key, file, k.value); }
      if key[0] == file && key[1] == 0 && key[2] <= j {
        var b: nat := key[2];
        KeyOrder(key, file, b);
        FloorLeast(records, j, b);
        if k.value == b { RecordReadBack(records[Over(b)]); }
      }
    }
    hide Walk, Filed;
  }

  lemma {:induction false} KeyIs(file: nat, blk: nat)
    ensures var key := OverKey(file, blk); IsExtentKey(key) && key[0] == file && key[1] == 0 && key[2] == blk
  {
  }

  /** The floor is not below any key not above. */
  lemma {:induction false} FloorLeast(records: map<Loc, seq<Desc>>, j: nat, b: nat)
    requires Over(b) in records && b <= j
    ensures FloorKey(records, j).Some? && b <= FloorKey(records, j).value
  {
    if b < j { FloorLeast(records, j - 1, b); }
  }

  /** The bytes of the finished file. */
  function OverflowFile(capacity: nat, nodes: seq<Node>, t: TreeFields, clumpSize: nat, bitmap: nat -> byte): Bytes
    requires AllWritable(ExtentKeys, nodes, capacity)
  {
    Image(ExtentKeys, Late(HeaderRecord(ExtentKeys, t, capacity, clumpSize), bitmap), nodes, capacity)
  }

  /** In the bytes of the finished overflow file, a host reads every block of a file where its extent
      list puts it, if the joined extents fit the catalog record or none that meets a full record is
      contiguous with the one before it; and only then, if the extents share no block. */
  lemma {:induction false} HostReadsFork(capacity: nat, nodes: seq<Node>, recs: seq<Rec>, m: map<Key, Bytes>, t: TreeFields, clumpSize: nat,
                                         bitmap: nat -> byte, file: nat, xs: seq<Desc>)
    requires HfsFork.Positive(xs)
    requires Lists(recs, m) && Finished(ExtentKeys, capacity, nodes, recs, m, t) && |nodes| < U32 && capacity < U16
    requires Filed(m, file, HfsFork.Packed(xs).records)
    ensures AllWritable(ExtentKeys, nodes, capacity)
    ensures var b := OverflowFile(capacity, nodes, t, clumpSize, bitmap);
            && (Whole(xs) ==> forall j: nat :: HostBlock(b, HfsFork.Packed(xs).records[Catalog], file, j) == Walk(xs, j))
            && (HfsFork.Apart(xs) && (forall j: nat :: HostBlock(b, HfsFork.Packed(xs).records[Catalog], file, j) == Walk(xs, j)) ==> Whole(xs))
  {
    var records := HfsFork.Packed(xs).records;
    hide Lists, Finished, Filed, HostFloor, Image, Whole, HfsFork.Packed, IsFloor, HfsFork.Positive, HfsFork.Apart, AllWritable, HeaderRecord;
    HostFinds(ExtentKeys, capacity, nodes, recs, m, t, clumpSize, bitmap, OverKey(file, 0));
    var b := OverflowFile(capacity, nodes, t, clumpSize, bitmap);
    forall j: nat ensures HostBlock(b, records[Catalog], file, j) == Read(records, j) {
      HostFinds(ExtentKeys, capacity, nodes, recs, m, t, clumpSize, bitmap, OverKey(file, j));
      if Walk(records[Catalog], j).None? { FloorInFile(m, file, records, j, HostFloor(ExtentKeys, b, OverKey(file, j))); }
    }
    BlockMap(xs);
    hide HostBlock, Read, Walk;
  }
}
