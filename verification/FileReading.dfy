/** From the burnt image of a volume back to the bytes of a file, the way a host of each file system
    gets there: by cluster chain, by fork, or by directory records. */
module FileReading {
  import opened Bytes
  import opened Blocks
  import opened Burner
  import opened Options
  import opened Device
  import opened Translation
  import opened Reading
  import Volume
  import Words
  import FatTable
  import FatChains
  import FatVolume
  import opened Lexical
  import HfsNode
  import HfsSearch
  import HfsTree
  import HfsImage
  import HfsFork
  import HfsOverflow
  import CdDirectory
  import CdTree

  /** What `Translation.FileRepresented` says of a file: its extents stand on blocks of the image, and
      all but the last take whole blocks. */
  predicate FileAt(file: seq<Piece>, v: Outcome, media: Media) {
    && v.Burned? && v.blkSz > 0
    && (forall i :: 0 <= i < |file| ==> FoundAt(file[i], v, media))
    && (forall i :: 0 <= i < |file| - 1 ==> Divides(v.blkSz, file[i].length))
  }

  function PartOf(x: Piece, media: Media): (b: Bytes)
    ensures |b| == x.length
  {
    Content(media, Extent(x.offset, x.length, Medium(x.id)))
  }

  function Parts(file: seq<Piece>, media: Media): (p: seq<Bytes>)
    ensures |p| == |file| && forall i :: 0 <= i < |file| ==> p[i] == PartOf(file[i], media)
  {
    if file == [] then [] else [PartOf(file[0], media)] + Parts(file[1..], media)
  }

  /** Where an extent is on the target. */
  function AtOf(x: Piece, v: Outcome): nat
    requires v.Burned?
  {
    var at := WithinDisk(v.colonies.plan, x.id, x.offset);
    if at.Some? then at.value else 0
  }

  function Ats(file: seq<Piece>, v: Outcome): (a: seq<nat>)
    requires v.Burned?
    ensures |a| == |file| && forall i :: 0 <= i < |file| ==> a[i] == AtOf(file[i], v)
  {
    if file == [] then [] else [AtOf(file[0], v)] + Ats(file[1..], v)
  }

  /** The blocks of a file on the target. */
  function FileBlocks(file: seq<Piece>, v: Outcome, media: Media): seq<nat>
    requires v.Burned? && v.blkSz > 0
  {
    BlocksOf(Ats(file, v), Parts(file, media), v.blkSz)
  }

  lemma {:induction false} FoundStands(x: Piece, v: Outcome, media: Media)
    requires v.Burned? && v.blkSz > 0 && FoundAt(x, v, media)
    ensures Stands(v.image, AtOf(x, v), PartOf(x, media), v.blkSz)
  {
    hide WithinDisk, Content;
  }

  /** The blocks of a file begin with its bytes. */
  lemma {:induction false} BlocksRead(file: seq<Piece>, v: Outcome, media: Media)
    requires FileAt(file, v, media)
    ensures Concat(Parts(file, media)) <= ReadBlocks(v.image, FileBlocks(file, v, media), v.blkSz)
  {
    var ats, parts := Ats(file, v), Parts(file, media);
    forall i | 0 <= i < |file| ensures Stands(v.image, ats[i], parts[i], v.blkSz) { FoundStands(file[i], v, media); }
    hide Stands, Divides, FoundAt, ReadBlocks, BlocksOf;
    ReadParts(v.image, ats, parts, v.blkSz);
  }

  lemma {:induction false} BlocksStep(file: seq<Piece>, v: Outcome, media: Media)
    requires v.Burned? && v.blkSz > 0 && file != []
    ensures FileBlocks(file, v, media)
         == Row(AtOf(file[0], v) / v.blkSz, CountOf(file[0].length, v.blkSz)) + FileBlocks(file[1..], v, media)
  {
    var ats, parts := Ats(file, v), Parts(file, media);
    assert ats[1..] == Ats(file[1..], v) && parts[1..] == Parts(file[1..], media);
  }

  /** Every file of a volume is found as just said. */
  lemma {:induction false} FileIsAt(files: seq<seq<Piece>>, onDisk: MedId -> bool, gap: nat, sizeRange: Words.Word, lo: nat, hi: nat,
                                    w: nat, o: nat, v: Outcome, media: Media, f: nat)
    requires Chartable(AllPieces(files)) && Volume.Contiguous(sizeRange, lo, hi) && w < Words.WIDTH && v.Burned?
    requires Volume.Adjust(Volume.Granularity(MaskAll(files)), sizeRange, Words.Pow2(w)) == Volume.Size(v.blkSz)
    requires v.outBlk == Max(v.blkSz, Words.Pow2(o)) && Divides(v.blkSz, v.colonies.areaOffset)
    requires Represented(files, onDisk, gap, media, v)
    requires f < |files| && files[f] != []
    ensures FileAt(files[f], v, media)
  {
    hide Chartable, Volume.Contiguous, Volume.Adjust, Volume.Granularity, MaskAll, Represented, AllPieces, FoundAt, Words.Pow2, Max;
    FileRepresented(files, onDisk, gap, sizeRange, lo, hi, w, o, v, media, f, 0);
    forall i | 0 <= i < |files[f]| ensures FoundAt(files[f][i], v, media) && (i < |files[f]| - 1 ==> Divides(v.blkSz, files[f][i].length)) {
      FileRepresented(files, onDisk, gap, sizeRange, lo, hi, w, o, v, media, f, i);
    }
  }

  // ----- FAT32 -----

  /** The block of the target that a cluster is. */
  function BlockOfCluster(c: nat, from: nat, blkSz: nat): nat
    requires blkSz > 0
  {
    if c < 2 then 0 else from / blkSz + (c - 2)
  }

  function BlocksOfClusters(cs: seq<nat>, from: nat, blkSz: nat): seq<nat>
    requires blkSz > 0
  {
    if cs == [] then [] else [BlockOfCluster(cs[0], from, blkSz)] + BlocksOfClusters(cs[1..], from, blkSz)
  }

  lemma {:induction false} ClustersConcat(a: seq<nat>, b: seq<nat>, from: nat, blkSz: nat)
    requires blkSz > 0
    ensures BlocksOfClusters(a + b, from, blkSz) == BlocksOfClusters(a, from, blkSz) + BlocksOfClusters(b, from, blkSz)
  {
    if a == [] {
      assert a + b == b;
    } else {
      assert (a + b)[1..] == a[1..] + b;
      ClustersConcat(a[1..], b, from, blkSz);
    }
  }

  lemma {:induction false} RangeBlocks(first: nat, last: nat, from: nat, blkSz: nat)
    requires blkSz > 0 && FatTable.SEEDCLS <= first <= last + 1
    ensures BlocksOfClusters(FatChains.Range(first, last), from, blkSz) == Row(from / blkSz + (first - FatTable.SEEDCLS), last + 1 - first)
    decreases last + 1 - first
  {
    if first <= last {
      assert FatChains.Range(first, last)[1..] == FatChains.Range(first + 1, last);
      RangeBlocks(first + 1, last, from, blkSz);
    }
  }

  /** The clusters of an extent are its blocks. */
  lemma {:induction false} RunIsRow(at: nat, length: nat, from: nat, blkSz: nat)
    requires Divides(blkSz, from) && Divides(blkSz, at) && from <= at
    ensures var r := FatVolume.RunAt(at, length, from, blkSz);
            && FatTable.SEEDCLS <= r.first <= r.last + 1
            && from / blkSz + (r.first - FatTable.SEEDCLS) == at / blkSz && r.last + 1 - r.first == CountOf(length, blkSz)
  {
    var k := (at - from) / blkSz;
    Multiple(at, from, blkSz);
    QuotientSum(at - from, from, blkSz);
    QuotientSum(at - from, 0, blkSz);
    TwoOn(k, blkSz);
    hide Divides, CountOf;
    LastOf(k + 2, length, blkSz);
    FirstOf(k + 2, blkSz);
    assert AddressOf(k + 2, blkSz) == at - from + FatTable.SEEDCLS * blkSz;
    hide AddressOf;
  }

  lemma {:induction false} TwoOn(k: nat, blkSz: nat)
    ensures AddressOf(k + 2, blkSz) == k * blkSz + 2 * blkSz
  {
  }

  lemma {:induction false} FirstOf(k: nat, blkSz: nat)
    requires blkSz > 0
    ensures AddressOf(k, blkSz) / blkSz == k
  {
    Quotient(k, 0, blkSz);
  }

  lemma {:induction false} QuotientOf(q: nat, r: nat, blkSz: nat)
    requires r < blkSz
    ensures (AddressOf(q, blkSz) + r) / blkSz == q
  {
    Quotient(q, r, blkSz);
  }

  lemma {:induction false} LastOf(k: nat, length: nat, blkSz: nat)
    requires blkSz > 0 && k > 0
    ensures AddressOf(k, blkSz) > 0 && (AddressOf(k, blkSz) + length - 1) / blkSz + 1 == k + CountOf(length, blkSz)
  {
    Quotient(0, 0, blkSz);
    PartBlocks(0, length, blkSz);
    hide CountOf;
    var n := CountOf(length, blkSz);
    Products(k, n, blkSz);
    Products(1, k + n, blkSz);
    Products(1, k, blkSz);
    Products(0, 1, blkSz);
    NoBlocks(blkSz);
    hide AddressOf;
    QuotientOf(k + n - 1, AddressOf(k, blkSz) + length - 1 - AddressOf(k + n - 1, blkSz), blkSz);
  }

  /** The clusters of a file are its blocks. */
  lemma {:induction false} ChainBlocks(file: seq<Piece>, chain: seq<FatTable.Run>, v: Outcome, media: Media, from: nat)
    requires v.Burned? && Divides(v.blkSz, from) && |chain| == |file|
    requires forall i :: 0 <= i < |file| ==> RunOf(file[i], chain[i], v, from)
    ensures BlocksOfClusters(FatChains.Clusters(chain), from, v.blkSz) == FileBlocks(file, v, media)
  {
    if file != [] {
      hide *;
      assert RunOf(file[0], chain[0], v, from);
      BlocksStep(file, v, media);
      ChainStep(chain, file[0], v, from);
      forall i | 0 <= i < |file| - 1 ensures RunOf(file[1..][i], chain[1..][i], v, from) { assert RunOf(file[i + 1], chain[i + 1], v, from); }
      ChainBlocks(file[1..], chain[1..], v, media, from);
    }
  }

  lemma {:induction false} ChainStep(chain: seq<FatTable.Run>, x: Piece, v: Outcome, from: nat)
    requires v.Burned? && v.blkSz > 0 && Divides(v.blkSz, from) && chain != [] && RunOf(x, chain[0], v, from)
    ensures BlocksOfClusters(FatChains.Clusters(chain), from, v.blkSz)
         == Row(AtOf(x, v) / v.blkSz, CountOf(x.length, v.blkSz)) + BlocksOfClusters(FatChains.Clusters(chain[1..]), from, v.blkSz)
  {
    hide BlocksOfClusters, FatVolume.RunAt, AtOf, Row, CountOf, FatChains.Range, Divides;
    RunIsRow(AtOf(x, v), x.length, from, v.blkSz);
    RangeBlocks(chain[0].first, chain[0].last, from, v.blkSz);
    ClustersConcat(FatChains.Range(chain[0].first, chain[0].last), FatChains.Clusters(chain[1..]), from, v.blkSz);
  }

  predicate RunOf(x: Piece, r: FatTable.Run, v: Outcome, from: nat)
    requires v.Burned? && v.blkSz > 0
  {
    Divides(v.blkSz, AtOf(x, v)) && from <= AtOf(x, v) && r == FatVolume.RunAt(AtOf(x, v), x.length, from, v.blkSz)
  }

  /** A host that follows the chain of a file in the table, and reads the clusters it visits out of the
      image, gets the bytes of the file, up to any size within its extents. */
  lemma {:induction false} FatFileRead(file: seq<Piece>, chain: seq<FatTable.Run>, v: Outcome, media: Media, fat: seq<nat>, fuel: nat, size: nat)
    requires FileAt(file, v, media) && file != [] && |chain| == |file| && Divides(v.blkSz, v.colonies.areaOffset)
    requires forall i :: 0 <= i < |file| ==> RunOf(file[i], chain[i], v, v.colonies.areaOffset)
    requires FatChains.Follow(fat, chain[0].first, fuel) == FatChains.Clusters(chain)
    requires size <= |Concat(Parts(file, media))|
    ensures var blocks := BlocksOfClusters(FatChains.Follow(fat, chain[0].first, fuel), v.colonies.areaOffset, v.blkSz);
            var bytes := ReadBlocks(v.image, blocks, v.blkSz);
            size <= |bytes| && bytes[..size] == Concat(Parts(file, media))[..size]
  {
    hide FatChains.Follow, FatChains.Clusters, BlocksOfClusters, ReadBlocks, FileBlocks, FoundAt, RunOf;
    ChainBlocks(file, chain, v, media, v.colonies.areaOffset);
    BlocksRead(file, v, media);
    hide Concat;
  }

  /** The same for a volume as a whole: the table is the one that holds the chains of all files, and of
      directories behind them, and the file loses none of its links in it. */
  lemma {:induction false} FatVolumeRead(files: seq<seq<Piece>>, chains: seq<seq<FatTable.Run>>, v: Outcome, media: Media, fat: seq<nat>,
                                         sparse: bool, n: nat, f: nat, fuel: nat, size: nat)
    requires v.Burned? && v.blkSz > 0 && |files| <= |chains|
    requires FatVolume.ChainsOf(chains[..|files|], files, v.colonies.plan, v.colonies.areaOffset, v.blkSz)
    requires Divides(v.blkSz, v.colonies.areaOffset)
    requires f < |files| && FileAt(files[f], v, media) && files[f] != []
    requires FatChains.Laid(chains, n) && n < 0x0fff_fff8 && FatChains.Holds(fat, sparse, n, FatTable.AllLinks(chains))
    requires FatChains.AllNonempty(chains[f]) && FatChains.KeptWhole(chains, f)
    requires fuel >= |FatChains.Clusters(chains[f])| && size <= |Concat(Parts(files[f], media))|
    ensures var blocks := BlocksOfClusters(FatChains.Follow(fat, chains[f][0].first, fuel), v.colonies.areaOffset, v.blkSz);
            var bytes := ReadBlocks(v.image, blocks, v.blkSz);
            size <= |bytes| && bytes[..size] == Concat(Parts(files[f], media))[..size]
  {
    assert chains[f] != [];
    forall i | 0 <= i < |files[f]| ensures RunOf(files[f][i], chains[f][i], v, v.colonies.areaOffset) {
      assert FatVolume.ChainAt(chains[..|files|], files, v.colonies.plan, v.colonies.areaOffset, v.blkSz, f, i);
      assert FoundAt(files[f][i], v, media);
      hide FatVolume.RunAt, WithinDisk, Content;
    }
    hide FatChains.Laid, FatChains.Holds, FatChains.Follow, FatChains.Clusters, FatChains.KeptWhole, FatVolume.ChainsOf, FileAt, RunOf;
    hide BlocksOfClusters, ReadBlocks, Concat, FatTable.AllLinks;
    FatChains.FileFollows(fat, sparse, n, chains, f, fuel);
    FatFileRead(files[f], chains[f], v, media, fat, fuel, size);
  }

  // ----- HFS+ -----

  /** An extent as HFS+ records it. */
  function DescOf(x: Piece, v: Outcome): HfsFork.Desc
    requires v.Burned? && v.blkSz > 0
  {
    HfsFork.Desc(AtOf(x, v) / v.blkSz, CountOf(x.length, v.blkSz))
  }

  function DescsOf(file: seq<Piece>, v: Outcome): (d: seq<HfsFork.Desc>)
    requires v.Burned? && v.blkSz > 0
    ensures |d| == |file| && forall i :: 0 <= i < |file| ==> d[i] == DescOf(file[i], v)
  {
    if file == [] then [] else [DescOf(file[0], v)] + DescsOf(file[1..], v)
  }

  /** Places that do not overlap take blocks that do not. */
  lemma {:induction false} BlocksBefore(at: nat, length: nat, bt: nat, blkSz: nat)
    requires Divides(blkSz, at) && Divides(blkSz, bt) && at + length <= bt
    ensures at / blkSz + CountOf(length, blkSz) <= bt / blkSz
  {
    PartBlocks(at, length, blkSz);
    PartBlocks(bt, 0, blkSz);
    hide CountOf, Divides;
    var k, m, l := at / blkSz, CountOf(length, blkSz), bt / blkSz;
    Products(l, 1, blkSz);
    if k + m > l { AddressGrows(l + 1, k + m, blkSz); }
  }

  lemma {:induction false} AddressGrows(k: nat, m: nat, blkSz: nat)
    requires k <= m
    ensures AddressOf(k, blkSz) <= AddressOf(m, blkSz)
  {
    Products(k, m - k, blkSz);
    hide AddressOf;
  }

  /** Nonempty extents are recorded as nonempty runs of blocks. */
  lemma {:induction false} DescsPositive(file: seq<Piece>, v: Outcome, media: Media)
    requires FileAt(file, v, media) && forall i :: 0 <= i < |file| ==> file[i].length > 0
    ensures HfsFork.Positive(DescsOf(file, v))
  {
    forall i | 0 <= i < |file| ensures DescOf(file[i], v).count > 0 {
      assert FoundAt(file[i], v, media);
      PartBlocks(AtOf(file[i], v), file[i].length, v.blkSz);
    }
  }

  /** The runs of extents that are all different do not overlap. */
  lemma {:induction false} DescsApart(files: seq<seq<Piece>>, onDisk: MedId -> bool, gap: nat, v: Outcome, media: Media, f: nat)
    requires Chartable(AllPieces(files)) && f < |files| && FileAt(files[f], v, media)
    requires Laid(media, v.image, AllPieces(files), onDisk, gap, v.colonies.plan, v.colonies.areaOffset, v.to, v.outBlk)
    requires forall i, j :: 0 <= i < j < |files[f]| ==> files[f][i].id != files[f][j].id || files[f][i].offset != files[f][j].offset
    ensures HfsFork.Apart(DescsOf(files[f], v))
  {
    var file := files[f];
    forall i, j | 0 <= i < j < |file| ensures ApartAt(DescOf(file[i], v), DescOf(file[j], v)) {
      var k := PiecePlace(files, f, i);
      var l := PiecePlace(files, f, j);
      assert FoundAt(file[i], v, media) && FoundAt(file[j], v, media);
      hide FileAt, CountOf, Laid, Chartable, Content, WithinDisk;
      PlacesApart(media, v.image, AllPieces(files), onDisk, gap, v.colonies.plan, v.colonies.areaOffset, v.to, v.outBlk, k, l);
      EitherBefore(AtOf(file[i], v), file[i].length, AtOf(file[j], v), file[j].length, v.blkSz);
    }
  }

  predicate ApartAt(x: HfsFork.Desc, y: HfsFork.Desc) {
    x.start + x.count <= y.start || y.start + y.count <= x.start
  }

  lemma {:induction false} EitherBefore(at: nat, length: nat, bt: nat, other: nat, blkSz: nat)
    requires Divides(blkSz, at) && Divides(blkSz, bt) && (at + length <= bt || bt + other <= at)
    ensures at / blkSz + CountOf(length, blkSz) <= bt / blkSz || bt / blkSz + CountOf(other, blkSz) <= at / blkSz
  {
    if at + length <= bt {
      BlocksBefore(at, length, bt, blkSz);
    } else {
      BlocksBefore(bt, other, at, blkSz);
    }
  }

  /** Walking the extents of a file gives its blocks one by one. */
  lemma {:induction false} WalkIsBlocks(file: seq<Piece>, v: Outcome, media: Media, j: nat)
    requires v.Burned? && v.blkSz > 0
    ensures var blocks, xs := FileBlocks(file, v, media), DescsOf(file, v);
            && |blocks| == HfsFork.Sum(xs)
            && HfsFork.Walk(xs, j) == if j < |blocks| then Some(blocks[j]) else None
  {
    if file != [] {
      var d, xs := DescOf(file[0], v), DescsOf(file, v);
      BlocksStep(file, v, media);
      assert xs[1..] == DescsOf(file[1..], v);
      WalkIsBlocks(file[1..], v, media, if j < d.count then 0 else j - d.count);
      hide FileBlocks, AtOf, CountOf;
    }
  }

  /** A host that finds the blocks of the fork by walking the extents, and reads them out of the image
      one by one, gets the bytes of the file, up to any size within its extents. */
  lemma {:induction false} HfsFileRead(file: seq<Piece>, v: Outcome, media: Media, blocks: seq<nat>, size: nat)
    requires FileAt(file, v, media)
    requires |blocks| == HfsFork.Sum(DescsOf(file, v)) && forall j: nat :: j < |blocks| ==> HfsFork.Walk(DescsOf(file, v), j) == Some(blocks[j])
    requires size <= |Concat(Parts(file, media))|
    ensures var bytes := ReadBlocks(v.image, blocks, v.blkSz);
            size <= |bytes| && bytes[..size] == Concat(Parts(file, media))[..size]
  {
    hide HfsFork.Walk, HfsFork.Sum, DescsOf, ReadBlocks, FileBlocks, FoundAt;
    WalkIsBlocks(file, v, media, 0);
    forall j: nat | j < |blocks| ensures blocks[j] == FileBlocks(file, v, media)[j] {
      WalkIsBlocks(file, v, media, j);
    }
    assert blocks == FileBlocks(file, v, media);
    BlocksRead(file, v, media);
    hide Concat;
  }

  lemma {:induction false} AtMeans(file: seq<Piece>, v: Outcome, media: Media)
    requires FileAt(file, v, media)
    ensures v.Burned? && v.blkSz > 0
  {
  }

  /** The same from the bytes of the extents overflow file: the blocks are those the host finds there
      and in the catalog record. */
  lemma {:induction false} HfsVolumeRead(file: seq<Piece>, v: Outcome, media: Media, id: nat, blocks: seq<nat>, size: nat,
                                         capacity: nat, nodes: seq<HfsNode.Node>, recs: seq<HfsNode.Rec>, m: map<Key, Bytes>,
                                         t: HfsTree.TreeFields, clumpSize: nat, bitmap: nat -> byte)
    requires FileAt(file, v, media)
    requires var xs := DescsOf(file, v);
             && HfsFork.Positive(xs) && HfsFork.Whole(xs)
             && HfsOverflow.Filed(m, id, HfsFork.Packed(xs).records)
    requires HfsSearch.Lists(recs, m) && HfsImage.Finished(HfsNode.ExtentKeys, capacity, nodes, recs, m, t) && |nodes| < U32 && capacity < U16
    requires HfsTree.AllWritable(HfsNode.ExtentKeys, nodes, capacity)
    requires var b := HfsOverflow.OverflowFile(capacity, nodes, t, clumpSize, bitmap);
             && |blocks| == HfsFork.Sum(DescsOf(file, v))
             && forall j: nat :: j < |blocks| ==> HfsOverflow.HostBlock(b, HfsFork.Packed(DescsOf(file, v)).records[HfsFork.Catalog], id, j) == Some(blocks[j])
    requires size <= |Concat(Parts(file, media))|
    ensures var bytes := ReadBlocks(v.image, blocks, v.blkSz);
            size <= |bytes| && bytes[..size] == Concat(Parts(file, media))[..size]
  {
    hide *;
    AtMeans(file, v, media);
    var xs := DescsOf(file, v);
    HfsOverflow.HostReadsFork(capacity, nodes, recs, m, t, clumpSize, bitmap, id, xs);
    HfsFileRead(file, v, media, blocks, size);
  }

  // ----- ISO 9660 -----

  function ExtentOf(x: Piece, v: Outcome): (nat, nat)
    requires v.Burned? && v.blkSz > 0
  {
    (AtOf(x, v) / v.blkSz, x.length)
  }

  /** The extents of a file as its directory records give them. */
  function ExtentsOf(file: seq<Piece>, v: Outcome): (e: seq<(nat, nat)>)
    requires v.Burned? && v.blkSz > 0
    ensures |e| == |file| && forall i :: 0 <= i < |file| ==> e[i] == ExtentOf(file[i], v)
  {
    if file == [] then [] else [ExtentOf(file[0], v)] + ExtentsOf(file[1..], v)
  }

  lemma {:induction false} FoundExtant(x: Piece, v: Outcome, media: Media)
    requires v.Burned? && v.blkSz > 0 && FoundAt(x, v, media)
    ensures CdDirectory.ExtantAt(v.image, ExtentOf(x, v), PartOf(x, media), v.blkSz)
  {
    hide WithinDisk, Content;
    QuotientSum(AtOf(x, v), 0, v.blkSz);
  }

  /** A host that reads the records of a file out of the image gets its bytes, if it ends inside its
      last extent. */
  lemma {:induction false} CdFileRead(file: seq<Piece>, v: Outcome, media: Media, name: Bytes, date: Bytes, size: nat)
    requires FileAt(file, v, media) && CdDirectory.EndsInLast(size, CdDirectory.Lengths(ExtentsOf(file, v)))
    ensures size <= |Concat(Parts(file, media))|
    ensures CdDirectory.ReadFile(v.image, CdDirectory.FileEntries(name, date, size, ExtentsOf(file, v)), v.blkSz)
         == Concat(Parts(file, media))[..size]
  {
    var extents, parts := ExtentsOf(file, v), Parts(file, media);
    forall i | 0 <= i < |extents| ensures CdDirectory.ExtantAt(v.image, extents[i], parts[i], v.blkSz) { FoundExtant(file[i], v, media); }
    hide CdDirectory.ExtantAt, FoundAt, Divides;
    CdDirectory.FileReadBack(v.image, name, date, size, extents, parts, v.blkSz);
  }

  lemma {:induction false} AllExtant(file: seq<Piece>, v: Outcome, media: Media)
    requires FileAt(file, v, media)
    ensures CdDirectory.Extant(v.image, ExtentsOf(file, v), Parts(file, media), v.blkSz)
  {
    var extents, parts := ExtentsOf(file, v), Parts(file, media);
    hide CdDirectory.ExtantAt, FoundAt;
    forall i | 0 <= i < |extents| ensures CdDirectory.ExtantAt(v.image, extents[i], parts[i], v.blkSz) { FoundExtant(file[i], v, media); }
  }

  /** And so does one that finds the file in its directory: from where the file is listed, the entries read
      from the image give its bytes. */
  lemma {:induction false} CdListedFileRead(file: seq<Piece>, v: Outcome, media: Media, t: CdTree.Tree, size: seq<nat>, base: nat, k: nat, e: nat)
    requires FileAt(file, v, media) && v.blkSz >= 256 && CdTree.Written(t, size, base, v.blkSz, v.image)
    requires k < |t.rows| == |t.lists| && e < |t.lists[k]| && t.lists[k][e].Other? && t.lists[k][e].extents == ExtentsOf(file, v)
    requires CdDirectory.EndsInLast(t.lists[k][e].size, CdDirectory.Lengths(ExtentsOf(file, v)))
    ensures CdTree.SubsWithin(t, size)
    ensures var es := CdTree.ReadDirectory(v.image, CdTree.RefAt(t, size, base, v.blkSz, k), v.blkSz);
            var i := CdTree.PositionOf(t.lists[k], e);
            && i + |file| <= |es| && (forall j :: i <= j < i + |file| ==> es[j].name == t.lists[k][e].name)
            && CdTree.ReadsBack(v.image, es[i..], Parts(file, media), t.lists[k][e].size, v.blkSz)
  {
    hide *;
    AtMeans(file, v, media);
    AllExtant(file, v, media);
    CdTree.WrittenMeans(t, size, base, v.blkSz, v.image);
    CdTree.DirectoryIsListed(t, size, base, v.blkSz, v.image, k);
    var es := CdTree.ReadDirectory(v.image, CdTree.RefAt(t, size, base, v.blkSz, k), v.blkSz);
    CdTree.FileAmong(t, size, base, v.blkSz, v.image, es, k, e, Parts(file, media));
  }
}
