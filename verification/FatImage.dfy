/** A FAT32 volume as a whole (`VFat32Out::plan` within `Volume::represent`): headers, allocation tables,
    files and directories, with the tables in the image leading back to the files. */
module FatImage {
  import opened Bytes
  import opened Blocks
  import opened Burner
  import opened Device
  import opened Layout
  import opened Translation
  import opened Reading
  import opened FileReading
  import FatTable
  import FatChains
  import opened FatVolume
  import Folders
  import RuleMedium
  import Volume
  import Words

  // ----- the bytes of a table -----

  predicate Narrow(w: seq<nat>) {
    forall i :: 0 <= i < |w| ==> w[i] < U32
  }

  function WordBytes(w: seq<nat>): (b: Bytes)
    requires Narrow(w)
    ensures |b| == 4 * |w|
  {
    if w == [] then [] else LE32(w[0]) + WordBytes(w[1..])
  }

  function WordsIn(b: Bytes): seq<nat> {
    if |b| < 4 then [] else [FromLE32(b[..4])] + WordsIn(b[4..])
  }

  lemma {:induction false} WordsReadBack(w: seq<nat>)
    requires Narrow(w)
    ensures WordsIn(WordBytes(w)) == w
  {
    if w != [] {
      var a, rest := LE32(w[0]), WordBytes(w[1..]);
      hide LE32, FromLE32;
      assert (a + rest)[..4] == a && (a + rest)[4..] == rest;
      WordsReadBack(w[1..]);
    }
  }

  /** All entries of a finished table fit their fields. */
  lemma {:induction false} TableNarrow(sparse: bool, n: nat, segs: seq<FatTable.Seg>)
    requires FatTable.SEEDCLS < n < 0x0fff_fff8 && FatChains.WellPlaced(segs, n) && RuleMedium.LinksFit(segs, n)
    ensures RuleMedium.Fits(FatChains.Table(sparse, n, segs)) && Narrow(RuleMedium.Words(sparse, n, FatChains.Table(sparse, n, segs)))
  {
    RuleMedium.TableFits(sparse, n, segs);
    AmendmentsNarrow(sparse, n, segs);
    var a := FatChains.Table(sparse, n, segs);
    hide FatChains.Table, FatChains.WellPlaced;
    var w := RuleMedium.Words(sparse, n, a);
    forall i | 0 <= i < n ensures w[i] < U32 {
      if RuleMedium.Amended(a, i) { assert RuleMedium.Amendment(a, i) < U32; }
    }
  }

  predicate NarrowIn(a: FatTable.Amendments) {
    forall k :: k in a ==> Narrow(a[k])
  }

  lemma {:induction false} AmendmentsNarrow(sparse: bool, n: nat, segs: seq<FatTable.Seg>)
    requires FatTable.SEEDCLS < n < 0x0fff_fff8 && FatChains.WellPlaced(segs, n) && RuleMedium.LinksFit(segs, n)
    ensures NarrowIn(FatChains.Table(sparse, n, segs))
  {
    if segs != [] {
      var init, s := segs[..|segs| - 1], segs[|segs| - 1];
      FatChains.TableStep(sparse, n, segs);
      FatChains.PlacedInit(segs, n);
      assert s.last < n && s.next < U32;
      hide FatChains.Table, FatChains.WellPlaced;
      AmendmentsNarrow(sparse, n, init);
      EnteredNarrow(sparse, FatChains.Table(sparse, n, init), s);
    }
  }

  lemma {:induction false} EnteredNarrow(sparse: bool, a: FatTable.Amendments, s: FatTable.Seg)
    requires NarrowIn(a) && s.last < U32 && s.next < U32
    ensures NarrowIn(FatTable.Entered(sparse, a, s))
  {
  }

  /** What the medium of the table holds in the end. */
  function TableBytes(sparse: bool, n: nat, segs: seq<FatTable.Seg>): (b: Bytes)
    requires n > FatTable.SEEDCLS
    ensures |b| == 4 * n
  {
    var a := FatChains.Table(sparse, n, segs);
    if RuleMedium.Fits(a) && Narrow(RuleMedium.Words(sparse, n, a)) then WordBytes(RuleMedium.Words(sparse, n, a)) else Zeros(4 * n)
  }

  /** A medium after something has been written to it. */
  function Overlay(media: Media, id: nat, at: nat, bytes: Bytes): Media {
    (i: nat, k: nat) => if i == id && at <= k < at + |bytes| then bytes[k - at] else media(i, k)
  }

  lemma {:induction false} OverlayHolds(media: Media, id: nat, at: nat, bytes: Bytes)
    ensures Content(Overlay(media, id, at, bytes), Extent(at, |bytes|, Medium(id))) == bytes
  {
  }

  lemma {:induction false} OverlayKeeps(media: Media, id: nat, at: nat, bytes: Bytes, file: seq<Piece>)
    requires forall i :: 0 <= i < |file| ==> file[i].id != id
    ensures Parts(file, Overlay(media, id, at, bytes)) == Parts(file, media)
  {
    var made := Overlay(media, id, at, bytes);
    forall i | 0 <= i < |file| ensures PartOf(file[i], made) == PartOf(file[i], media) { }
    hide PartOf;
  }

  // ----- headers and tables -----

  function Copies(x: Extent, k: nat): seq<Extent> {
    if k == 0 then [] else Copies(x, k - 1) + [x]
  }

  /** Headers padded to a cluster, and the copies of the table. */
  function Head(headers: seq<Extent>, blkSz: nat, fat: Extent, copies: nat): seq<Extent>
    requires Positive(headers) && blkSz > 0
  {
    LengthNat(headers);
    headers + Pads(Padding(Length(headers), blkSz)) + Copies(fat, copies)
  }

  function TableAt(headers: seq<Extent>, blkSz: nat): nat
    requires Positive(headers) && blkSz > 0
  {
    LengthNat(headers);
    RoundUp(Length(headers), blkSz)
  }

  lemma {:induction false} CopiesLength(x: Extent, k: nat)
    requires x.length > 0
    ensures Positive(Copies(x, k)) && Length(Copies(x, k)) == k * x.length
  {
    if k > 0 {
      CopiesLength(x, k - 1);
      var init := Copies(x, k - 1);
      assert (init + [x])[..|init|] == init;
      hide Copies;
      Times(k, x.length);
    }
  }

  lemma {:induction false} Times(k: nat, m: nat)
    requires k > 0
    ensures k * m == (k - 1) * m + m
  {
  }

  lemma {:induction false} CopiesSplit(x: Extent, k: nat, c: nat) returns (rest: seq<Extent>)
    requires c < k
    ensures Copies(x, k) == Copies(x, c) + [x] + rest
  {
    if c == k - 1 {
      rest := [];
    } else {
      rest := CopiesSplit(x, k - 1, c);
      rest := rest + [x];
    }
  }

  lemma {:induction false} PadsLength(headers: seq<Extent>, pad: nat)
    requires Positive(headers)
    ensures Positive(headers + Pads(pad)) && Length(headers + Pads(pad)) == Length(headers) + pad
  {
    if pad > 0 {
      assert (headers + Pads(pad))[..|headers|] == headers;
    } else {
      assert headers + Pads(pad) == headers;
    }
  }

  lemma {:induction false} HeadTo(headers: seq<Extent>, blkSz: nat, fat: Extent, c: nat)
    requires Positive(headers) && blkSz > 0 && fat.length > 0
    ensures Positive(Head(headers, blkSz, fat, c)) && Length(Head(headers, blkSz, fat, c)) == TableAt(headers, blkSz) + c * fat.length
  {
    LengthNat(headers);
    var pad := Padding(Length(headers), blkSz);
    PadsLength(headers, pad);
    CopiesLength(fat, c);
    LengthConcat(headers + Pads(pad), Copies(fat, c));
    hide RoundUp, Length;
  }

  /** Every copy of the table is in the image. */
  lemma {:induction false} TableInImage(media: Media, headers: seq<Extent>, blkSz: nat, fat: Extent, copies: nat, rest: seq<Extent>, c: nat)
    requires Positive(headers) && blkSz > 0 && fat.length > 0 && c < copies
    ensures Located(Burnt(media, Head(headers, blkSz, fat, copies) + rest), TableAt(headers, blkSz) + c * fat.length, Content(media, fat))
  {
    hide Head, Burnt, Content, TableAt, Length, Positive, Located;
    var tail := HeadSplit(headers, blkSz, fat, copies, c);
    HeadTo(headers, blkSz, fat, c);
    var first := Head(headers, blkSz, fat, c);
    BurntLength(media, first);
    Regrouped(first, fat, tail, rest);
    BurntAt(media, first, fat, tail + rest);
  }

  lemma {:induction false} Regrouped(a: seq<Extent>, x: Extent, b: seq<Extent>, c: seq<Extent>)
    ensures a + [x] + b + c == a + [x] + (b + c)
  {
  }

  lemma {:induction false} HeadSplit(headers: seq<Extent>, blkSz: nat, fat: Extent, copies: nat, c: nat) returns (tail: seq<Extent>)
    requires Positive(headers) && blkSz > 0 && c < copies
    ensures Head(headers, blkSz, fat, copies) == Head(headers, blkSz, fat, c) + [fat] + tail
  {
    hide Copies, Length, Pads, Padding;
    tail := CopiesSplit(fat, copies, c);
  }

  method PlanHead(out: Planner, headers: seq<Extent>, blkSz: nat, fat: Extent, copies: nat)
    requires out.Valid() && out.extlist == [] && Positive(headers) && blkSz > 0 && fat.length > 0
    modifies out`extlist, out`offset
    ensures out.Valid() && out.extlist == Head(headers, blkSz, fat, copies)
    ensures out.offset == TableAt(headers, blkSz) + copies * fat.length
  {
    hide RoundUp, Length, Copies;
    AppendAll(out, headers);
    assert [] + headers == headers;
    assert out.offset == Length(headers);
    var pad := out.PadTo(blkSz);
    ghost var first := out.extlist;
    NoCopies(fat, first);
    for c := 0 to copies
      invariant out.Valid() && out.extlist == first + Copies(fat, c)
    {
      NextCopy(fat, c, first);
      var _, _ := out.Append(fat);
    }
    HeadTo(headers, blkSz, fat, copies);
  }

  lemma {:induction false} NoCopies(x: Extent, first: seq<Extent>)
    ensures first + Copies(x, 0) == first
  {
  }

  lemma {:induction false} NextCopy(x: Extent, c: nat, first: seq<Extent>)
    ensures first + Copies(x, c + 1) == first + Copies(x, c) + [x]
  {
  }

  // ----- the volume -----

  function PaddedSizes(dirs: seq<nat>, blkSz: nat): (size: seq<nat>)
    requires blkSz > 0
    ensures |size| == |dirs|
  {
    seq(|dirs|, i requires 0 <= i < |dirs| => RoundUp(dirs[i], blkSz))
  }

  lemma {:induction false} PaddedAre(dirs: seq<nat>, blkSz: nat)
    requires blkSz > 0 && forall i :: 0 <= i < |dirs| ==> dirs[i] > 0
    ensures DirSizes(PaddedSizes(dirs, blkSz), blkSz)
  {
    var size := PaddedSizes(dirs, blkSz);
    forall i | 0 <= i < |size| ensures size[i] > 0 && size[i] % blkSz == 0 {
      RoundUpAligned(dirs[i], blkSz);
      RoundUpBounds(dirs[i], blkSz);
    }
  }

  /** The chains of a volume: the files, and the directories behind them. */
  function VolumeChains(files: seq<seq<Piece>>, links: Links, size: seq<nat>, to: nat, from: nat, blkSz: nat): (chains: seq<seq<FatTable.Run>>)
    requires blkSz > 0 && from <= to
    ensures |chains| == |files| + |size| && chains[..|files|] == FileChains(files, links, from, blkSz)
  {
    FileChains(files, links, from, blkSz) + DirChains(size, to, from, blkSz)
  }

  /** Extents that end within a table of `n` entries. */
  predicate Within(chains: seq<seq<FatTable.Run>>, n: nat) {
    forall f, i :: 0 <= f < |chains| && 0 <= i < |chains[f]| ==> chains[f][i].last < n
  }

  /** A volume as it stands before it is burnt, or after: files laid out from a cluster on. */
  predicate Ready(files: seq<seq<Piece>>, onDisk: MedId -> bool, gap: nat, media: Media, v: Outcome) {
    && Chartable(AllPieces(files)) && v.Burned? && v.blkSz > 0 && v.colonies.areaOffset <= v.to
    && Divides(v.blkSz, v.colonies.areaOffset) && Divides(v.blkSz, v.to)
    && Laid(media, v.image, AllPieces(files), onDisk, gap, v.colonies.plan, v.colonies.areaOffset, v.to, v.blkSz)
    && forall k :: 0 <= k < |AllPieces(files)| ==> AllPieces(files)[k].offset % v.blkSz == 0
  }

  function ChainsIn(files: seq<seq<Piece>>, v: Outcome, size: seq<nat>): (chains: seq<seq<FatTable.Run>>)
    requires v.Burned? && v.blkSz > 0 && v.colonies.areaOffset <= v.to
    ensures |chains| == |files| + |size|
  {
    VolumeChains(files, v.colonies.plan, size, v.to, v.colonies.areaOffset, v.blkSz)
  }

  /** Its chains are laid out as the table needs. */
  lemma {:induction false} ChainsReady(files: seq<seq<Piece>>, onDisk: MedId -> bool, gap: nat, media: Media, v: Outcome, size: seq<nat>, n: nat)
    requires Ready(files, onDisk, gap, media, v) && DirSizes(size, v.blkSz) && n > FatTable.SEEDCLS
    requires Within(ChainsIn(files, v, size), n)
    ensures FatChains.Laid(ChainsIn(files, v, size), n)
    ensures ChainsOf(ChainsIn(files, v, size)[..|files|], files, v.colonies.plan, v.colonies.areaOffset, v.blkSz)
    ensures Before(FileChains(files, v.colonies.plan, v.colonies.areaOffset, v.blkSz), ClusterAt(v.to, v.colonies.areaOffset, v.blkSz))
  {
    var from, links, blkSz := v.colonies.areaOffset, v.colonies.plan, v.blkSz;
    var fc: seq<seq<FatTable.Run>> := FileChains(files, links, from, blkSz);
    var dc: seq<seq<FatTable.Run>> := DirChains(size, v.to, from, blkSz);
    Multiple(v.to, from, blkSz);
    FileChainsAre(media, v.image, files, onDisk, gap, links, from, v.to, blkSz);
    WithinParts(fc, dc, n);
    DirsWithin(size, v.to, from, blkSz, n);
    SelfDivides(blkSz);
    hide Laid, Chartable, DirRun, ClusterAt, FileChains, DirChains;
    ChainsLaid(media, v.image, files, onDisk, gap, links, from, v.to, blkSz, blkSz, fc, n);
    FilesBefore(files, onDisk, gap, media, v);
    BothLaid(fc, size, v.to, from, blkSz, n);
  }

  lemma {:induction false} SelfDivides(d: nat)
    requires d > 0
    ensures d % d == 0
  {
    Quotient(1, 0, d);
  }

  lemma {:induction false} WithinParts(a: seq<seq<FatTable.Run>>, b: seq<seq<FatTable.Run>>, n: nat)
    requires Within(a + b, n)
    ensures Within(a, n) && Within(b, n)
  {
    forall f, i | 0 <= f < |a| && 0 <= i < |a[f]| ensures a[f][i].last < n { assert (a + b)[f] == a[f]; }
    forall f, i | 0 <= f < |b| && 0 <= i < |b[f]| ensures b[f][i].last < n { assert (a + b)[|a| + f] == b[f]; }
  }

  lemma {:induction false} DirsWithin(size: seq<nat>, at: nat, from: nat, blkSz: nat, n: nat)
    requires blkSz > 0 && from <= at && Within(DirChains(size, at, from, blkSz), n)
    ensures forall i :: 0 <= i < |size| ==> DirRun(size, at, from, blkSz, i).last < n
  {
    hide DirRun;
    var dc: seq<seq<FatTable.Run>> := DirChains(size, at, from, blkSz);
    forall i | 0 <= i < |size| ensures DirRun(size, at, from, blkSz, i).last < n { assert dc[|size| - 1 - i][0].last < n; }
  }

  lemma {:induction false} FilesBefore(files: seq<seq<Piece>>, onDisk: MedId -> bool, gap: nat, media: Media, v: Outcome)
    requires Ready(files, onDisk, gap, media, v)
    ensures Before(FileChains(files, v.colonies.plan, v.colonies.areaOffset, v.blkSz), ClusterAt(v.to, v.colonies.areaOffset, v.blkSz))
  {
    hide Laid, Chartable, RunAt, ClusterAt, WithinDisk, Content, FileChains, AllPieces;
    var from, links, blkSz := v.colonies.areaOffset, v.colonies.plan, v.blkSz;
    Multiple(v.to, from, blkSz);
    FileChainsAre(media, v.image, files, onDisk, gap, links, from, v.to, blkSz);
    var fc: seq<seq<FatTable.Run>> := FileChains(files, links, from, blkSz);
    forall f, i | 0 <= f < |fc| && 0 <= i < |fc[f]|
      ensures fc[f][i].last < ClusterAt(v.to, from, blkSz) && fc[f][i].first <= ClusterAt(v.to, from, blkSz)
    {
      var k := PiecePlace(files, f, i);
      ContentPreserved(media, v.image, AllPieces(files), onDisk, gap, links, from, v.to, blkSz, k);
      assert ChainAt(fc, files, links, from, blkSz, f, i);
      RunBefore(WithinDisk(links, files[f][i].id, files[f][i].offset).value, files[f][i].length, v.to, from, blkSz);
    }
  }

  // ----- the host -----

  /** The table a host finds in an image. */
  function HostTable(image: Bytes, at: nat, n: nat): seq<nat> {
    if at + 4 * n <= |image| then WordsIn(image[at..at + 4 * n]) else []
  }

  /** What a host reads that follows a table from a first cluster. */
  function HostFile(image: Bytes, at: nat, n: nat, from: nat, blkSz: nat, first: nat, fuel: nat): Bytes
    requires blkSz > 0
  {
    ReadBlocks(image, BlocksOfClusters(FatChains.Follow(HostTable(image, at, n), first, fuel), from, blkSz), blkSz)
  }

  predicate Solid(file: seq<Piece>) {
    forall i :: 0 <= i < |file| ==> file[i].length > 0
  }

  /** By the table at `at`, a host gets the bytes of file `f`, if no extent of it loses its link. */
  predicate FileFound(files: seq<seq<Piece>>, v: Outcome, chains: seq<seq<FatTable.Run>>, n: nat, at: nat, media: Media, f: nat, fuel: nat, size: nat)
    requires v.Burned? && v.blkSz > 0 && |files| <= |chains| && f < |files|
  {
    var chain, bytes := chains[f], Concat(Parts(files[f], media));
    files[f] != [] && Solid(files[f]) && FatChains.KeptWhole(chains, f) && fuel >= |FatChains.Clusters(chain)| && size <= |bytes| ==>
      && chain != []
      && var read := HostFile(v.image, at, n, v.colonies.areaOffset, v.blkSz, chain[0].first, fuel);
         size <= |read| && read[..size] == bytes[..size]
  }

  /** And it follows a directory to its end. */
  predicate DirFound(v: Outcome, r: FatTable.Run, n: nat, at: nat, fuel: nat)
    requires v.Burned?
  {
    fuel >= |FatChains.Range(r.first, r.last)| ==>
      FatChains.Follow(HostTable(v.image, at, n), r.first, fuel) == FatChains.Range(r.first, r.last)
  }

  /** The first cluster behind the files. */
  function FirstBehind(v: Outcome): nat
    requires v.Burned? && v.blkSz > 0 && v.colonies.areaOffset <= v.to
  {
    FatTable.SEEDCLS + (v.to - v.colonies.areaOffset) / v.blkSz
  }

  /** How far behind the files a cluster is, in bytes. */
  function Behind(v: Outcome, c: nat): nat
    requires v.Burned? && v.blkSz > 0 && v.colonies.areaOffset <= v.to
  {
    if c < FirstBehind(v) then 0 else AddressOf(c - FirstBehind(v), v.blkSz)
  }

  /** By the table at `at`, a host gets the bytes of a directory of `size` bytes: what `tail`, the bytes
      behind the files, has where the directory begins. */
  predicate DirRead(v: Outcome, r: FatTable.Run, n: nat, at: nat, tail: Bytes, size: nat, fuel: nat)
    requires v.Burned? && v.blkSz > 0 && v.colonies.areaOffset <= v.to
  {
    var o := Behind(v, r.first);
    fuel > r.last - r.first && o + size <= |tail| ==>
      var read := HostFile(v.image, at, n, v.colonies.areaOffset, v.blkSz, r.first, fuel);
      size <= |read| && read[..size] == tail[o..o + size]
  }

  /** The run of directory `d`: the last one comes first behind the chains of the files. */
  function RunOfDir(chains: seq<seq<FatTable.Run>>, d: nat): FatTable.Run {
    if d < |chains| && chains[|chains| - 1 - d] != [] then chains[|chains| - 1 - d][0] else FatTable.Run(0, 0)
  }

  /** The chains of a volume, told by the files and the sizes of the directories alone: the extents of the
      files, and for each directory as many clusters in a row as it needs, the last directory right
      behind the files and each other one behind the next. */
  predicate ChainsRight(files: seq<seq<Piece>>, dirs: seq<nat>, v: Outcome, chains: seq<seq<FatTable.Run>>) {
    && v.Burned? && v.blkSz > 0 && v.colonies.areaOffset <= v.to && |chains| == |files| + |dirs|
    && ChainsOf(chains[..|files|], files, v.colonies.plan, v.colonies.areaOffset, v.blkSz)
    && forall d :: 0 <= d < |dirs| ==> DirRight(dirs, v, chains, d)
  }

  predicate DirRight(dirs: seq<nat>, v: Outcome, chains: seq<seq<FatTable.Run>>, d: nat)
    requires v.Burned? && v.blkSz > 0 && v.colonies.areaOffset <= v.to && d < |dirs| <= |chains|
  {
    && chains[|chains| - 1 - d] == [RunOfDir(chains, d)]
    && LeastFor(RunOfDir(chains, d), dirs[d], v.blkSz)
    && RunOfDir(chains, d).first == if d == |dirs| - 1 then FirstBehind(v) else RunOfDir(chains, d + 1).last + 1
  }

  /** The clusters hold so many bytes, and one fewer would not. */
  predicate LeastFor(r: FatTable.Run, size: nat, blkSz: nat) {
    r.first <= r.last && AddressOf(r.last - r.first, blkSz) < size <= AddressOf(r.last + 1 - r.first, blkSz)
  }

  lemma {:induction false} DirRunIs(dirs: seq<nat>, v: Outcome, d: nat)
    requires v.Burned? && v.blkSz > 0 && v.colonies.areaOffset <= v.to && (v.to - v.colonies.areaOffset) % v.blkSz == 0
    requires d < |dirs| && forall i :: 0 <= i < |dirs| ==> dirs[i] > 0
    ensures var size := PaddedSizes(dirs, v.blkSz);
            var r := DirRun(size, v.to, v.colonies.areaOffset, v.blkSz, d);
            && LeastFor(r, dirs[d], v.blkSz)
            && r.first == (if d == |dirs| - 1 then FirstBehind(v) else DirRun(size, v.to, v.colonies.areaOffset, v.blkSz, d + 1).last + 1)
            && FirstBehind(v) <= r.first
  {
    var size, from, blkSz := PaddedSizes(dirs, v.blkSz), v.colonies.areaOffset, v.blkSz;
    PaddedAre(dirs, blkSz);
    DirPlace(size, v.to, from, blkSz, d);
    DirCounted(size, v.to, from, blkSz, d);
    CountLeast(dirs[d], blkSz);
    hide RoundUp, PaddedSizes, DirRun;
    if d < |dirs| - 1 {
      DirPlace(size, v.to, from, blkSz, d + 1);
      DirCounted(size, v.to, from, blkSz, d + 1);
      NextPlace(size, v.to, from, blkSz, d);
    } else {
      LastPlace(size, v.to, d);
    }
    BehindFirst(v.to - from, Folders.PlaceOf(size, v.to, d).start - from, blkSz);
  }

  lemma {:induction false} BehindFirst(a: nat, b: nat, blkSz: nat)
    requires blkSz > 0 && a <= b
    ensures a / blkSz <= b / blkSz
  {
    FirstGrows(a, b, blkSz);
  }

  lemma {:induction false} LastPlace(size: seq<nat>, at: nat, d: nat)
    requires d + 1 == |size|
    ensures Folders.PlaceOf(size, at, d).start == at
  {
  }

  lemma {:induction false} NextPlace(size: seq<nat>, at: nat, from: nat, blkSz: nat, d: nat)
    requires blkSz > 0 && d + 1 < |size| && from <= at && size[d + 1] % blkSz == 0
    requires Folders.PlaceOf(size, at, d + 1).start >= from && (Folders.PlaceOf(size, at, d + 1).start - from) % blkSz == 0
    ensures var p, q := Folders.PlaceOf(size, at, d).start, Folders.PlaceOf(size, at, d + 1).start;
            p >= from && (p - from) / blkSz == (q - from) / blkSz + size[d + 1] / blkSz
  {
    var q := Folders.PlaceOf(size, at, d + 1).start;
    assert Folders.PlaceOf(size, at, d).start == q + size[d + 1];
    hide Folders.Tail, Folders.PlaceOf;
    QuotientSum(q - from, size[d + 1], blkSz);
  }

  /** The run of a directory, in clusters. */
  lemma {:induction false} DirCounted(size: seq<nat>, at: nat, from: nat, blkSz: nat, d: nat)
    requires DirSizes(size, blkSz) && from <= at && d < |size|
    requires Folders.PlaceOf(size, at, d).start >= from && (Folders.PlaceOf(size, at, d).start - from) % blkSz == 0
    ensures var r, q := DirRun(size, at, from, blkSz, d), (Folders.PlaceOf(size, at, d).start - from) / blkSz;
            r.first == FatTable.SEEDCLS + q && r.last + 1 == FatTable.SEEDCLS + q + size[d] / blkSz && r.first <= r.last
  {
    DirPlaceSize(size, blkSz, d);
    RunCounted(Folders.PlaceOf(size, at, d).start - from, size[d], blkSz);
    hide Folders.Tail;
  }

  lemma {:induction false} DirPlaceSize(size: seq<nat>, blkSz: nat, d: nat)
    requires DirSizes(size, blkSz) && d < |size|
    ensures size[d] > 0 && size[d] % blkSz == 0
  {
  }

  lemma {:induction false} RunCounted(x: nat, size: nat, blkSz: nat)
    requires blkSz > 0 && x % blkSz == 0 && size % blkSz == 0 && size > 0
    ensures (x + FatTable.SEEDCLS * blkSz) / blkSz == x / blkSz + FatTable.SEEDCLS
    ensures (x + FatTable.SEEDCLS * blkSz + size - 1) / blkSz + 1 == x / blkSz + FatTable.SEEDCLS + size / blkSz && size / blkSz > 0
  {
    var q, k := x / blkSz, size / blkSz;
    assert x == q * blkSz && size == k * blkSz;
    CountedFrom(q, k, blkSz);
  }

  lemma {:induction false} CountedFrom(q: nat, k: nat, d: nat)
    requires d > 0 && k * d > 0
    ensures (q * d + 2 * d) / d == q + 2
    ensures k > 0 && (q * d + 2 * d + k * d - 1) / d + 1 == q + 2 + k
  {
    Quotient(q + 2, 0, d);
    Distributed(q, 2, d);
    assert k > 0;
    Distributed(q + 2, k, d);
    Distributed(q + 2 + k - 1, 1, d);
    Quotient(q + 2 + k - 1, d - 1, d);
  }

  lemma {:induction false} Distributed(a: nat, b: nat, d: nat)
    ensures (a + b) * d == a * d + b * d
  {
  }

  lemma {:induction false} CountLeast(n: nat, blkSz: nat)
    requires blkSz > 0 && n > 0
    ensures var k := RoundUp(n, blkSz) / blkSz; k > 0 && AddressOf(k - 1, blkSz) < n <= AddressOf(k, blkSz)
  {
    var k := (n + blkSz - 1) / blkSz;
    Quotient(k, 0, blkSz);
    RoundUpBounds(n, blkSz);
    assert (k - 1) * blkSz == k * blkSz - blkSz;
  }

  /** The table in the image is the one that holds the chains. */
  predicate TableThere(v: Outcome, chains: seq<seq<FatTable.Run>>, sparse: bool, n: nat, at: nat)
    requires v.Burned? && n > FatTable.SEEDCLS
  {
    Located(v.image, at, TableBytes(sparse, n, FatTable.AllLinks(chains)))
  }

  lemma {:induction false} TableRead(v: Outcome, chains: seq<seq<FatTable.Run>>, sparse: bool, n: nat, at: nat)
    requires v.Burned? && FatTable.SEEDCLS < n < 0x0fff_fff8 && FatChains.Laid(chains, n) && TableThere(v, chains, sparse, n, at)
    ensures FatChains.Holds(HostTable(v.image, at, n), sparse, n, FatTable.AllLinks(chains))
  {
    var segs := FatTable.AllLinks(chains);
    TableWords(sparse, n, chains);
    RuleMedium.WrittenHolds(sparse, n, segs);
    var w := RuleMedium.Words(sparse, n, FatChains.Table(sparse, n, segs));
    WordsReadBack(w);
    hide FatChains.Table, FatChains.Holds, FatTable.AllLinks, RuleMedium.Words, WordsIn, WordBytes;
  }

  lemma {:induction false} TableWords(sparse: bool, n: nat, chains: seq<seq<FatTable.Run>>)
    requires FatTable.SEEDCLS < n < 0x0fff_fff8 && FatChains.Laid(chains, n)
    ensures var segs := FatTable.AllLinks(chains);
            var a := FatChains.Table(sparse, n, segs);
            && FatChains.WellPlaced(segs, n) && RuleMedium.Fits(a) && (forall k :: k in a ==> k < n)
            && Narrow(RuleMedium.Words(sparse, n, a)) && TableBytes(sparse, n, segs) == WordBytes(RuleMedium.Words(sparse, n, a))
  {
    var segs := FatTable.AllLinks(chains);
    FatChains.LaidIsPlaced(chains, n);
    RuleMedium.ChainLinksFit(chains, n);
    TableNarrow(sparse, n, segs);
    RuleMedium.TableFits(sparse, n, segs);
    hide FatChains.Table, FatChains.WellPlaced, FatTable.AllLinks, RuleMedium.Words, WordBytes, RuleMedium.Fits, Narrow;
  }

  lemma {:induction false} FileReached(files: seq<seq<Piece>>, onDisk: MedId -> bool, gap: nat, made: Media, v: Outcome, size: seq<nat>, sparse: bool,
                                       n: nat, at: nat, f: nat, fuel: nat, bytes: nat)
    requires Ready(files, onDisk, gap, made, v) && DirSizes(size, v.blkSz) && FatTable.SEEDCLS < n < 0x0fff_fff8
    requires Within(ChainsIn(files, v, size), n) && TableThere(v, ChainsIn(files, v, size), sparse, n, at)
    requires f < |files| && (files[f] != [] ==> FileAt(files[f], v, made))
    ensures FileFound(files, v, ChainsIn(files, v, size), n, at, made, f, fuel, bytes)
  {
    var chains: seq<seq<FatTable.Run>> := ChainsIn(files, v, size);
    ChainsReady(files, onDisk, gap, made, v, size, n);
    TableRead(v, chains, sparse, n, at);
    assert |chains[f]| == |files[f]| by { assert chains[..|files|][f] == chains[f]; }
    if files[f] != [] && Solid(files[f]) { SolidChain(files, chains, v, f); }
    hide Solid, DirSizes, Ready, ChainsIn, Within, TableThere, HostTable, FatChains.Laid, FatChains.Holds, ChainsOf, FatChains.KeptWhole, FatChains.AllNonempty;
    hide FatChains.Clusters, FatChains.Follow, Concat, Parts, ReadBlocks, BlocksOfClusters, FileAt;
    var chain, all := chains[f], Concat(Parts(files[f], made));
    if chain != [] && Solid(files[f]) && FatChains.KeptWhole(chains, f) && fuel >= |FatChains.Clusters(chain)| && bytes <= |all| {
      assert Divides(v.blkSz, v.colonies.areaOffset) by { ReadyAligned(files, onDisk, gap, made, v); }
      FatVolumeRead(files, chains, v, made, HostTable(v.image, at, n), sparse, n, f, fuel, bytes);
    }
  }

  /** Nonempty extents have nonempty clusters. */
  lemma {:induction false} SolidChain(files: seq<seq<Piece>>, chains: seq<seq<FatTable.Run>>, v: Outcome, f: nat)
    requires v.Burned? && v.blkSz > 0 && |files| <= |chains| && f < |files| && Solid(files[f])
    requires ChainsOf(chains[..|files|], files, v.colonies.plan, v.colonies.areaOffset, v.blkSz)
    ensures FatChains.AllNonempty(chains[f])
  {
    var part := chains[..|files|];
    assert part[f] == chains[f];
    forall i | 0 <= i < |chains[f]| ensures chains[f][i].first <= chains[f][i].last {
      assert ChainAt(part, files, v.colonies.plan, v.colonies.areaOffset, v.blkSz, f, i);
      hide WithinDisk;
      var start := WithinDisk(v.colonies.plan, files[f][i].id, files[f][i].offset).value - v.colonies.areaOffset + FatTable.SEEDCLS * v.blkSz;
      FirstGrows(start, start + files[f][i].length - 1, v.blkSz);
    }
  }

  lemma {:induction false} ReadyAligned(files: seq<seq<Piece>>, onDisk: MedId -> bool, gap: nat, made: Media, v: Outcome)
    requires Ready(files, onDisk, gap, made, v)
    ensures v.Burned? && v.blkSz > 0 && Divides(v.blkSz, v.colonies.areaOffset)
  {
  }

  lemma {:induction false} DirReached(files: seq<seq<Piece>>, onDisk: MedId -> bool, gap: nat, made: Media, v: Outcome, size: seq<nat>, sparse: bool,
                                      n: nat, at: nat, d: nat, fuel: nat)
    requires Ready(files, onDisk, gap, made, v) && DirSizes(size, v.blkSz) && FatTable.SEEDCLS < n < 0x0fff_fff8
    requires Within(ChainsIn(files, v, size), n) && TableThere(v, ChainsIn(files, v, size), sparse, n, at)
    requires d < |size|
    ensures DirFound(v, DirRun(size, v.to, v.colonies.areaOffset, v.blkSz, |size| - 1 - d), n, at, fuel)
  {
    hide Ready, Within, TableThere, HostTable, FatChains.Laid, FatChains.Holds, ChainsOf, FatChains.KeptWhole, Before, DirRun, FileChains, DirChains, Divides;
    ReadyOn(files, onDisk, gap, made, v);
    var chains: seq<seq<FatTable.Run>> := ChainsIn(files, v, size);
    var from := v.colonies.areaOffset;
    ChainsReady(files, onDisk, gap, made, v, size, n);
    TableRead(v, chains, sparse, n, at);
    DirKept(FileChains(files, v.colonies.plan, from, v.blkSz), size, v.to, from, v.blkSz, d);
    var r := DirRun(size, v.to, from, v.blkSz, |size| - 1 - d);
    if fuel >= |FatChains.Range(r.first, r.last)| { OneFollows(HostTable(v.image, at, n), sparse, n, chains, |files| + d, r, fuel); }
  }

  /** Following a directory and reading its clusters gives its bytes. */
  lemma {:induction false} DirBytes(v: Outcome, r: FatTable.Run, n: nat, at: nat, tail: Bytes, size: nat, fuel: nat)
    requires v.Burned? && v.blkSz > 0 && v.colonies.areaOffset <= v.to <= |v.image| && v.image[v.to..] == tail
    requires Divides(v.blkSz, v.colonies.areaOffset) && (v.to - v.colonies.areaOffset) % v.blkSz == 0
    requires FirstBehind(v) <= r.first && LeastFor(r, size, v.blkSz) && DirFound(v, r, n, at, fuel)
    ensures DirRead(v, r, n, at, tail, size, fuel)
  {
    hide *;
    var o, blkSz := Behind(v, r.first), v.blkSz;
    var k, m := v.colonies.areaOffset / blkSz + (r.first - FatTable.SEEDCLS), r.last + 1 - r.first;
    if fuel > r.last - r.first && o + size <= |tail| {
      LeastMeans(r, size, blkSz);
      DirRow(v, r, n, at, fuel);
      DirAddress(v, r.first);
      Products(k, m, blkSz);
      Products(k, m - 1, blkSz);
      ReadRow(v.image, k, m, blkSz);
      ReadPrefix(v.image, v.to, o, AddressOf(m, blkSz), size, tail);
    }
    DirReadIs(v, r, n, at, tail, size, fuel);
  }

  lemma {:induction false} LeastMeans(r: FatTable.Run, size: nat, blkSz: nat)
    requires LeastFor(r, size, blkSz)
    ensures r.first <= r.last && AddressOf(r.last - r.first, blkSz) < size <= AddressOf(r.last + 1 - r.first, blkSz)
  {
  }

  lemma {:induction false} DirReadIs(v: Outcome, r: FatTable.Run, n: nat, at: nat, tail: Bytes, size: nat, fuel: nat)
    requires v.Burned? && v.blkSz > 0 && v.colonies.areaOffset <= v.to
    requires var o := Behind(v, r.first);
             var read := HostFile(v.image, at, n, v.colonies.areaOffset, v.blkSz, r.first, fuel);
             fuel > r.last - r.first && o + size <= |tail| ==> size <= |read| && read[..size] == tail[o..o + size]
    ensures DirRead(v, r, n, at, tail, size, fuel)
  {
  }

  /** The clusters a host visits are the blocks of the directory. */
  lemma {:induction false} DirRow(v: Outcome, r: FatTable.Run, n: nat, at: nat, fuel: nat)
    requires v.Burned? && v.blkSz > 0 && v.colonies.areaOffset <= v.to && r.first <= r.last && fuel > r.last - r.first
    requires FirstBehind(v) <= r.first && DirFound(v, r, n, at, fuel)
    ensures r.first >= FatTable.SEEDCLS
    ensures HostFile(v.image, at, n, v.colonies.areaOffset, v.blkSz, r.first, fuel)
         == ReadBlocks(v.image, Row(v.colonies.areaOffset / v.blkSz + (r.first - FatTable.SEEDCLS), r.last + 1 - r.first), v.blkSz)
  {
    hide *;
    RangeLength(r);
    BehindSeed(v);
    FoundRange(v, r, n, at, fuel);
    RangeBlocks(r.first, r.last, v.colonies.areaOffset, v.blkSz);
  }

  lemma {:induction false} BehindSeed(v: Outcome)
    requires v.Burned? && v.blkSz > 0 && v.colonies.areaOffset <= v.to
    ensures FirstBehind(v) >= FatTable.SEEDCLS
  {
  }

  lemma {:induction false} FoundRange(v: Outcome, r: FatTable.Run, n: nat, at: nat, fuel: nat)
    requires v.Burned? && v.blkSz > 0 && fuel >= |FatChains.Range(r.first, r.last)| && DirFound(v, r, n, at, fuel)
    ensures HostFile(v.image, at, n, v.colonies.areaOffset, v.blkSz, r.first, fuel)
         == ReadBlocks(v.image, BlocksOfClusters(FatChains.Range(r.first, r.last), v.colonies.areaOffset, v.blkSz), v.blkSz)
  {
    hide FatChains.Follow, FatChains.Range, HostTable, BlocksOfClusters, ReadBlocks;
  }

  lemma {:induction false} RangeLength(r: FatTable.Run)
    requires r.first <= r.last
    ensures |FatChains.Range(r.first, r.last)| == r.last + 1 - r.first
  {
  }

  lemma {:induction false} DirAddress(v: Outcome, c: nat)
    requires v.Burned? && v.blkSz > 0 && v.colonies.areaOffset <= v.to
    requires Divides(v.blkSz, v.colonies.areaOffset) && (v.to - v.colonies.areaOffset) % v.blkSz == 0 && FirstBehind(v) <= c
    ensures AddressOf(v.colonies.areaOffset / v.blkSz + (c - FatTable.SEEDCLS), v.blkSz) == v.to + Behind(v, c)
  {
    var a, b, d := v.colonies.areaOffset / v.blkSz, (v.to - v.colonies.areaOffset) / v.blkSz, c - FirstBehind(v);
    QuotientSum(v.colonies.areaOffset, 0, v.blkSz);
    QuotientSum(v.to - v.colonies.areaOffset, 0, v.blkSz);
    Products(a, b, v.blkSz);
    Products(a + b, d, v.blkSz);
  }

  lemma {:induction false} ReadPrefix(image: Bytes, to: nat, o: nat, length: nat, size: nat, tail: Bytes)
    requires to <= |image| && image[to..] == tail && size <= length && o + size <= |tail|
    ensures var read := ReadAt(image, to + o, length); size <= |read| && read[..size] == tail[o..o + size]
  {
    var read := ReadAt(image, to + o, length);
    if size > 0 {
      forall k | 0 <= k < size ensures read[k] == tail[o + k] { assert read[k] == image[to + o + k] == image[to..][o + k]; }
    }
  }

  /** The chains computed are the right ones. */
  lemma {:induction false} ChainsAllRight(files: seq<seq<Piece>>, onDisk: MedId -> bool, gap: nat, media: Media, v: Outcome, dirs: seq<nat>)
    requires Ready(files, onDisk, gap, media, v) && forall i :: 0 <= i < |dirs| ==> dirs[i] > 0
    ensures ChainsRight(files, dirs, v, ChainsIn(files, v, PaddedSizes(dirs, v.blkSz)))
    ensures forall d :: 0 <= d < |dirs| ==>
      var r := RunOfDir(ChainsIn(files, v, PaddedSizes(dirs, v.blkSz)), d);
      r == DirRun(PaddedSizes(dirs, v.blkSz), v.to, v.colonies.areaOffset, v.blkSz, d) && FirstBehind(v) <= r.first
  {
    hide Ready, ChainsOf, DirRun, FileChains, LeastFor, FirstBehind, PaddedSizes, RunOfDir, ChainsIn, DirRight;
    ReadyOn(files, onDisk, gap, media, v);
    var size := PaddedSizes(dirs, v.blkSz);
    var chains: seq<seq<FatTable.Run>> := ChainsIn(files, v, size);
    FilesFirst(files, onDisk, gap, media, v, size);
    forall d | 0 <= d < |dirs| ensures RunOfDir(chains, d) == DirRun(size, v.to, v.colonies.areaOffset, v.blkSz, d) {
      DirChainIs(files, v, size, d);
    }
    forall d | 0 <= d < |dirs| ensures DirRight(dirs, v, chains, d) && FirstBehind(v) <= RunOfDir(chains, d).first {
      DirChainIs(files, v, size, d);
      DirRunIs(dirs, v, d);
      RightIs(dirs, v, chains, d);
    }
  }

  lemma {:induction false} RightIs(dirs: seq<nat>, v: Outcome, chains: seq<seq<FatTable.Run>>, d: nat)
    requires v.Burned? && v.blkSz > 0 && v.colonies.areaOffset <= v.to && d < |dirs| <= |chains|
    requires chains[|chains| - 1 - d] == [RunOfDir(chains, d)] && LeastFor(RunOfDir(chains, d), dirs[d], v.blkSz)
    requires RunOfDir(chains, d).first == if d == |dirs| - 1 then FirstBehind(v) else RunOfDir(chains, d + 1).last + 1
    ensures DirRight(dirs, v, chains, d)
  {
  }

  lemma {:induction false} DirChainIs(files: seq<seq<Piece>>, v: Outcome, size: seq<nat>, d: nat)
    requires v.Burned? && v.blkSz > 0 && v.colonies.areaOffset <= v.to && d < |size|
    ensures var chains := ChainsIn(files, v, size);
            var r := DirRun(size, v.to, v.colonies.areaOffset, v.blkSz, d);
            |chains| == |files| + |size| && chains[|chains| - 1 - d] == [r] && RunOfDir(chains, d) == r
  {
    hide DirRun, FileChains;
  }

  lemma {:induction false} FilesFirst(files: seq<seq<Piece>>, onDisk: MedId -> bool, gap: nat, media: Media, v: Outcome, size: seq<nat>)
    requires Ready(files, onDisk, gap, media, v)
    ensures v.Burned? && v.blkSz > 0 && v.colonies.areaOffset <= v.to
    ensures var chains := ChainsIn(files, v, size);
            |chains| == |files| + |size| && ChainsOf(chains[..|files|], files, v.colonies.plan, v.colonies.areaOffset, v.blkSz)
  {
    FileChainsAre(media, v.image, files, onDisk, gap, v.colonies.plan, v.colonies.areaOffset, v.to, v.blkSz);
    hide Laid, Chartable, ChainsOf, FileChains, DirChains;
  }

  lemma {:induction false} ReadyOn(files: seq<seq<Piece>>, onDisk: MedId -> bool, gap: nat, made: Media, v: Outcome)
    requires Ready(files, onDisk, gap, made, v)
    ensures v.Burned? && v.blkSz > 0 && v.colonies.areaOffset <= v.to && (v.to - v.colonies.areaOffset) % v.blkSz == 0
  {
    Multiple(v.to, v.colonies.areaOffset, v.blkSz);
    hide Laid, Chartable;
  }

  lemma {:induction false} OneFollows(fat: seq<nat>, sparse: bool, n: nat, chains: seq<seq<FatTable.Run>>, h: nat, r: FatTable.Run, fuel: nat)
    requires FatChains.Laid(chains, n) && FatChains.Holds(fat, sparse, n, FatTable.AllLinks(chains)) && n < 0x0fff_fff8
    requires h < |chains| && chains[h] == [r] && FatChains.AllNonempty(chains[h]) && FatChains.KeptWhole(chains, h)
    requires fuel >= |FatChains.Range(r.first, r.last)|
    ensures FatChains.Follow(fat, r.first, fuel) == FatChains.Range(r.first, r.last)
  {
    hide FatChains.Laid, FatChains.Holds, FatChains.KeptWhole, FatChains.AllNonempty, FatChains.Clusters, FatChains.Follow, FatTable.AllLinks, FatChains.Range;
    OneRun(r);
    FatChains.FileFollows(fat, sparse, n, chains, h, fuel);
  }

  lemma {:induction false} OneRun(r: FatTable.Run)
    ensures FatChains.Clusters([r]) == FatChains.Range(r.first, r.last)
  {
    assert FatChains.Clusters([r]) == FatChains.Range(r.first, r.last) + FatChains.Clusters([]);
  }

  // ----- putting it together -----

  /** The sizes FAT permits, 512 to 16384, are whole table entries and divide the target's block. */
  lemma {:induction false} SizeFits(files: seq<seq<Piece>>, sizeRange: Words.Word, w: nat, o: nat, blkSz: nat)
    requires Volume.Contiguous(sizeRange, 9, 14) && w < Words.WIDTH
    requires Volume.Adjust(Volume.Granularity(MaskAll(files)), sizeRange, Words.Pow2(w)) == Volume.Size(blkSz)
    ensures 0 < blkSz <= 16384 && blkSz % 4 == 0 && Divides(blkSz, Max(blkSz, Words.Pow2(o)))
    ensures forall k :: 0 <= k < |AllPieces(files)| ==> AllPieces(files)[k].offset % blkSz == 0
  {
    hide Volume.Contiguous, Volume.Adjust, Volume.Granularity, MaskAll, AllPieces, Words.Pow2, Max;
    var p := SizeChosen(files, sizeRange, 9, 14, w, o, Burned([], Colonies(0, map[]), blkSz, Max(blkSz, Words.Pow2(o)), 0));
    Pow2Divides(2, p);
    SmallPowers();
    if p < 14 { Words.Pow2Grows(p, 14); }
  }

  lemma {:induction false} SmallPowers()
    ensures Words.Pow2(2) == 4 && Words.Pow2(9) == 512 && Words.Pow2(14) == 16384
  {
    Volume.Pow2Twelve();
    Words.Pow2Sum(9, 3);
    Words.Pow2Sum(12, 2);
  }

  /** A table of whole clusters. */
  lemma {:induction false} TableSize(count: nat, blkSz: nat)
    requires blkSz > 0 && blkSz % 4 == 0
    ensures blkSz / 4 > 0 && count <= RoundUp(count, blkSz / 4) < count + blkSz && Divides(blkSz, 4 * RoundUp(count, blkSz / 4))
  {
    var q := blkSz / 4;
    RoundUpBounds(count, q);
    var k := (count + q - 1) / q;
    assert 4 * (k * q) == k * blkSz;
    Quotient(k, 0, blkSz);
  }

  lemma {:induction false} AreaBegins(headers: seq<Extent>, blkSz: nat, table: nat, copies: nat)
    requires Positive(headers) && Divides(blkSz, table)
    ensures Divides(blkSz, TableAt(headers, blkSz) + copies * table)
    decreases copies
  {
    LengthNat(headers);
    RoundUpAligned(Length(headers), blkSz);
    if copies > 0 {
      AreaBegins(headers, blkSz, table, copies - 1);
      hide TableAt, RoundUp;
      assert copies * table == (copies - 1) * table + table;
      Multiple(TableAt(headers, blkSz) + (copies - 1) * table, table, blkSz);
    } else {
      assert 0 * table == 0;
    }
  }

  /** What was settled is a volume as the readers want it. */
  lemma {:induction false} VolumeReady(files: seq<seq<Piece>>, onDisk: MedId -> bool, gap: nat, media: Media, plan: Planetary, v: Outcome)
    requires Chartable(AllPieces(files)) && plan == Optimized(AllCharted(map[], AllPieces(files)), onDisk, gap)
    requires v.Burned? && v.blkSz > 0 && Divides(v.blkSz, v.outBlk) && Divides(v.blkSz, v.colonies.areaOffset) && v.outBlk > 0
    requires v.colonies.areaOffset <= v.to && v.colonies.plan == LinksOf(plan, v.colonies.areaOffset, v.outBlk)
    requires EndsAll(plan, v.colonies.areaOffset, v.outBlk, v.to)
    requires v.colonies.plan.Keys == plan.Keys && forall id :: id in plan ==> |v.colonies.plan[id]| == |plan[id]|
    requires Settled(media, v.image, plan, v.colonies.plan, v.colonies.areaOffset, v.to, v.outBlk)
    requires forall k :: 0 <= k < |AllPieces(files)| ==> AllPieces(files)[k].offset % v.blkSz == 0
    ensures Represented(files, onDisk, gap, media, v) && Ready(files, onDisk, gap, media, v)
  {
    hide Settled, LinksOf, Optimized, AllCharted, Chartable, AllPieces;
    var n := Above(plan.Keys);
    assert v.to == EndOf(Flat(plan, n), v.colonies.areaOffset, v.outBlk);
    EndAligned(Flat(plan, n), v.colonies.areaOffset, v.outBlk, v.blkSz);
    hide EndOf, Flat, EndsAll;
    assert Represented(files, onDisk, gap, media, v);
    hide Represented;
    LaidFor(files, onDisk, gap, media, v, v.blkSz);
  }

  /** Builds the table of a volume and the bytes of its medium. Aborts when something ends past it. */
  method MakeTable(sparse: bool, n: nat, lanes: nat, chains: seq<seq<FatTable.Run>>) returns (ok: bool, bytes: Bytes)
    requires FatTable.SEEDCLS < n < 0x0fff_fff8 && (lanes == 1 || lanes == 4)
    requires Within(chains, n) ==> FatChains.Laid(chains, n)
    ensures ok == Within(chains, n)
    ensures ok ==> bytes == TableBytes(sparse, n, FatTable.AllLinks(chains))
  {
    var fat;
    ok, fat := FatTable.PlanTable(sparse, n, lanes, chains);
    if !ok { return false, []; }
    assert Within(chains, n);
    TableWords(sparse, n, chains);
    hide FatChains.Laid, FatTable.AllEntered, FatTable.AllLinks, RuleMedium.Fits, RuleMedium.Written, RuleMedium.Words, TableBytes, Narrow, FatChains.WellPlaced;
    var words := RuleMedium.WriteToFd(sparse, lanes, fat.chunk, fat.amendments, n, 0, n, [], 0);
    RuleMedium.WrittenWhole(sparse, n, fat.amendments, [], 0, words);
    NothingAround(RuleMedium.Words(sparse, n, fat.amendments));
    bytes := WordBytes(words);
  }

  lemma {:induction false} NothingAround(words: seq<nat>)
    ensures RuleMedium.Spliced([], 0, words) == words
  {
  }

  function CopyAt(at: nat, n: nat, c: nat): nat {
    at + c * (4 * n)
  }

  datatype FatOutcome =
    | TooGranular
    | TooMany
    | PastTable(v: Outcome, n: nat, chains: seq<seq<FatTable.Run>>)
    | Made(v: Outcome, n: nat, chains: seq<seq<FatTable.Run>>, at: nat)

  /** Where everything goes: the files behind the headers and the copies of a table of `n` entries. */
  ghost predicate Placed(files: seq<seq<Piece>>, onDisk: MedId -> bool, gap: nat, headers: seq<Extent>, copies: nat, outBlk: nat, v: Outcome, n: nat)
    requires Positive(headers)
  {
    var plan: Planetary := Optimized(AllCharted(map[], AllPieces(files)), onDisk, gap);
    && v.Burned? && v.blkSz > 0 && v.outBlk == Max(v.blkSz, outBlk) && v.outBlk > 0
    && v.colonies.areaOffset == TableAt(headers, v.blkSz) + copies * (4 * n) && v.colonies.areaOffset <= v.to
    && v.colonies.plan == LinksOf(plan, v.colonies.areaOffset, v.outBlk) && EndsAll(plan, v.colonies.areaOffset, v.outBlk, v.to)
  }

  /** A volume has been made: the image is headers, tables, files and metadata and nothing else; its files
      are represented; and by each of its tables a host finds the bytes of every file that keeps its
      links, and those of every directory. */
  ghost predicate Sound(files: seq<seq<Piece>>, onDisk: MedId -> bool, gap: nat, media: Media, home: nat, tmpAt: nat, copies: nat,
                        headers: seq<Extent>, tail: seq<Extent>, dirs: seq<nat>, sparse: bool, v: Outcome, n: nat, chains: seq<seq<FatTable.Run>>, at: nat)
    requires v.Burned? && v.blkSz > 0 && v.colonies.areaOffset <= v.to && n > FatTable.SEEDCLS && |chains| == |files| + |dirs|
  {
    var made := Overlay(media, home, tmpAt, TableBytes(sparse, n, FatTable.AllLinks(chains)));
    && Represented(files, onDisk, gap, made, v) && Within(chains, n)
    && FirstFrom(at, |Burnt(made, headers)|, v.blkSz) && v.colonies.areaOffset == CopyAt(at, n, copies)
    && Begins(made, headers, v.image, at) && v.to <= |v.image| && v.image[v.to..] == Burnt(made, tail)
    && GapsZero(v.image, Optimized(AllCharted(map[], AllPieces(files)), onDisk, gap), v.colonies.plan, v.colonies.areaOffset, v.to)
    && (forall c: nat :: c < copies ==> TableGood(v, chains, sparse, n, CopyAt(at, n, c)))
    && (forall c: nat, f: nat, fuel: nat, bytes: nat :: c < copies && f < |files| ==>
          FileFound(files, v, chains, n, CopyAt(at, n, c), media, f, fuel, bytes))
    && (forall c: nat, d: nat, fuel: nat :: c < copies && d < |dirs| ==>
          DirFound(v, RunOfDir(chains, d), n, CopyAt(at, n, c), fuel)
          && DirRead(v, RunOfDir(chains, d), n, CopyAt(at, n, c), Burnt(made, tail), dirs[d], fuel))
  }

  /** The table in the image: its entries are those of the chains, the media type is in the first reserved
      entry, and the clean marks are in the second, unless an empty extent at the very beginning ends
      there. */
  ghost predicate TableGood(v: Outcome, chains: seq<seq<FatTable.Run>>, sparse: bool, n: nat, at: nat)
    requires v.Burned? && n > FatTable.SEEDCLS
  {
    var fat, segs := HostTable(v.image, at, n), FatTable.AllLinks(chains);
    && |fat| == n && FatChains.Holds(fat, sparse, n, segs)
    && fat[0] == 0x0fff_fff8 && (fat[1] == 0xffff_ffff <==> !FatChains.EndsAt(segs, 1))
  }

  lemma {:induction false} AllSound(files: seq<seq<Piece>>, onDisk: MedId -> bool, gap: nat, media: Media, home: nat, tmpAt: nat, copies: nat,
                                    headers: seq<Extent>, tail: seq<Extent>, dirs: seq<nat>, sparse: bool, v: Outcome, n: nat, at: nat, made: Media)
    requires Represented(files, onDisk, gap, made, v) && Ready(files, onDisk, gap, made, v) && forall i :: 0 <= i < |dirs| ==> dirs[i] > 0
    requires FatTable.SEEDCLS < n < 0x0fff_fff8 && Within(ChainsIn(files, v, PaddedSizes(dirs, v.blkSz)), n)
    requires made == Overlay(media, home, tmpAt, TableBytes(sparse, n, FatTable.AllLinks(ChainsIn(files, v, PaddedSizes(dirs, v.blkSz)))))
    requires forall c: nat :: c < copies ==> TableThere(v, ChainsIn(files, v, PaddedSizes(dirs, v.blkSz)), sparse, n, CopyAt(at, n, c))
    requires forall f :: 0 <= f < |files| ==> files[f] != [] ==> FileAt(files[f], v, made)
    requires forall f :: 0 <= f < |files| ==> Parts(files[f], made) == Parts(files[f], media)
    requires FirstFrom(at, |Burnt(made, headers)|, v.blkSz) && v.colonies.areaOffset == CopyAt(at, n, copies)
    requires Begins(made, headers, v.image, at) && v.to <= |v.image| && v.image[v.to..] == Burnt(made, tail)
    requires GapsZero(v.image, Optimized(AllCharted(map[], AllPieces(files)), onDisk, gap), v.colonies.plan, v.colonies.areaOffset, v.to)
    ensures Sound(files, onDisk, gap, media, home, tmpAt, copies, headers, tail, dirs, sparse, v, n, ChainsIn(files, v, PaddedSizes(dirs, v.blkSz)), at)
  {
    hide Represented, Ready, Within, ChainsIn, TableThere, Overlay, TableBytes, DirSizes, DirFound, DirRead, FileFound, CopyAt, FatTable.AllLinks, FileAt;
    hide Parts, DirRun, PaddedSizes, Begins, GapsZero, Burnt, RunOfDir, ChainsRight, FatChains.Laid, TableGood, LeastFor, FirstBehind, Divides, DirRight, FirstFrom;
    ReadyOn(files, onDisk, gap, made, v);
    ReadyAligned(files, onDisk, gap, made, v);
    PaddedAre(dirs, v.blkSz);
    var size := PaddedSizes(dirs, v.blkSz);
    var chains := ChainsIn(files, v, size);
    ChainsReady(files, onDisk, gap, made, v, size, n);
    ChainsAllRight(files, onDisk, gap, made, v, dirs);
    forall c: nat | c < copies ensures TableGood(v, chains, sparse, n, CopyAt(at, n, c)) { TableIsGood(v, chains, sparse, n, CopyAt(at, n, c)); }
    forall c: nat, f: nat, fuel: nat, bytes: nat | c < copies && f < |files|
      ensures FileFound(files, v, chains, n, CopyAt(at, n, c), media, f, fuel, bytes)
    {
      FileReached(files, onDisk, gap, made, v, size, sparse, n, CopyAt(at, n, c), f, fuel, bytes);
      SameFound(files, v, chains, n, CopyAt(at, n, c), made, media, f, fuel, bytes);
    }
    forall c: nat, d: nat, fuel: nat | c < copies && d < |dirs|
      ensures DirFound(v, RunOfDir(chains, d), n, CopyAt(at, n, c), fuel)
      ensures DirRead(v, RunOfDir(chains, d), n, CopyAt(at, n, c), Burnt(made, tail), dirs[d], fuel)
    {
      DirReached(files, onDisk, gap, made, v, size, sparse, n, CopyAt(at, n, c), |dirs| - 1 - d, fuel);
      DirRunIs(dirs, v, d);
      DirBytes(v, RunOfDir(chains, d), n, CopyAt(at, n, c), Burnt(made, tail), dirs[d], fuel);
    }
  }

  lemma {:induction false} TableIsGood(v: Outcome, chains: seq<seq<FatTable.Run>>, sparse: bool, n: nat, at: nat)
    requires v.Burned? && FatTable.SEEDCLS < n < 0x0fff_fff8 && FatChains.Laid(chains, n) && TableThere(v, chains, sparse, n, at)
    ensures TableGood(v, chains, sparse, n, at)
  {
    hide *;
    var segs := FatTable.AllLinks(chains);
    TableRead(v, chains, sparse, n, at);
    TableWords(sparse, n, chains);
    RuleMedium.ChainLinksFit(chains, n);
    ReservedWords(sparse, n, segs);
    HeldWords(v, chains, sparse, n, at);
    GoodIs(v, chains, sparse, n, at);
  }

  lemma {:induction false} HeldWords(v: Outcome, chains: seq<seq<FatTable.Run>>, sparse: bool, n: nat, at: nat)
    requires v.Burned? && FatTable.SEEDCLS < n < 0x0fff_fff8 && FatChains.Laid(chains, n) && TableThere(v, chains, sparse, n, at)
    ensures RuleMedium.Fits(FatChains.Table(sparse, n, FatTable.AllLinks(chains)))
    ensures HostTable(v.image, at, n) == RuleMedium.Words(sparse, n, FatChains.Table(sparse, n, FatTable.AllLinks(chains)))
  {
    TableWords(sparse, n, chains);
    hide FatChains.Laid, FatTable.AllLinks, FatChains.Table, RuleMedium.Words, WordBytes, WordsIn, RuleMedium.Fits, TableBytes;
    WordsReadBack(RuleMedium.Words(sparse, n, FatChains.Table(sparse, n, FatTable.AllLinks(chains))));
  }

  lemma {:induction false} GoodIs(v: Outcome, chains: seq<seq<FatTable.Run>>, sparse: bool, n: nat, at: nat)
    requires v.Burned? && n > FatTable.SEEDCLS && |HostTable(v.image, at, n)| == n
    requires FatChains.Holds(HostTable(v.image, at, n), sparse, n, FatTable.AllLinks(chains))
    requires var fat := HostTable(v.image, at, n);
             fat[0] == 0x0fff_fff8 && (fat[1] == 0xffff_ffff <==> !FatChains.EndsAt(FatTable.AllLinks(chains), 1))
    ensures TableGood(v, chains, sparse, n, at)
  {
    hide FatChains.Holds, HostTable, FatTable.AllLinks, FatChains.EndsAt;
  }

  /** The two reserved entries. */
  lemma {:induction false} ReservedWords(sparse: bool, n: nat, segs: seq<FatTable.Seg>)
    requires FatTable.SEEDCLS < n < 0x0fff_fff8 && FatChains.WellPlaced(segs, n) && RuleMedium.LinksFit(segs, n)
    ensures RuleMedium.Fits(FatChains.Table(sparse, n, segs))
    ensures var w := RuleMedium.Words(sparse, n, FatChains.Table(sparse, n, segs));
            w[0] == 0x0fff_fff8 && (w[1] == 0xffff_ffff <==> !FatChains.EndsAt(segs, 1))
  {
    RuleMedium.TableFits(sparse, n, segs);
    var a := FatChains.Table(sparse, n, segs);
    if FatChains.EndsAt(segs, 1) {
      FatChains.LinksSet(sparse, n, segs, 1);
      var j :| 0 <= j < |segs| && segs[j] == FatChains.LastEnding(segs, 1);
      assert a[1] == [segs[j].next] && segs[j].next != 0xffff_ffff;
    } else {
      assert 1 !in a;
    }
    hide FatChains.Table, FatChains.WellPlaced, FatChains.EndsAt;
  }

  lemma {:induction false} SameFound(files: seq<seq<Piece>>, v: Outcome, chains: seq<seq<FatTable.Run>>, n: nat, at: nat, made: Media, media: Media,
                                     f: nat, fuel: nat, size: nat)
    requires v.Burned? && v.blkSz > 0 && |files| <= |chains| && f < |files| && Parts(files[f], made) == Parts(files[f], media)
    requires FileFound(files, v, chains, n, at, made, f, fuel, size)
    ensures FileFound(files, v, chains, n, at, media, f, fuel, size)
  {
  }

  /** `represent` for a FAT32 volume: charts the files and chooses the cluster size; plans headers, the
      copies of a table of at least `count` entries, the files and whatever `tail` brings, in which
      directories of the sizes `dirs` stand first; enters files and directories into the table; and burns
      it all, the table being on the temporary medium `home` by then. */
  method FatRepresent(files: seq<seq<Piece>>, onDisk: MedId -> bool, gap: nat, sizeRange: Words.Word, own: nat, outBlk: nat, tmpBlk: nat, page: nat,
                      headers: seq<Extent>, home: nat, tmpAt: nat, copies: nat, count: nat, dirs: seq<nat>, tail: seq<Extent>,
                      sparse: bool, lanes: nat, media: Media, ghost w: nat, ghost o: nat) returns (r: FatOutcome)
    requires Chartable(AllPieces(files)) && Volume.Contiguous(sizeRange, 9, 14) && w < Words.WIDTH
    requires Volume.Want(own, outBlk, tmpBlk, page) == Words.Pow2(w) && outBlk == Words.Pow2(o)
    requires Positive(headers) && Positive(tail) && count > FatTable.SEEDCLS && (lanes == 1 || lanes == 4)
    requires forall i :: 0 <= i < |dirs| ==> dirs[i] > 0
    requires forall f, i :: 0 <= f < |files| && 0 <= i < |files[f]| ==> files[f][i].id != home
    ensures r.TooGranular? <==> !AllMultiple(files, 512)
    ensures r.TooMany? ==> count + 16384 > 0x0fff_fff8
    ensures r.PastTable? || r.Made? ==>
              && Placed(files, onDisk, gap, headers, copies, outBlk, r.v, r.n) && ChosenFor(files, 9, 14, w, r.v.blkSz)
              && r.v.blkSz >= 4 && r.n == RoundUp(count, r.v.blkSz / 4) && ChainsRight(files, dirs, r.v, r.chains)
    ensures r.PastTable? ==> !Within(r.chains, r.n)
    ensures r.Made? ==> r.n > FatTable.SEEDCLS
                        && Sound(files, onDisk, gap, media, home, tmpAt, copies, headers, tail, dirs, sparse, r.v, r.n, r.chains, r.at)
  {
    RefusedExactly(files, sizeRange, 9, 14, Volume.Want(own, outBlk, tmpBlk, page));
    SmallPowers();
    hide ChainsRight, ChosenFor, AllMultiple;
    hide Chartable, Volume.Contiguous, Volume.Adjust, Volume.Granularity, Volume.Want, Words.Pow2, MaskAll, AllPieces, AllCharted, Optimized, Ordered;
    hide Settled, LinksOf, EndsAll, Burnt, Head, TableAt, RoundUp, Planner.Valid, Length, Positive, Sound, Max;
    var plan, adjusted := Prepare(files, onDisk, gap, sizeRange, Volume.Want(own, outBlk, tmpBlk, page));
    if adjusted.TooGranular? { return TooGranular; }
    var blkSz := adjusted.blkSz;
    SizeFits(files, sizeRange, w, o, blkSz);
    ChosenExactly(files, sizeRange, 9, 14, w, blkSz);
    TableSize(count, blkSz);
    var n := RoundUp(count, blkSz / 4);
    if n >= 0x0fff_fff8 { return TooMany; }
    r := LayFat(files, onDisk, gap, plan, blkSz, outBlk, headers, home, tmpAt, copies, n, dirs, tail, sparse, lanes, media, w, o, sizeRange);
  }

  method LayFat(files: seq<seq<Piece>>, ghost onDisk: MedId -> bool, ghost gap: nat, plan: Planetary, blkSz: nat, outBlk: nat,
                headers: seq<Extent>, home: nat, tmpAt: nat, copies: nat, n: nat, dirs: seq<nat>, tail: seq<Extent>,
                sparse: bool, lanes: nat, media: Media, ghost w: nat, ghost o: nat, ghost sizeRange: Words.Word) returns (r: FatOutcome)
    requires Chartable(AllPieces(files)) && Volume.Contiguous(sizeRange, 9, 14) && w < Words.WIDTH && outBlk == Words.Pow2(o)
    requires Volume.Adjust(Volume.Granularity(MaskAll(files)), sizeRange, Words.Pow2(w)) == Volume.Size(blkSz)
    requires plan == Optimized(AllCharted(map[], AllPieces(files)), onDisk, gap) && Ordered(plan)
    requires Positive(headers) && Positive(tail) && (lanes == 1 || lanes == 4)
    requires blkSz > 0 && FatTable.SEEDCLS < n < 0x0fff_fff8 && Divides(blkSz, 4 * n) && Divides(blkSz, Max(blkSz, outBlk))
    requires forall k :: 0 <= k < |AllPieces(files)| ==> AllPieces(files)[k].offset % blkSz == 0
    requires forall i :: 0 <= i < |dirs| ==> dirs[i] > 0
    requires forall f, i :: 0 <= f < |files| && 0 <= i < |files[f]| ==> files[f][i].id != home
    ensures r.PastTable? || r.Made?
    ensures r.n == n && Placed(files, onDisk, gap, headers, copies, outBlk, r.v, n) && r.v.blkSz == blkSz
    ensures ChainsRight(files, dirs, r.v, r.chains)
    ensures r.PastTable? ==> !Within(r.chains, n)
    ensures r.Made? ==> Sound(files, onDisk, gap, media, home, tmpAt, copies, headers, tail, dirs, sparse, r.v, n, r.chains, r.at)
  {
    hide Chartable, Volume.Contiguous, Volume.Adjust, Volume.Granularity, Words.Pow2, MaskAll, AllPieces, AllCharted, Optimized, Ordered;
    hide Settled, LinksOf, EndsAll, Burnt, Head, TableAt, RoundUp, Planner.Valid, Length, Positive, Sound, Within, Represented, Ready, Max, Divides;
    hide ChainsRight, Begins, GapsZero, PaddedSizes, ChainsIn, VolumeChains, TableBytes, FatTable.AllLinks, Overlay, EndOf, Flat, TableThere, FatChains.Laid, Content, DirSizes, FileAt, Parts;
    var size := PaddedSizes(dirs, blkSz);
    PaddedAre(dirs, blkSz);
    var out := new Planner(outBlk);
    out.RequestBlockSize(blkSz);
    var block := out.BlockSize();
    MaxIs(blkSz, outBlk);
    var fat := Extent(tmpAt, 4 * n, Medium(home));
    PlanHead(out, headers, blkSz, fat, copies);
    AreaBegins(headers, blkSz, 4 * n, copies);
    var from := out.offset;
    var at := TableAt(headers, blkSz);
    ghost var bound := Above(plan.Keys);
    ghost var end := EndOf(Flat(plan, bound), from, block);
    EndsAfter(Flat(plan, bound), from, block);
    ghost var made := Overlay(media, home, tmpAt, TableBytes(sparse, n, FatTable.AllLinks(VolumeChains(files, LinksOf(plan, from, block), size, end, from, blkSz))));
    var colonies := WriteFiles(plan, out, block, made);
    var to := out.offset;
    EndsWhere(plan, from, block, to, bound);
    ghost var listed := out.extlist;
    out.ListedLength(made);
    ghost var planned := Burned(Burnt(made, listed), colonies, blkSz, block, to);
    VolumeReady(files, onDisk, gap, made, plan, planned);
    var chains := VolumeChains(files, colonies.plan, size, to, from, blkSz);
    ChainsInIs(files, planned, size);
    ChainsAllRight(files, onDisk, gap, made, planned, dirs);
    SameRight(files, dirs, planned, chains);
    if Within(chains, n) { ChainsReady(files, onDisk, gap, made, planned, size, n); }
    var ok, bytes := MakeTable(sparse, n, lanes, chains);
    PlacedIs(files, onDisk, gap, headers, copies, outBlk, planned, n, plan);
    if !ok { return PastTable(Burned([], colonies, blkSz, block, to), n, chains); }
    AppendAll(out, tail);
    ghost var all := out.extlist;
    var burner := new VectBurner();
    out.Commit(burner, Overlay(media, home, tmpAt, bytes));
    var v := Burned(burner.bytes, colonies, blkSz, block, to);
    assert v.image == Burnt(made, listed + tail) by { assert [] + Burnt(made, all) == Burnt(made, all); }
    ChainsInIs(files, v, size);
    FatFinish(files, onDisk, gap, sizeRange, w, o, headers, tail, home, tmpAt, copies, dirs, sparse, media, made, plan, v, n, listed);
    r := Made(v, n, chains, at);
  }

  lemma {:induction false} PlacedIs(files: seq<seq<Piece>>, onDisk: MedId -> bool, gap: nat, headers: seq<Extent>, copies: nat, outBlk: nat,
                                    v: Outcome, n: nat, plan: Planetary)
    requires Positive(headers) && plan == Optimized(AllCharted(map[], AllPieces(files)), onDisk, gap)
    requires v.Burned? && v.blkSz > 0 && v.outBlk == Max(v.blkSz, outBlk) && v.outBlk > 0
    requires v.colonies.areaOffset == TableAt(headers, v.blkSz) + copies * (4 * n) && v.colonies.areaOffset <= v.to
    requires v.colonies.plan == LinksOf(plan, v.colonies.areaOffset, v.outBlk) && EndsAll(plan, v.colonies.areaOffset, v.outBlk, v.to)
    ensures forall image :: Placed(files, onDisk, gap, headers, copies, outBlk, v.(image := image), n)
    ensures forall image, size :: ChainsIn(files, v.(image := image), size) == ChainsIn(files, v, size)
  {
  }

  lemma {:induction false} SameRight(files: seq<seq<Piece>>, dirs: seq<nat>, v: Outcome, chains: seq<seq<FatTable.Run>>)
    requires ChainsRight(files, dirs, v, chains)
    ensures forall image :: ChainsRight(files, dirs, v.(image := image), chains)
  {
    forall image ensures ChainsRight(files, dirs, v.(image := image), chains) {
      forall d | 0 <= d < |dirs| ensures DirRight(dirs, v.(image := image), chains, d) { assert DirRight(dirs, v, chains, d); }
    }
    hide ChainsOf, LeastFor, RunOfDir;
  }

  /** Headers at the beginning of the image, zeros between the ranges, and the metadata at the end. */
  lemma {:induction false} FatFramed(made: Media, headers: seq<Extent>, blkSz: nat, fat: Extent, copies: nat, listed: seq<Extent>, tail: seq<Extent>,
                                     plan: Planetary, links: Links, from: nat, to: nat)
    requires Positive(headers) && blkSz > 0 && Head(headers, blkSz, fat, copies) <= listed && |Burnt(made, listed)| == to
    requires GapsZero(Burnt(made, listed), plan, links, from, to)
    ensures var image := Burnt(made, listed + tail);
            && Begins(made, headers, image, TableAt(headers, blkSz)) && to <= |image| && image[to..] == Burnt(made, tail)
            && GapsZero(image, plan, links, from, to)
  {
    hide Head, TableAt, RoundUp, Burnt, Begins, GapsZero, Positive, Length, Pads;
    var first := HeadFront(made, headers, blkSz, fat, copies);
    var at := TableAt(headers, blkSz);
    assert listed == first + listed[|first|..];
    BurntConcat(made, first, listed[|first|..]);
    BurntConcat(made, listed, tail);
    var a, b, c := Burnt(made, first), Burnt(made, listed[|first|..]), Burnt(made, tail);
    BeginsMore(made, headers, a, b + c, at);
    Behindmost(a, b, c, to);
    GapsKept(Burnt(made, listed), c, plan, links, from, to);
  }

  lemma {:induction false} Behindmost(a: Bytes, b: Bytes, c: Bytes, to: nat)
    requires |a + b| == to
    ensures a + b + c == a + (b + c) && |a + b + c| >= to && (a + b + c)[to..] == c
  {
  }

  lemma {:induction false} HeadFront(made: Media, headers: seq<Extent>, blkSz: nat, fat: Extent, copies: nat) returns (first: seq<Extent>)
    requires Positive(headers) && blkSz > 0
    ensures first <= Head(headers, blkSz, fat, copies) && Begins(made, headers, Burnt(made, first), TableAt(headers, blkSz))
  {
    LengthNat(headers);
    RoundUpBounds(Length(headers), blkSz);
    var pad := Padding(Length(headers), blkSz);
    first := headers + Pads(pad);
    PadsLength(headers, pad);
    hide Begins, Burnt, Pads, Positive, Length;
    FrontIs(made, headers, first, TableAt(headers, blkSz));
  }

  /** What the burnt volume comes to. */
  lemma {:induction false} FatFinish(files: seq<seq<Piece>>, onDisk: MedId -> bool, gap: nat, sizeRange: Words.Word, w: nat, o: nat,
                                     headers: seq<Extent>, tail: seq<Extent>, home: nat, tmpAt: nat, copies: nat, dirs: seq<nat>, sparse: bool,
                                     media: Media, made: Media, plan: Planetary, v: Outcome, n: nat, listed: seq<Extent>)
    requires Positive(headers) && Chartable(AllPieces(files)) && Volume.Contiguous(sizeRange, 9, 14) && w < Words.WIDTH && v.Burned? && v.blkSz > 0
    requires Volume.Adjust(Volume.Granularity(MaskAll(files)), sizeRange, Words.Pow2(w)) == Volume.Size(v.blkSz)
    requires v.outBlk == Max(v.blkSz, Words.Pow2(o)) && v.outBlk > 0 && Divides(v.blkSz, v.outBlk)
    requires Divides(v.blkSz, v.colonies.areaOffset) && v.colonies.areaOffset <= v.to
    requires v.colonies.areaOffset == TableAt(headers, v.blkSz) + copies * (4 * n)
    requires plan == Optimized(AllCharted(map[], AllPieces(files)), onDisk, gap)
    requires v.colonies.plan == LinksOf(plan, v.colonies.areaOffset, v.outBlk) && EndsAll(plan, v.colonies.areaOffset, v.outBlk, v.to)
    requires v.colonies.plan.Keys == plan.Keys && forall id :: id in plan ==> |v.colonies.plan[id]| == |plan[id]|
    requires Settled(made, Burnt(made, listed), plan, v.colonies.plan, v.colonies.areaOffset, v.to, v.outBlk)
    requires GapsZero(Burnt(made, listed), plan, v.colonies.plan, v.colonies.areaOffset, v.to) && |Burnt(made, listed)| == v.to
    requires forall k :: 0 <= k < |AllPieces(files)| ==> AllPieces(files)[k].offset % v.blkSz == 0
    requires forall i :: 0 <= i < |dirs| ==> dirs[i] > 0
    requires FatTable.SEEDCLS < n < 0x0fff_fff8 && Within(ChainsIn(files, v, PaddedSizes(dirs, v.blkSz)), n)
    requires made == Overlay(media, home, tmpAt, TableBytes(sparse, n, FatTable.AllLinks(ChainsIn(files, v, PaddedSizes(dirs, v.blkSz)))))
    requires Head(headers, v.blkSz, Extent(tmpAt, 4 * n, Medium(home)), copies) <= listed && v.image == Burnt(made, listed + tail)
    requires forall f, i :: 0 <= f < |files| && 0 <= i < |files[f]| ==> files[f][i].id != home
    ensures Sound(files, onDisk, gap, media, home, tmpAt, copies, headers, tail, dirs, sparse, v, n, ChainsIn(files, v, PaddedSizes(dirs, v.blkSz)),
                  TableAt(headers, v.blkSz))
  {
    hide *;
    BurntConcat(made, listed, tail);
    SettledMore(made, Burnt(made, listed), Burnt(made, tail), plan, v.colonies.plan, v.colonies.areaOffset, v.to, v.outBlk);
    VolumeReady(files, onDisk, gap, made, plan, v);
    FatFramed(made, headers, v.blkSz, Extent(tmpAt, 4 * n, Medium(home)), copies, listed, tail, plan, v.colonies.plan, v.colonies.areaOffset, v.to);
    PrefixOn(Head(headers, v.blkSz, Extent(tmpAt, 4 * n, Medium(home)), copies), listed, tail);
    FatSound(files, onDisk, gap, sizeRange, w, o, headers, tail, home, tmpAt, copies, dirs, sparse, media, made, v, n, listed + tail);
  }

  lemma {:induction false} PrefixOn(a: seq<Extent>, b: seq<Extent>, c: seq<Extent>)
    requires a <= b
    ensures a <= b + c
  {
  }

  lemma {:induction false} ChainsInIs(files: seq<seq<Piece>>, v: Outcome, size: seq<nat>)
    requires v.Burned? && v.blkSz > 0 && v.colonies.areaOffset <= v.to
    ensures ChainsIn(files, v, size) == VolumeChains(files, v.colonies.plan, size, v.to, v.colonies.areaOffset, v.blkSz)
  {
  }

  lemma {:induction false} FatSound(files: seq<seq<Piece>>, onDisk: MedId -> bool, gap: nat, sizeRange: Words.Word, w: nat, o: nat,
                                    headers: seq<Extent>, tail: seq<Extent>, home: nat, tmpAt: nat, copies: nat, dirs: seq<nat>, sparse: bool, media: Media, made: Media,
                                    v: Outcome, n: nat, list: seq<Extent>)
    requires Positive(headers) && Chartable(AllPieces(files)) && Volume.Contiguous(sizeRange, 9, 14) && w < Words.WIDTH && v.Burned? && v.blkSz > 0
    requires Volume.Adjust(Volume.Granularity(MaskAll(files)), sizeRange, Words.Pow2(w)) == Volume.Size(v.blkSz)
    requires v.outBlk == Max(v.blkSz, Words.Pow2(o)) && Divides(v.blkSz, v.colonies.areaOffset) && v.colonies.areaOffset <= v.to
    requires v.colonies.areaOffset == TableAt(headers, v.blkSz) + copies * (4 * n)
    requires Represented(files, onDisk, gap, made, v) && Ready(files, onDisk, gap, made, v) && forall i :: 0 <= i < |dirs| ==> dirs[i] > 0
    requires FatTable.SEEDCLS < n < 0x0fff_fff8 && Within(ChainsIn(files, v, PaddedSizes(dirs, v.blkSz)), n)
    requires made == Overlay(media, home, tmpAt, TableBytes(sparse, n, FatTable.AllLinks(ChainsIn(files, v, PaddedSizes(dirs, v.blkSz)))))
    requires Head(headers, v.blkSz, Extent(tmpAt, 4 * n, Medium(home)), copies) <= list && v.image == Burnt(made, list)
    requires forall f, i :: 0 <= f < |files| && 0 <= i < |files[f]| ==> files[f][i].id != home
    requires Begins(made, headers, v.image, TableAt(headers, v.blkSz)) && v.to <= |v.image| && v.image[v.to..] == Burnt(made, tail)
    requires GapsZero(v.image, Optimized(AllCharted(map[], AllPieces(files)), onDisk, gap), v.colonies.plan, v.colonies.areaOffset, v.to)
    ensures Sound(files, onDisk, gap, media, home, tmpAt, copies, headers, tail, dirs, sparse, v, n, ChainsIn(files, v, PaddedSizes(dirs, v.blkSz)),
                  TableAt(headers, v.blkSz))
  {
    hide Chartable, Volume.Contiguous, Volume.Adjust, Volume.Granularity, Words.Pow2, MaskAll, AllPieces, Max, Divides;
    hide Burnt, Head, TableAt, Positive, Sound, Within, Represented, Ready, ChainsIn, TableBytes, FatTable.AllLinks, Overlay, TableThere, DirSizes, FileAt, Parts;
    hide Begins, GapsZero, PaddedSizes, FirstFrom;
    var at, chains := TableAt(headers, v.blkSz), ChainsIn(files, v, PaddedSizes(dirs, v.blkSz));
    forall f | 0 <= f < |files| ensures Parts(files[f], made) == Parts(files[f], media) {
      OverlayKeeps(media, home, tmpAt, TableBytes(sparse, n, FatTable.AllLinks(chains)), files[f]);
    }
    forall f | 0 <= f < |files| ensures files[f] != [] ==> FileAt(files[f], v, made) {
      if files[f] != [] { FileIsAt(files, onDisk, gap, sizeRange, 9, 14, w, o, v, made, f); }
    }
    forall c: nat | c < copies ensures TableThere(v, chains, sparse, n, CopyAt(at, n, c)) {
      CopyThere(headers, v, home, tmpAt, copies, sparse, media, made, chains, n, list, c);
    }
    TableFirst(made, headers, v.blkSz);
    AllSound(files, onDisk, gap, media, home, tmpAt, copies, headers, tail, dirs, sparse, v, n, at, made);
  }

  /** The tables begin on the first cluster behind the headers. */
  lemma {:induction false} TableFirst(media: Media, headers: seq<Extent>, blkSz: nat)
    requires Positive(headers) && blkSz > 0
    ensures FirstFrom(TableAt(headers, blkSz), |Burnt(media, headers)|, blkSz)
  {
    LengthNat(headers);
    BurntLength(media, headers);
    RoundUpBounds(Length(headers), blkSz);
    RoundUpAligned(Length(headers), blkSz);
    hide Length, Burnt, RoundUp;
  }

  lemma {:induction false} CopyThere(headers: seq<Extent>, v: Outcome, home: nat, tmpAt: nat, copies: nat, sparse: bool, media: Media, made: Media,
                                     chains: seq<seq<FatTable.Run>>, n: nat, list: seq<Extent>, c: nat)
    requires v.Burned? && v.blkSz > 0 && n > FatTable.SEEDCLS && c < copies
    requires made == Overlay(media, home, tmpAt, TableBytes(sparse, n, FatTable.AllLinks(chains)))
    requires Positive(headers) && Head(headers, v.blkSz, Extent(tmpAt, 4 * n, Medium(home)), copies) <= list && v.image == Burnt(made, list)
    ensures TableThere(v, chains, sparse, n, CopyAt(TableAt(headers, v.blkSz), n, c))
  {
    hide Burnt, Head, TableAt, Positive, TableBytes, FatTable.AllLinks, Overlay, Content, Located;
    var fat := Extent(tmpAt, 4 * n, Medium(home));
    var head := Head(headers, v.blkSz, fat, copies);
    assert list == head + list[|head|..];
    OverlayHolds(media, home, tmpAt, TableBytes(sparse, n, FatTable.AllLinks(chains)));
    TableInImage(made, headers, v.blkSz, fat, copies, list[|head|..], c);
  }
}
