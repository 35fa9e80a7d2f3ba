/** From the translated extents of a volume to the cluster chains of its allocation table. */
module FatVolume {
  import opened Bytes
  import opened Blocks
  import opened Burner
  import opened Device
  import opened Translation
  import opened Folders
  import FatTable
  import FatChains

  /** The clusters of an extent at an address, with the file area starting at cluster 2. An empty one
      ends a cluster before it begins. */
  function RunAt(at: nat, length: nat, from: nat, blkSz: nat): FatTable.Run
    requires blkSz > 0 && from <= at
  {
    FatTable.Run(FirstBlk(at - from + FatTable.SEEDCLS * blkSz, blkSz),
                 LastBlk(at - from + FatTable.SEEDCLS * blkSz + length, blkSz))
  }

  /** A file area of that many clusters has its chains within the table. */
  lemma {:induction false} RunPlace(at: nat, length: nat, from: nat, to: nat, blkSz: nat, n: nat)
    requires blkSz > 0 && from <= at && at + length <= to
    requires (at - from) % blkSz == 0
    requires n >= FatTable.SEEDCLS && to - from <= (n - FatTable.SEEDCLS) * blkSz
    ensures var r := RunAt(at, length, from, blkSz);
            FatTable.SEEDCLS <= r.first <= r.last + 1 <= n && (length > 0 ==> r.first <= r.last)
  {
    var off := FatTable.SEEDCLS * blkSz;
    Quotient(FatTable.SEEDCLS, 0, blkSz);
    Multiple(at - from, off, blkSz);
    Split(n, FatTable.SEEDCLS, blkSz);
    Bounds(at - from + off, length, FatTable.SEEDCLS, n, blkSz);
  }

  lemma {:induction false} RunStarts(at: nat, length: nat, from: nat, blkSz: nat)
    requires blkSz > 0 && from <= at && (at - from) % blkSz == 0
    ensures var r := RunAt(at, length, from, blkSz);
            FatTable.SEEDCLS <= r.first <= r.last + 1 && (length > 0 ==> r.first <= r.last)
  {
    var n := at - from + length + FatTable.SEEDCLS;
    hide RunAt;
    Grows(n - FatTable.SEEDCLS, blkSz);
    RunPlace(at, length, from, at + length, blkSz, n);
  }

  lemma {:induction false} Grows(n: nat, d: nat)
    requires d > 0
    ensures n <= n * d
  {
  }

  lemma {:induction false} Bounds(start: nat, length: nat, lo: nat, hi: nat, blkSz: nat)
    requires blkSz > 0 && start % blkSz == 0 && lo > 0
    requires lo * blkSz <= start && start + length <= hi * blkSz
    ensures start > 0 && lo <= start / blkSz <= (start + length - 1) / blkSz + 1 <= hi
    ensures length > 0 ==> start / blkSz <= (start + length - 1) / blkSz
  {
    var k := start / blkSz;
    assert start == k * blkSz;
    FirstWithin(k, lo, hi, blkSz);
    if length > 0 {
      BlockBetween(start + length - 1, k, hi, blkSz);
    } else {
      Quotient(k - 1, blkSz - 1, blkSz);
      assert (k - 1) * blkSz + (blkSz - 1) == k * blkSz - 1;
    }
  }

  lemma {:induction false} FirstWithin(k: nat, lo: nat, hi: nat, blkSz: nat)
    requires blkSz > 0 && lo > 0 && lo * blkSz <= k * blkSz <= hi * blkSz
    ensures lo <= k <= hi && k * blkSz > 0
  {
    assert k < lo ==> (k + 1) * blkSz <= lo * blkSz;
    assert hi < k ==> (hi + 1) * blkSz <= k * blkSz;
  }

  lemma {:induction false} Split(n: nat, m: nat, d: nat)
    requires m <= n
    ensures n * d == (n - m) * d + m * d
  {}

  lemma {:induction false} RunsApart(at: nat, length: nat, bt: nat, other: nat, from: nat, blkSz: nat)
    requires blkSz > 0 && from <= at && at + length <= bt
    requires (bt - from) % blkSz == 0
    ensures RunAt(at, length, from, blkSz).last < RunAt(bt, other, from, blkSz).first
  {
    var off := FatTable.SEEDCLS * blkSz;
    Quotient(FatTable.SEEDCLS, 0, blkSz);
    Multiple(bt - from, off, blkSz);
    BlocksApart(at - from + off + length, bt - from + off, blkSz);
  }

  /** The chains are those of the translated extents. */
  predicate ChainsOf(chains: seq<seq<FatTable.Run>>, files: seq<seq<Piece>>, links: Links, from: nat, blkSz: nat) {
    && blkSz > 0 && |chains| == |files|
    && (forall f :: 0 <= f < |files| ==> |chains[f]| == |files[f]|)
    && (forall f, i :: 0 <= f < |files| && 0 <= i < |files[f]| ==> ChainAt(chains, files, links, from, blkSz, f, i))
  }

  predicate ChainAt(chains: seq<seq<FatTable.Run>>, files: seq<seq<Piece>>, links: Links, from: nat, blkSz: nat, f: nat, i: nat)
    requires blkSz > 0 && f < |files| && f < |chains| && i < |files[f]| == |chains[f]|
  {
    var x := files[f][i];
    var at := WithinDisk(links, x.id, x.offset);
    at.Some? && from <= at.value && chains[f][i] == RunAt(at.value, x.length, from, blkSz)
  }

  /** The chains of the files of a volume, when none ends past the table, are ranges of data clusters,
      any two the same or disjoint, and nonempty where the extent is: just what the table needs. */
  lemma {:induction false} ChainsLaid(media: Media, image: Bytes, files: seq<seq<Piece>>, onDisk: MedId -> bool, gap: nat, links: Links,
                                      from: nat, to: nat, outBlk: nat, blkSz: nat, chains: seq<seq<FatTable.Run>>, n: nat)
    requires Chartable(AllPieces(files))
    requires Laid(media, image, AllPieces(files), onDisk, gap, links, from, to, outBlk)
    requires blkSz > 0 && outBlk % blkSz == 0 && from % outBlk == 0
    requires forall k :: 0 <= k < |AllPieces(files)| ==> AllPieces(files)[k].offset % blkSz == 0
    requires ChainsOf(chains, files, links, from, blkSz)
    requires n > FatTable.SEEDCLS && forall f, i :: 0 <= f < |chains| && 0 <= i < |chains[f]| ==> chains[f][i].last < n
    ensures FatChains.Laid(chains, n)
    ensures forall f, i :: 0 <= f < |chains| && 0 <= i < |chains[f]| && files[f][i].length > 0 ==> chains[f][i].first <= chains[f][i].last
  {
    hide Laid, Chartable, RunAt;
    forall f, i | 0 <= f < |chains| && 0 <= i < |chains[f]|
      ensures FatTable.SEEDCLS <= chains[f][i].first <= chains[f][i].last + 1 <= n
      ensures files[f][i].length > 0 ==> chains[f][i].first <= chains[f][i].last
    {
      var k := PiecePlace(files, f, i);
      ContentPreserved(media, image, AllPieces(files), onDisk, gap, links, from, to, outBlk, k);
      TranslatedAligned(media, image, AllPieces(files), onDisk, gap, links, from, to, outBlk, k, blkSz);
      assert ChainAt(chains, files, links, from, blkSz, f, i);
      RunStarts(WithinDisk(links, files[f][i].id, files[f][i].offset).value, files[f][i].length, from, blkSz);
    }
    forall f, i, g, j | 0 <= f < |chains| && 0 <= i < |chains[f]| && 0 <= g < |chains| && 0 <= j < |chains[g]|
      ensures FatChains.SameOrApart(chains[f][i], chains[g][j])
    {
      ChainsApart(media, image, files, onDisk, gap, links, from, to, outBlk, blkSz, chains, f, i, g, j);
    }
  }

  lemma {:induction false} ChainsApart(media: Media, image: Bytes, files: seq<seq<Piece>>, onDisk: MedId -> bool, gap: nat, links: Links,
                                       from: nat, to: nat, outBlk: nat, blkSz: nat, chains: seq<seq<FatTable.Run>>, f: nat, i: nat, g: nat, j: nat)
    requires Chartable(AllPieces(files))
    requires Laid(media, image, AllPieces(files), onDisk, gap, links, from, to, outBlk)
    requires blkSz > 0 && outBlk % blkSz == 0 && from % outBlk == 0
    requires forall k :: 0 <= k < |AllPieces(files)| ==> AllPieces(files)[k].offset % blkSz == 0
    requires ChainsOf(chains, files, links, from, blkSz)
    requires f < |chains| && i < |chains[f]| && g < |chains| && j < |chains[g]|
    ensures FatChains.SameOrApart(chains[f][i], chains[g][j])
  {
    hide Laid, RunAt, WithinDisk;
    var list, x, y := AllPieces(files), files[f][i], files[g][j];
    var k := PiecePlace(files, f, i);
    var l := PiecePlace(files, g, j);
    assert ChainAt(chains, files, links, from, blkSz, f, i) && ChainAt(chains, files, links, from, blkSz, g, j);
    if x.id == y.id && x.offset == y.offset {
      assert Compatible(list[k], list[l]);
    } else {
      hide Chartable;
      TranslatedAligned(media, image, list, onDisk, gap, links, from, to, outBlk, k, blkSz);
      TranslatedAligned(media, image, list, onDisk, gap, links, from, to, outBlk, l, blkSz);
      PlacesApart(media, image, list, onDisk, gap, links, from, to, outBlk, k, l);
      var v, w := WithinDisk(links, x.id, x.offset).value, WithinDisk(links, y.id, y.offset).value;
      if v + x.length <= w {
        RunsApart(v, x.length, w, y.length, from, blkSz);
      } else {
        RunsApart(w, y.length, v, x.length, from, blkSz);
      }
    }
  }

  // ----- files and directories -----

  /** The clusters of an extent, by its translated address. */
  function RunFor(x: Piece, links: Links, from: nat, blkSz: nat): FatTable.Run
    requires blkSz > 0
  {
    var at := WithinDisk(links, x.id, x.offset);
    if at.Some? && from <= at.value then RunAt(at.value, x.length, from, blkSz) else FatTable.Run(0, 0)
  }

  function ChainFor(file: seq<Piece>, links: Links, from: nat, blkSz: nat): seq<FatTable.Run>
    requires blkSz > 0
  {
    seq(|file|, i requires 0 <= i < |file| => RunFor(file[i], links, from, blkSz))
  }

  function FileChains(files: seq<seq<Piece>>, links: Links, from: nat, blkSz: nat): (chains: seq<seq<FatTable.Run>>)
    requires blkSz > 0
    ensures |chains| == |files|
  {
    seq(|files|, f requires 0 <= f < |files| => ChainFor(files[f], links, from, blkSz))
  }

  /** They are the chains of the files of a volume that has been laid out. */
  lemma {:induction false} FileChainsAre(media: Media, image: Bytes, files: seq<seq<Piece>>, onDisk: MedId -> bool, gap: nat, links: Links,
                                         from: nat, to: nat, blkSz: nat)
    requires blkSz > 0 && Chartable(AllPieces(files)) && Laid(media, image, AllPieces(files), onDisk, gap, links, from, to, blkSz)
    ensures ChainsOf(FileChains(files, links, from, blkSz), files, links, from, blkSz)
  {
    hide Laid, Chartable, RunAt, WithinDisk;
    var chains := FileChains(files, links, from, blkSz);
    forall f, i | 0 <= f < |files| && 0 <= i < |files[f]| ensures ChainAt(chains, files, links, from, blkSz, f, i) {
      var k := PiecePlace(files, f, i);
      ContentPreserved(media, image, AllPieces(files), onDisk, gap, links, from, to, blkSz, k);
    }
  }

  /** A directory is one extent; the directories follow the files, the last one first. */
  function DirRun(size: seq<nat>, at: nat, from: nat, blkSz: nat, i: nat): FatTable.Run
    requires blkSz > 0 && from <= at && i < |size|
  {
    RunAt(PlaceOf(size, at, i).start, size[i], from, blkSz)
  }

  function DirChains(size: seq<nat>, at: nat, from: nat, blkSz: nat): (chains: seq<seq<FatTable.Run>>)
    requires blkSz > 0 && from <= at
    ensures |chains| == |size| && forall j :: 0 <= j < |size| ==> chains[j] == [DirRun(size, at, from, blkSz, |size| - 1 - j)]
  {
    seq(|size|, j requires 0 <= j < |size| => [DirRun(size, at, from, blkSz, |size| - 1 - j)])
  }

  predicate DirSizes(size: seq<nat>, blkSz: nat) {
    blkSz > 0 && forall i :: 0 <= i < |size| ==> size[i] > 0 && size[i] % blkSz == 0
  }

  lemma {:induction false} DirPlace(size: seq<nat>, at: nat, from: nat, blkSz: nat, i: nat)
    requires DirSizes(size, blkSz) && from <= at && (at - from) % blkSz == 0 && i < |size|
    ensures var p := PlaceOf(size, at, i).start; p >= at && (p - from) % blkSz == 0
    ensures var r := DirRun(size, at, from, blkSz, i); FatTable.SEEDCLS <= r.first <= r.last
  {
    TailAligned(size, i + 1, blkSz);
    Multiple(at - from, Tail(size, i + 1), blkSz);
    hide Tail, RunAt;
    RunStarts(at + Tail(size, i + 1), size[i], from, blkSz);
  }

  lemma {:induction false} DirsApart(size: seq<nat>, at: nat, from: nat, blkSz: nat, i: nat, j: nat)
    requires DirSizes(size, blkSz) && from <= at && (at - from) % blkSz == 0 && i < j < |size|
    ensures DirRun(size, at, from, blkSz, j).last < DirRun(size, at, from, blkSz, i).first
  {
    DirPlace(size, at, from, blkSz, i);
    DirPlace(size, at, from, blkSz, j);
    TailFalls(size, i + 1, j);
    hide RunAt;
    RunsApart(at + Tail(size, j + 1), size[j], at + Tail(size, i + 1), size[i], from, blkSz);
  }

  /** Whatever ends before the directories begin is apart from them. */
  predicate Before(runs: seq<seq<FatTable.Run>>, c: nat) {
    forall f, i :: 0 <= f < |runs| && 0 <= i < |runs[f]| ==> runs[f][i].last < c && runs[f][i].first <= c
  }

  /** The first cluster behind an area that ends on a block. */
  function ClusterAt(at: nat, from: nat, blkSz: nat): nat
    requires blkSz > 0 && from <= at
  {
    RunAt(at, 0, from, blkSz).first
  }

  lemma {:induction false} RunBefore(x: nat, length: nat, at: nat, from: nat, blkSz: nat)
    requires blkSz > 0 && from <= x && x + length <= at && (at - from) % blkSz == 0
    ensures var r := RunAt(x, length, from, blkSz); r.last < ClusterAt(at, from, blkSz) && r.first <= ClusterAt(at, from, blkSz)
  {
    RunsApart(x, length, at, 0, from, blkSz);
    FirstGrows(x - from + FatTable.SEEDCLS * blkSz, at - from + FatTable.SEEDCLS * blkSz, blkSz);
  }

  lemma {:induction false} FirstGrows(a: nat, b: nat, d: nat)
    requires d > 0 && a <= b
    ensures a / d <= b / d
  {
    var p, q := a / d, b / d;
    assert p * d <= a && b < q * d + d;
    assert q < p ==> (q + 1) * d <= p * d;
  }

  lemma {:induction false} DirsBehind(size: seq<nat>, at: nat, from: nat, blkSz: nat, i: nat)
    requires DirSizes(size, blkSz) && from <= at && (at - from) % blkSz == 0 && i < |size|
    ensures ClusterAt(at, from, blkSz) <= DirRun(size, at, from, blkSz, i).first
  {
    DirPlace(size, at, from, blkSz, i);
    FirstGrows(at - from + FatTable.SEEDCLS * blkSz, PlaceOf(size, at, i).start - from + FatTable.SEEDCLS * blkSz, blkSz);
    hide Tail;
  }

  lemma {:induction false} DirsLaid(size: seq<nat>, at: nat, from: nat, blkSz: nat, n: nat)
    requires DirSizes(size, blkSz) && from <= at && (at - from) % blkSz == 0
    requires forall i :: 0 <= i < |size| ==> DirRun(size, at, from, blkSz, i).last < n
    ensures FatChains.Laid(DirChains(size, at, from, blkSz), n)
  {
    var chains: seq<seq<FatTable.Run>> := DirChains(size, at, from, blkSz);
    hide DirRun;
    forall f, i | 0 <= f < |chains| && 0 <= i < |chains[f]|
      ensures FatTable.SEEDCLS <= chains[f][i].first <= chains[f][i].last + 1 <= n
    {
      DirPlace(size, at, from, blkSz, |size| - 1 - f);
    }
    forall f, i, g, j | 0 <= f < |chains| && 0 <= i < |chains[f]| && 0 <= g < |chains| && 0 <= j < |chains[g]|
      ensures FatChains.SameOrApart(chains[f][i], chains[g][j])
    {
      if f < g { DirsApart(size, at, from, blkSz, |size| - 1 - g, |size| - 1 - f); }
      if g < f { DirsApart(size, at, from, blkSz, |size| - 1 - f, |size| - 1 - g); }
    }
  }

  /** Files, and directories behind them. */
  lemma {:induction false} BothLaid(fc: seq<seq<FatTable.Run>>, size: seq<nat>, at: nat, from: nat, blkSz: nat, n: nat)
    requires DirSizes(size, blkSz) && from <= at && (at - from) % blkSz == 0
    requires forall i :: 0 <= i < |size| ==> DirRun(size, at, from, blkSz, i).last < n
    requires FatChains.Laid(fc, n) && Before(fc, ClusterAt(at, from, blkSz))
    ensures FatChains.Laid(fc + DirChains(size, at, from, blkSz), n)
  {
    DirsLaid(size, at, from, blkSz, n);
    var dc := DirChains(size, at, from, blkSz);
    var all: seq<seq<FatTable.Run>> := fc + dc;
    hide DirRun, ClusterAt;
    forall f, i, g, j | 0 <= f < |all| && 0 <= i < |all[f]| && 0 <= g < |all| && 0 <= j < |all[g]|
      ensures FatChains.SameOrApart(all[f][i], all[g][j])
    {
      if f < |fc| <= g { DirsBehind(size, at, from, blkSz, |size| - 1 - (g - |fc|)); }
      if g < |fc| <= f { DirsBehind(size, at, from, blkSz, |size| - 1 - (f - |fc|)); }
    }
  }

  /** A directory shares its last cluster with nothing, so its chain is kept. */
  lemma {:induction false} DirKept(fc: seq<seq<FatTable.Run>>, size: seq<nat>, at: nat, from: nat, blkSz: nat, d: nat)
    requires DirSizes(size, blkSz) && from <= at && (at - from) % blkSz == 0 && d < |size|
    requires Before(fc, ClusterAt(at, from, blkSz))
    ensures var all := fc + DirChains(size, at, from, blkSz);
            && |fc| + d < |all| && FatChains.KeptWhole(all, |fc| + d)
            && all[|fc| + d] == [DirRun(size, at, from, blkSz, |size| - 1 - d)] && FatChains.AllNonempty(all[|fc| + d])
  {
    var dc := DirChains(size, at, from, blkSz);
    var all: seq<seq<FatTable.Run>> := fc + dc;
    var h := |fc| + d;
    var i := |size| - 1 - d;
    DirPlace(size, at, from, blkSz, i);
    DirsBehind(size, at, from, blkSz, i);
    forall g, l | 0 <= g < |all| && 0 <= l < |all[g]| ensures FatChains.AgreeAt(all[g], l, all[h], 0) {
      if g >= |fc| {
        var e := |size| - 1 - (g - |fc|);
        DirPlace(size, at, from, blkSz, e);
        if e < i { DirsApart(size, at, from, blkSz, e, i); }
        if i < e { DirsApart(size, at, from, blkSz, i, e); }
      }
    }
    FatChains.AgreedIsKept(all, h);
  }

  /** Files whose extents agree keep their chains with the directories there as well. */
  lemma {:induction false} FileKept(fc: seq<seq<FatTable.Run>>, size: seq<nat>, at: nat, from: nat, blkSz: nat, f: nat)
    requires DirSizes(size, blkSz) && from <= at && (at - from) % blkSz == 0 && f < |fc|
    requires Before(fc, ClusterAt(at, from, blkSz)) && FatChains.Agreeing(fc)
    ensures FatChains.KeptWhole(fc + DirChains(size, at, from, blkSz), f)
  {
    var all: seq<seq<FatTable.Run>> := fc + DirChains(size, at, from, blkSz);
    hide DirRun, ClusterAt;
    forall i, g, j | 0 <= i < |all[f]| && 0 <= g < |all| && 0 <= j < |all[g]| ensures FatChains.AgreeAt(all[g], j, all[f], i) {
      if g < |fc| {
        assert FatChains.AgreeAt(fc[g], j, fc[f], i);
      } else {
        var e := |size| - 1 - (g - |fc|);
        DirPlace(size, at, from, blkSz, e);
        DirsBehind(size, at, from, blkSz, e);
      }
    }
    FatChains.AgreedIsKept(all, f);
  }
}
