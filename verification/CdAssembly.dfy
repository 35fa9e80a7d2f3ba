/** The loop that writes the directories of a CD, leaves first (`CD9660Out::plan`): listings with the
    places recorded so far, the own length stored afterwards, and the dot-dot record stored when the
    parent's place is known. */
module CdAssembly {
  import opened Bytes
  import opened Blocks
  import opened Burner
  import opened Folders
  import opened CdTree
  import opened CdDirectory

  // ----- the size of a directory -----

  /** The record sizes of what a folder lists. */
  function RecordSizes(xs: seq<Element>): seq<nat> {
    if xs == [] then [] else RecordSizes(xs[..|xs| - 1]) + ElementSizes(xs[|xs| - 1])
  }

  function ElementSizes(x: Element): seq<nat> {
    match x
    case Sub(_, name, _) => [RecordSize(|name|)]
    case Other(name, _, _, extents) => seq(|extents|, i => RecordSize(|name|))
  }

  /** What records of those sizes add to a directory of `n` bytes. */
  function AddedSize(n: nat, sizes: seq<nat>, blkSz: nat): nat
    requires blkSz > 0
    decreases |sizes|
  {
    if sizes == [] then 0 else
    var gap := Gap(n, sizes[0], blkSz);
    gap + sizes[0] + AddedSize(n + gap + sizes[0], sizes[1..], blkSz)
  }

  /** The size of a directory depends on the names listed, not on any place. */
  function DirSize(xs: seq<Element>, blkSz: nat): nat
    requires blkSz > 0
  {
    RoundUp(68 + AddedSize(68, RecordSizes(xs), blkSz), blkSz)
  }

  function Sizes(t: Tree, blkSz: nat): (size: seq<nat>)
    requires blkSz > 0
    ensures |size| == |t.lists| && forall k :: 0 <= k < |size| ==> size[k] == DirSize(t.lists[k], blkSz)
  {
    seq(|t.lists|, k requires 0 <= k < |t.lists| => DirSize(t.lists[k], blkSz))
  }

  function LengthsOf(rs: seq<Bytes>): (s: seq<nat>)
    ensures |s| == |rs| && forall i :: 0 <= i < |rs| ==> s[i] == |rs[i]|
  {
    seq(|rs|, i requires 0 <= i < |rs| => |rs[i]|)
  }

  lemma {:induction false} AddedLength(n: nat, rs: seq<Bytes>, blkSz: nat)
    requires blkSz > 0
    ensures |Added(n, rs, blkSz)| == AddedSize(n, LengthsOf(rs), blkSz)
    decreases |rs|
  {
    if rs != [] {
      var gap := Gap(n, |rs[0]|, blkSz);
      AddedLength(n + gap + |rs[0]|, rs[1..], blkSz);
      assert LengthsOf(rs)[1..] == LengthsOf(rs[1..]);
      hide Gap;
    }
  }

  /** The sizes of the records of a list of entries. */
  function EntrySizes(es: seq<Entry>): seq<nat> {
    seq(|es|, i requires 0 <= i < |es| => RecordSize(|es[i].name|))
  }

  lemma {:induction false} EncodedSizes(es: seq<Entry>)
    requires AllFit(es)
    ensures LengthsOf(Encoded(es)) == EntrySizes(es)
  {
    if es != [] {
      var init, e := es[..|es| - 1], es[|es| - 1];
      EncodedLast(es);
      hide AllFit, Encoded, Encode, RecordSize, Fits;
      EncodedSizes(init);
      EncodeSize(e);
      assert LengthsOf(Encoded(es)) == LengthsOf(Encoded(init)) + [|Encode(e)|];
      assert EntrySizes(es) == EntrySizes(init) + [RecordSize(|e.name|)];
    }
  }

  lemma {:induction false} EncodeSize(e: Entry)
    requires Fits(e)
    ensures |Encode(e)| == RecordSize(|e.name|)
  {
  }

  lemma {:induction false} FileSizes(name: Bytes, date: Bytes, size: int, extents: seq<(nat, nat)>)
    ensures EntrySizes(FileEntries(name, date, size, extents)) == seq(|extents|, i => RecordSize(|name|))
    decreases extents
  {
    if extents != [] {
      var rest := FileEntries(name, date, size - extents[0].1, extents[1..]);
      FileSizes(name, date, size - extents[0].1, extents[1..]);
      var es := FileEntries(name, date, size, extents);
      assert es[1..] == rest && es[0].name == name;
      hide FileEntries, RecordSize;
      assert EntrySizes(es) == [RecordSize(|name|)] + EntrySizes(rest);
    }
  }

  lemma {:induction false} ItemSizes(x: Element, size: seq<nat>, base: nat, blkSz: nat)
    requires blkSz > 0 && (x.Sub? ==> x.folder < |size|)
    ensures EntrySizes(Entries(ItemOf(x, size, base, blkSz))) == ElementSizes(x)
  {
    match x
    case Sub(c, name, date) =>
    case Other(name, date, n, extents) => FileSizes(name, date, n, extents);
  }

  lemma {:induction false} SizesConcat(a: seq<Entry>, b: seq<Entry>)
    ensures EntrySizes(a + b) == EntrySizes(a) + EntrySizes(b)
  {
    hide RecordSize;
  }

  lemma {:induction false} ListingSizes(xs: seq<Element>, size: seq<nat>, base: nat, blkSz: nat)
    requires blkSz > 0 && forall e :: 0 <= e < |xs| ==> xs[e].Sub? ==> xs[e].folder < |size|
    ensures EntrySizes(Listing(ItemsOf(xs, size, base, blkSz))) == RecordSizes(xs)
  {
    hide ItemOf, ItemsOf, Entries, ElementSizes, EntrySizes, Listing;
    if xs != [] {
      var init, x := xs[..|xs| - 1], xs[|xs| - 1];
      ListingSizes(init, size, base, blkSz);
      ItemSizes(x, size, base, blkSz);
      LastItem(xs, size, base, blkSz);
      SizesConcat(Listing(ItemsOf(init, size, base, blkSz)), Entries(ItemOf(x, size, base, blkSz)));
    } else {
      NothingListed(size, base, blkSz);
    }
  }

  lemma {:induction false} NothingListed(size: seq<nat>, base: nat, blkSz: nat)
    requires blkSz > 0
    ensures EntrySizes(Listing(ItemsOf([], size, base, blkSz))) == []
  {
  }

  lemma {:induction false} RestSize(items: seq<Item>, blkSz: nat)
    requires blkSz > 0 && AllFit(Listing(items))
    ensures 68 + |Rest(items, blkSz)| == RoundUp(68 + AddedSize(68, EntrySizes(Listing(items)), blkSz), blkSz)
  {
    hide Added, AddedSize, RoundUp, Listing, AllFit, Encoded, EntrySizes;
    EncodedSizes(Listing(items));
    AddedLength(68, Encoded(Listing(items)), blkSz);
  }

  /** A directory has its size, whatever the places in it. */
  lemma {:induction false} DirectorySize(dot: Entry, dotdot: Entry, xs: seq<Element>, size: seq<nat>, base: nat, blkSz: nat)
    requires blkSz >= 256 && forall e :: 0 <= e < |xs| ==> xs[e].Sub? ==> xs[e].folder < |size|
    requires Fits(dot) && Fits(dotdot) && |dot.name| == |dotdot.name| == 1 && AllFit(Listing(ItemsOf(xs, size, base, blkSz)))
    ensures |Directory(dot, dotdot, ItemsOf(xs, size, base, blkSz), blkSz)| == DirSize(xs, blkSz)
    ensures Divides(blkSz, DirSize(xs, blkSz)) && DirSize(xs, blkSz) > 0
  {
    hide Directory, Encode, Fits, AllFit, AddedSize, RoundUp, Listing, ItemsOf, RecordSizes, EntrySizes, Rest;
    var items := ItemsOf(xs, size, base, blkSz);
    var n := 68 + AddedSize(68, RecordSizes(xs), blkSz);
    RoundUpAligned(n, blkSz);
    RoundUpBounds(n, blkSz);
    DirectoryIs(dot, dotdot, items, blkSz);
    ListingSizes(xs, size, base, blkSz);
    RestSize(items, blkSz);
  }

  // ----- the loop -----

  /** The widths of all fields suffice. */
  ghost predicate Wide(t: Tree, size: seq<nat>, base: nat, blkSz: nat) {
    SubsWithin(t, size) && blkSz >= 256 && forall k :: 0 <= k < |t.rows| ==> WideAt(t, size, base, blkSz, k)
  }

  /** The two leading records as they are written first: without a length, both with the own place. */
  function DotFirst(t: Tree, start: nat, blkSz: nat, k: nat, name: Bytes): Entry
    requires blkSz > 0 && k < |t.dates|
  {
    Entry(start / blkSz, 0, t.dates[k], FOLDER, name)
  }

  /** A directory with its own length stored, and its dot-dot record if the parent's place is known. */
  function Stage(t: Tree, size: seq<nat>, base: nat, blkSz: nat, k: nat, known: bool): Bytes
    requires Wide(t, size, base, blkSz) && k < |t.rows|
  {
    var start := PlaceOf(size, base, k).start;
    DotFirstFits(t, size, base, blkSz, k);
    Directory(DotAt(t, size, base, blkSz, k), if known then DotDotAt(t, size, base, blkSz, k) else DotFirst(t, start, blkSz, k, [1]),
              ItemsAt(t, size, base, blkSz, k), blkSz)
  }

  lemma {:induction false} DotFirstFits(t: Tree, size: seq<nat>, base: nat, blkSz: nat, k: nat)
    requires Wide(t, size, base, blkSz) && k < |t.rows|
    ensures WideAt(t, size, base, blkSz, k) && Fits(DotAt(t, size, base, blkSz, k)) && Fits(DotDotAt(t, size, base, blkSz, k))
    ensures AllFit(Listing(ItemsAt(t, size, base, blkSz, k)))
    ensures var start := PlaceOf(size, base, k).start;
            start >= 0 && Fits(DotFirst(t, start, blkSz, k, [0])) && Fits(DotFirst(t, start, blkSz, k, [1]))
  {
    assert WideAt(t, size, base, blkSz, k);
    hide Wide, Tree.Valid, Listing, Tail, ItemsAt;
  }

  /** What the loop has made of the folders from `i` on. */
  ghost predicate Staged(t: Tree, size: seq<nat>, base: nat, blkSz: nat, i: nat, data: seq<Bytes>)
    requires Wide(t, size, base, blkSz)
  {
    |data| == |t.rows| && forall k :: i <= k < |t.rows| ==> StagedAt(t, size, base, blkSz, i, data, k)
  }

  ghost predicate StagedAt(t: Tree, size: seq<nat>, base: nat, blkSz: nat, i: nat, data: seq<Bytes>, k: nat)
    requires Wide(t, size, base, blkSz) && k < |t.rows| == |data|
  {
    data[k] == Stage(t, size, base, blkSz, k, Own(t.rows, k) >= i)
  }

  /** The items of a folder, with the places recorded for its subfolders. */
  method ListItems(xs: seq<Element>, fsFolders: map<nat, Span>, blkSz: nat, ghost size: seq<nat>, ghost base: nat, ghost i: nat)
    returns (items: seq<Item>)
    requires blkSz > 0 && PlacesDone(size, base, i, fsFolders)
    requires forall e :: 0 <= e < |xs| ==> xs[e].Sub? ==> i <= xs[e].folder < |size|
    ensures items == ItemsOf(xs, size, base, blkSz)
  {
    hide ItemsOf;
    items := [];
    NoItems(size, base, blkSz);
    for e := 0 to |xs|
      invariant items == ItemsOf(xs[..e], size, base, blkSz)
    {
      ItemsNext(xs, e, size, base, blkSz);
      match xs[e]
      case Sub(c, name, date) =>
        items := items + [Folder(name, date, fsFolders[c].start / blkSz, fsFolders[c].length)];
      case Other(name, date, n, extents) =>
        items := items + [File(name, date, n, extents)];
    }
    assert xs[..|xs|] == xs;
  }

  lemma {:induction false} NoItems(size: seq<nat>, base: nat, blkSz: nat)
    requires blkSz > 0
    ensures ItemsOf([], size, base, blkSz) == []
  {
  }

  lemma {:induction false} ItemsNext(xs: seq<Element>, e: nat, size: seq<nat>, base: nat, blkSz: nat)
    requires blkSz > 0 && e < |xs| && forall j :: 0 <= j < |xs| ==> xs[j].Sub? ==> xs[j].folder < |size|
    ensures ItemsOf(xs[..e + 1], size, base, blkSz) == ItemsOf(xs[..e], size, base, blkSz) + [ItemOf(xs[e], size, base, blkSz)]
  {
    assert xs[..e + 1][..e] == xs[..e];
    hide ItemOf;
  }

  /** Writes one directory, and stores its own length. */
  method WriteFolder(t: Tree, i: nat, start: nat, fsFolders: map<nat, Span>, blkSz: nat, ghost base: nat) returns (bytes: Bytes)
    requires blkSz >= 256 && t.Valid() && Wide(t, Sizes(t, blkSz), base, blkSz)
    requires i < |t.rows| && start == PlaceOf(Sizes(t, blkSz), base, i).start
    requires PlacesDone(Sizes(t, blkSz), base, i + 1, fsFolders)
    ensures bytes == Stage(t, Sizes(t, blkSz), base, blkSz, i, false) && |bytes| == Sizes(t, blkSz)[i]
  {
    ghost var size := Sizes(t, blkSz);
    DotFirstFits(t, size, base, blkSz, i);
    FoldersBelow(t, i);
    hide Wide, Tree.Valid, Sizes, PlacesDone, Listing, Fits, AllFit, Directory, ItemsOf, Encode, Both32, Tail;
    var items := ListItems(t.lists[i], fsFolders, blkSz, size, base, i + 1);
    var dir := new DirBurner(blkSz);
    var dot, dotdot := DotFirst(t, start, blkSz, i, [0]), DotFirst(t, start, blkSz, i, [1]);
    dir.WriteDirectory(dot, dotdot, items);
    DirectorySize(dot, dotdot, t.lists[i], size, base, blkSz);
    StageWritten(t, size, base, blkSz, i, start);
    bytes := Stored(dir.data, 10, Both32(|dir.data|));
  }

  lemma {:induction false} FoldersBelow(t: Tree, i: nat)
    requires t.Valid() && i < |t.rows|
    ensures |t.lists| == |t.dates| == |t.rows|
    ensures forall e :: 0 <= e < |t.lists[i]| ==> t.lists[i][e].Sub? ==> i + 1 <= t.lists[i][e].folder < |t.rows|
  {
    forall e | 0 <= e < |t.lists[i]| ensures t.lists[i][e].Sub? ==> i + 1 <= t.lists[i][e].folder < |t.rows| {
      assert t.SubValid(i, t.lists[i][e]);
    }
  }

  lemma {:induction false} StageWritten(t: Tree, size: seq<nat>, base: nat, blkSz: nat, i: nat, start: nat)
    requires t.Valid() && Wide(t, size, base, blkSz) && size == Sizes(t, blkSz) && i < |t.rows| && start == PlaceOf(size, base, i).start
    ensures var dot, dotdot := DotFirst(t, start, blkSz, i, [0]), DotFirst(t, start, blkSz, i, [1]);
            && Fits(dot) && Fits(dotdot) && AllFit(Listing(ItemsAt(t, size, base, blkSz, i)))
            && var d := Directory(dot, dotdot, ItemsAt(t, size, base, blkSz, i), blkSz);
            && |d| == size[i] && |d| < U32 && 18 <= |d|
            && Stored(d, 10, Both32(|d|)) == Stage(t, size, base, blkSz, i, false)
            && |Stored(d, 10, Both32(|d|))| == |d|
  {
    DotFirstFits(t, size, base, blkSz, i);
    FoldersBelow(t, i);
    var items := ItemsAt(t, size, base, blkSz, i);
    var dot, dotdot := DotFirst(t, start, blkSz, i, [0]), DotFirst(t, start, blkSz, i, [1]);
    assert items == ItemsOf(t.lists[i], size, base, blkSz);
    assert size[i] < U32 && DotAt(t, size, base, blkSz, i) == dot.(length := size[i]);
    hide Wide, Tree.Valid, Sizes, Listing, Fits, AllFit, Directory, ItemsOf, Both32, Tail, ItemsAt;
    DirectorySize(dot, dotdot, t.lists[i], size, base, blkSz);
    LengthStored(dot, dotdot, size[i], items, blkSz);
  }

  /** Stores the place of folder `i` in the dot-dot records that wait for it. */
  method StoreParents(t: Tree, waiting: seq<nat>, i: nat, own: Span, blkSz: nat, data: seq<Bytes>, ghost size: seq<nat>, ghost base: nat)
    returns (stored: seq<Bytes>)
    requires Wide(t, size, base, blkSz) && i < |t.rows| && own == PlaceOf(size, base, i) && |data| == |t.rows|
    requires waiting == Waiting(t.rows, true, i, i)
    requires forall k :: i <= k < |t.rows| ==> data[k] == Stage(t, size, base, blkSz, k, Own(t.rows, k) > i)
    ensures Staged(t, size, base, blkSz, i, stored)
  {
    hide Wide, Stage, Waiting, PlaceOf, Encode, Fits, Own;
    WideMeans(t, size, base, blkSz);
    WaitingMeans(t.rows, i);
    stored := data;
    ghost var done: set<nat> := {};
    for j := 0 to |waiting|
      invariant |stored| == |t.rows| && (forall k :: k in done <==> k in waiting[..j])
      invariant forall k :: i <= k < |t.rows| ==> stored[k] == Stage(t, size, base, blkSz, k, Own(t.rows, k) > i || k in done)
    {
      var c := waiting[j];
      assert c in waiting;
      UpFits(t, size, base, blkSz, i, c);
      DotDotKnown(t, size, base, blkSz, c, Own(t.rows, c) > i || c in done);
      stored := stored[c := Stored(stored[c], 34, Encode(Naming(own, [1], t.dates[i], blkSz)))];
      done := done + {c};
    }
    assert waiting[..|waiting|] == waiting;
    forall k | i <= k < |t.rows| ensures StagedAt(t, size, base, blkSz, i, stored, k) { }
  }

  lemma {:induction false} WideMeans(t: Tree, size: seq<nat>, base: nat, blkSz: nat)
    requires Wide(t, size, base, blkSz)
    ensures SubsWithin(t, size) && t.Valid() && blkSz >= 256 && |t.dates| == |t.rows| == |size|
  {
  }

  lemma {:induction false} WaitingMeans(rows: seq<Row>, i: nat)
    requires i <= |rows|
    ensures forall k :: k in Waiting(rows, true, i, i) <==> i <= k < |rows| && Own(rows, k) == i
  {
    WaitingIs(rows, true, i, i);
    forall k: nat ensures k in Waiting(rows, true, i, i) <==> i <= k < |rows| && Own(rows, k) == i {
      assert k in Waiting(rows, true, i, i) <==> multiset(Waiting(rows, true, i, i))[k] > 0;
      assert HasUp(k, true);
    }
    hide Waiting;
  }

  lemma {:induction false} UpFits(t: Tree, size: seq<nat>, base: nat, blkSz: nat, i: nat, c: nat)
    requires Wide(t, size, base, blkSz) && c < |t.rows| && Own(t.rows, c) == i < |t.rows|
    ensures SubsWithin(t, size) && |t.dates| == |t.rows| && PlaceOf(size, base, i).start >= 0
    ensures Naming(PlaceOf(size, base, i), [1], t.dates[i], blkSz) == DotDotAt(t, size, base, blkSz, c)
    ensures Fits(DotDotAt(t, size, base, blkSz, c))
  {
    DotFirstFits(t, size, base, blkSz, c);
    hide Fits, Tail;
  }

  lemma {:induction false} DotDotKnown(t: Tree, size: seq<nat>, base: nat, blkSz: nat, c: nat, known: bool)
    requires Wide(t, size, base, blkSz) && c < |t.rows|
    ensures SubsWithin(t, size) && Fits(DotDotAt(t, size, base, blkSz, c))
    ensures var r := Encode(DotDotAt(t, size, base, blkSz, c));
            && 34 + |r| <= |Stage(t, size, base, blkSz, c, known)|
            && Stored(Stage(t, size, base, blkSz, c, known), 34, r) == Stage(t, size, base, blkSz, c, true)
  {
    DotFirstFits(t, size, base, blkSz, c);
    var start := PlaceOf(size, base, c).start;
    var dotdot := if known then DotDotAt(t, size, base, blkSz, c) else DotFirst(t, start, blkSz, c, [1]);
    hide Wide, Tree.Valid, Directory, Encode, Fits, AllFit, Listing, ItemsAt, Tail;
    DotDotStored(DotAt(t, size, base, blkSz, c), dotdot, DotDotAt(t, size, base, blkSz, c), ItemsAt(t, size, base, blkSz, c), blkSz);
  }

  /** Media that hold the directories. */
  function Holding(media: Media, first: nat, data: seq<Bytes>): Media {
    (id: nat, k: nat) => if first <= id < first + |data| && k < |data[id - first]| then data[id - first][k] else media(id, k)
  }

  lemma {:induction false} HoldingIs(media: Media, first: nat, data: seq<Bytes>, i: nat)
    requires i < |data|
    ensures Content(Holding(media, first, data), Extent(0, |data[i]|, Medium(first + i))) == data[i]
  {
  }

  /** When all folders are done, every directory is as it has to be. */
  lemma {:induction false} AllAssembled(t: Tree, size: seq<nat>, base: nat, blkSz: nat, media: Media, first: nat, data: seq<Bytes>)
    requires Wide(t, size, base, blkSz) && size == Sizes(t, blkSz) && Staged(t, size, base, blkSz, 0, data)
    ensures SubsWithin(t, size) && blkSz >= 256 && Assembled(t, size, base, blkSz, Holding(media, first, data), first)
    ensures forall k :: 0 <= k < |size| ==> size[k] > 0
  {
    WideMeans(t, size, base, blkSz);
    forall k | 0 <= k < |t.rows| ensures size[k] > 0 && AssembledAt(t, size, base, blkSz, Holding(media, first, data), first, k) {
      assert StagedAt(t, size, base, blkSz, 0, data, k);
      DotFirstFits(t, size, base, blkSz, k);
      FoldersBelow(t, k);
      HoldingIs(media, first, data, k);
      hide Wide, Tree.Valid, Directory, Encode, Fits, AllFit, Listing, ItemsOf, PlaceOf, Holding, Content, Sizes, DirSize;
      DirectorySize(DotAt(t, size, base, blkSz, k), DotDotAt(t, size, base, blkSz, k), t.lists[k], size, base, blkSz);
    }
  }

  /** What the loop holds before folder `i - 1`: the places and fixups recorded, and the directories so far. */
  ghost predicate Going(t: Tree, size: seq<nat>, base: nat, blkSz: nat, i: nat, fsFolders: map<nat, Span>, parents: map<nat, seq<nat>>, data: seq<Bytes>)
  {
    && Wide(t, size, base, blkSz) && i <= |t.rows| && PlacesDone(size, base, i, fsFolders) && Pending(t.rows, true, i, parents)
    && Staged(t, size, base, blkSz, i, data)
  }

  /** One folder. */
  method AssembleFolder(t: Tree, i: nat, start: nat, fsFolders: map<nat, Span>, parents: map<nat, seq<nat>>, data: seq<Bytes>, blkSz: nat, ghost base: nat)
    returns (own: Span, places: map<nat, Span>, fixups: map<nat, seq<nat>>, stored: seq<Bytes>)
    requires blkSz >= 256 && t.Valid() && i < |t.rows| && Going(t, Sizes(t, blkSz), base, blkSz, i + 1, fsFolders, parents, data)
    requires start == PlaceOf(Sizes(t, blkSz), base, i).start
    ensures own == PlaceOf(Sizes(t, blkSz), base, i) && own.length > 0
    ensures Going(t, Sizes(t, blkSz), base, blkSz, i, places, fixups, stored)
  {
    ghost var size := Sizes(t, blkSz);
    FoldersBelow(t, i);
    OwnBelow(t, i);
    SizePositive(t, size, base, blkSz, i);
    hide Tree.Valid, Sizes, PlacesDone, Pending, Queued, Waiting, Stage, Wide;
    var bytes := WriteFolder(t, i, start, fsFolders, blkSz, base);
    own := Span(start, |bytes|);
    PlacesStep(size, base, i, fsFolders, own);
    places := fsFolders[i := own];
    PendingStep(t.rows, true, i, parents);
    fixups := Queued(t.rows, true, i, parents);
    PendingAt(t.rows, true, i, fixups);
    stored := data[i := bytes];
    forall k | i <= k < |t.rows| ensures stored[k] == Stage(t, size, base, blkSz, k, Own(t.rows, k) > i) {
      if k > i { assert StagedAt(t, size, base, blkSz, i + 1, data, k); }
    }
    stored := StoreParents(t, At(fixups, i), i, own, blkSz, stored, size, base);
  }

  lemma {:induction false} OwnBelow(t: Tree, i: nat)
    requires t.Valid() && i < |t.rows|
    ensures Own(t.rows, i) <= i
  {
  }

  lemma {:induction false} SizePositive(t: Tree, size: seq<nat>, base: nat, blkSz: nat, i: nat)
    requires blkSz >= 256 && t.Valid() && Wide(t, size, base, blkSz) && size == Sizes(t, blkSz) && i < |t.rows|
    ensures PlaceOf(size, base, i).length > 0
  {
    hide AddedSize, RecordSizes, Tree.Valid, Wide, Tail;
    FoldersBelow(t, i);
    RoundUpBounds(68 + AddedSize(68, RecordSizes(t.lists[i]), blkSz), blkSz);
    hide RoundUp;
  }

  /** Writes the directories of a CD, the last folder first, each on a medium of its own. All fixups are
      made by the time the planner is committed. */
  method WriteTree(t: Tree, first: nat, tmp: Planner, shift: int, blkSz: nat, media: Media) returns (made: Media)
    requires t.Valid() && tmp.Valid() && blkSz >= 256 && tmp.offset + shift >= 0
    requires Wide(t, Sizes(t, blkSz), tmp.offset + shift, blkSz)
    modifies tmp`extlist, tmp`offset
    ensures SubsWithin(t, Sizes(t, blkSz))
    ensures tmp.Valid() && tmp.extlist == old(tmp.extlist) + Extents(Sizes(t, blkSz), first, 0)
    ensures tmp.offset == old(tmp.offset) + Tail(Sizes(t, blkSz), 0)
    ensures Assembled(t, Sizes(t, blkSz), old(tmp.offset) + shift, blkSz, made, first)
    ensures forall id: nat, k: nat :: id < first ==> made(id, k) == media(id, k)
  {
    ghost var size, was, from := Sizes(t, blkSz), tmp.extlist, tmp.offset;
    ghost var base: nat := from + shift;
    var data := seq(|t.rows|, _ => []);
    var fsFolders, parents := map[], map[];
    WideMeans(t, size, base, blkSz);
    NothingYet(t, size, first, base, blkSz, data);
    hide *;
    for i := |t.rows| downto 0
      invariant tmp.Valid() && tmp.extlist == was + Extents(size, first, i) && tmp.offset == from + Tail(size, i)
      invariant Going(t, size, base, blkSz, i, fsFolders, parents, data)
    {
      NextDown(size, first, i, was);
      var start: nat := tmp.offset + shift;
      var own;
      own, fsFolders, parents, data := AssembleFolder(t, i, start, fsFolders, parents, data, blkSz, base);
      var _, _ := tmp.Append(Extent(0, own.length, Medium(first + i)));
    }
    GoingEnds(t, size, base, blkSz, fsFolders, parents, data);
    AllAssembled(t, size, base, blkSz, media, first, data);
    made := Holding(media, first, data);
    OthersKept(media, first, data);
  }

  lemma {:induction false} NothingYet(t: Tree, size: seq<nat>, first: nat, base: nat, blkSz: nat, data: seq<Bytes>)
    requires Wide(t, size, base, blkSz) && |data| == |t.rows| == |size|
    ensures Extents(size, first, |size|) == [] && Tail(size, |size|) == 0
    ensures Going(t, size, base, blkSz, |t.rows|, map[], map[], data)
  {
    hide Wide, Tree.Valid;
  }

  lemma {:induction false} GoingEnds(t: Tree, size: seq<nat>, base: nat, blkSz: nat, fsFolders: map<nat, Span>, parents: map<nat, seq<nat>>, data: seq<Bytes>)
    requires Going(t, size, base, blkSz, 0, fsFolders, parents, data)
    ensures Wide(t, size, base, blkSz) && Staged(t, size, base, blkSz, 0, data)
  {
  }

  lemma {:induction false} OthersKept(media: Media, first: nat, data: seq<Bytes>)
    ensures forall id: nat, k: nat :: id < first ==> Holding(media, first, data)(id, k) == media(id, k)
  {
  }
}
