/** The folder tree of an ISO 9660 volume as a host walks it: every directory, at the place it was given,
    reads back as its own entry, its parent's, and its listing. */
module CdTree {
  import opened Bytes
  import opened Blocks
  import opened Burner
  import opened Folders
  import opened Reading
  import CdDirectory

  /** What a folder lists: a folder of the path list, or a file. */
  datatype Element =
    | Sub(folder: nat, name: Bytes, date: Bytes)
    | Other(name: Bytes, date: Bytes, size: nat, extents: seq<(nat, nat)>)

  /** A volume of folders: the path list, what each folder lists, and the dates of the two leading
      records of each. */
  datatype Tree = Tree(rows: seq<Row>, lists: seq<seq<Element>>, dates: seq<Bytes>)
  {
    ghost predicate Valid() {
      && Folders.Valid(rows) && |lists| == |dates| == |rows|
      && (forall k, e :: 0 <= k < |rows| && 0 <= e < |lists[k]| ==> SubValid(k, lists[k][e]))
      && (forall c :: 0 < c < |rows| ==> ListedBy(c))
    }

    predicate SubValid(k: nat, x: Element) {
      x.Sub? ==> k < x.folder < |rows| && rows[x.folder].parent == k
    }

    /** A folder is listed by its parent. */
    ghost predicate ListedBy(c: nat)
      requires |lists| == |rows| && c < |rows|
    {
      var p := rows[c].parent;
      p < |lists| && exists e :: 0 <= e < |lists[p]| && lists[p][e].Sub? && lists[p][e].folder == c
    }
  }

  /** The entry that names a directory. */
  function Naming(p: Span, name: Bytes, date: Bytes, blkSz: nat): CdDirectory.Entry
    requires blkSz > 0 && p.start >= 0
  {
    CdDirectory.Entry(p.start / blkSz, p.length, date, CdDirectory.FOLDER, name)
  }

  function ItemOf(x: Element, size: seq<nat>, base: nat, blkSz: nat): CdDirectory.Item
    requires blkSz > 0 && (x.Sub? ==> x.folder < |size|)
  {
    match x
    case Sub(c, name, date) => var p := PlaceOf(size, base, c); CdDirectory.Folder(name, date, p.start / blkSz, p.length)
    case Other(name, date, n, extents) => CdDirectory.File(name, date, n, extents)
  }

  function ItemsOf(xs: seq<Element>, size: seq<nat>, base: nat, blkSz: nat): (items: seq<CdDirectory.Item>)
    requires blkSz > 0 && forall e :: 0 <= e < |xs| ==> xs[e].Sub? ==> xs[e].folder < |size|
    ensures |items| == |xs| && forall e :: 0 <= e < |xs| ==> items[e] == ItemOf(xs[e], size, base, blkSz)
  {
    if xs == [] then [] else ItemsOf(xs[..|xs| - 1], size, base, blkSz) + [ItemOf(xs[|xs| - 1], size, base, blkSz)]
  }

  ghost predicate SubsWithin(t: Tree, size: seq<nat>) {
    t.Valid() && |size| == |t.rows|
  }

  /** The directory of folder `k`, all fixups made: its listing gives the places of its folders, the two
      leading records its own place and its parent's. */
  function ItemsAt(t: Tree, size: seq<nat>, base: nat, blkSz: nat, k: nat): seq<CdDirectory.Item>
    requires SubsWithin(t, size) && k < |t.rows| && blkSz > 0
  {
    assert forall e :: 0 <= e < |t.lists[k]| ==> t.SubValid(k, t.lists[k][e]);
    ItemsOf(t.lists[k], size, base, blkSz)
  }

  function DotAt(t: Tree, size: seq<nat>, base: nat, blkSz: nat, k: nat): CdDirectory.Entry
    requires SubsWithin(t, size) && k < |t.rows| && blkSz > 0
  {
    Naming(PlaceOf(size, base, k), [0], t.dates[k], blkSz)
  }

  function DotDotAt(t: Tree, size: seq<nat>, base: nat, blkSz: nat, k: nat): CdDirectory.Entry
    requires SubsWithin(t, size) && k < |t.rows| && blkSz > 0
  {
    assert Own(t.rows, k) < |t.rows|;
    Naming(PlaceOf(size, base, Own(t.rows, k)), [1], t.dates[Own(t.rows, k)], blkSz)
  }

  /** The fields of all records of a directory are wide enough. */
  predicate WideAt(t: Tree, size: seq<nat>, base: nat, blkSz: nat, k: nat)
    requires SubsWithin(t, size) && k < |t.rows| && blkSz > 0
  {
    && CdDirectory.Fits(DotAt(t, size, base, blkSz, k)) && CdDirectory.Fits(DotDotAt(t, size, base, blkSz, k))
    && CdDirectory.AllFit(CdDirectory.Listing(ItemsAt(t, size, base, blkSz, k)))
  }

  function DirectoryAt(t: Tree, size: seq<nat>, base: nat, blkSz: nat, k: nat): Bytes
    requires SubsWithin(t, size) && k < |t.rows| && blkSz > 0 && WideAt(t, size, base, blkSz, k)
  {
    CdDirectory.Directory(DotAt(t, size, base, blkSz, k), DotDotAt(t, size, base, blkSz, k), ItemsAt(t, size, base, blkSz, k), blkSz)
  }

  /** The volume as it is in the end: every directory at its place in the image, and of the length
      planned for. */
  ghost predicate Written(t: Tree, size: seq<nat>, base: nat, blkSz: nat, image: Bytes) {
    && SubsWithin(t, size) && blkSz >= 256
    && forall k :: 0 <= k < |t.rows| ==> WrittenAt(t, size, base, blkSz, image, k)
  }

  ghost predicate WrittenAt(t: Tree, size: seq<nat>, base: nat, blkSz: nat, image: Bytes, k: nat)
    requires SubsWithin(t, size) && k < |t.rows| && blkSz >= 256
  {
    && WideAt(t, size, base, blkSz, k)
    && size[k] == |DirectoryAt(t, size, base, blkSz, k)|
    && Divides(blkSz, PlaceOf(size, base, k).start)
    && Located(image, PlaceOf(size, base, k).start, DirectoryAt(t, size, base, blkSz, k))
  }

  /** The media the directories were assembled on hold them with all fixups made. */
  ghost predicate Assembled(t: Tree, size: seq<nat>, base: nat, blkSz: nat, media: Media, first: nat)
    requires SubsWithin(t, size) && blkSz >= 256
  {
    forall k :: 0 <= k < |t.rows| ==> AssembledAt(t, size, base, blkSz, media, first, k)
  }

  predicate AssembledAt(t: Tree, size: seq<nat>, base: nat, blkSz: nat, media: Media, first: nat, k: nat)
    requires SubsWithin(t, size) && k < |t.rows| && blkSz >= 256
  {
    && WideAt(t, size, base, blkSz, k) && Divides(blkSz, size[k])
    && Content(media, Extent(0, size[k], Medium(first + k))) == DirectoryAt(t, size, base, blkSz, k)
  }

  /** Laid out by `Folders.PlanFolders` and burnt, the directories are in the image where planned. */
  lemma {:induction false} TreeWritten(t: Tree, media: Media, tmp: Bytes, image: Bytes, size: seq<nat>, first: nat, home: nat, base: nat, blkSz: nat,
                                       before: seq<Extent>, after: seq<Extent>, out: seq<Extent>, rest: seq<Extent>, inner: nat, length: nat)
    requires SubsWithin(t, size) && blkSz >= 256 && Holds(media, home, tmp)
    requires tmp == Burnt(media, before + Extents(size, first, 0) + after)
    requires image == Burnt(media, out + [Extent(inner, length, Medium(home))] + rest)
    requires inner <= |Burnt(media, before)| && |Burnt(media, before)| + Tail(size, 0) <= inner + length <= |tmp|
    requires base == |Burnt(media, before)| + |Burnt(media, out)| - inner && Divides(blkSz, base)
    requires Assembled(t, size, base, blkSz, media, first)
    ensures Written(t, size, base, blkSz, image)
  {
    var n := |t.rows|;
    hide SubsWithin, WrittenAt, Assembled, Burnt, Extents, Holds, Tail, Divides;
    assert |size| == n by { SameCount(t, size); }
    forall k | 0 <= k < n ensures WrittenAt(t, size, base, blkSz, image, k) {
      DirectoryOnTarget(media, tmp, image, size, first, k, home, before, after, out, rest, inner, length);
      WrittenOne(t, size, base, blkSz, media, image, first, k);
    }
  }

  lemma {:induction false} SameCount(t: Tree, size: seq<nat>)
    requires SubsWithin(t, size)
    ensures |size| == |t.rows|
  {
  }

  lemma {:induction false} WrittenOne(t: Tree, size: seq<nat>, base: nat, blkSz: nat, media: Media, image: Bytes, first: nat, k: nat)
    requires SubsWithin(t, size) && k < |t.rows| && blkSz >= 256 && Assembled(t, size, base, blkSz, media, first) && Divides(blkSz, base)
    requires Located(image, PlaceOf(size, base, k).start, Content(media, Extent(0, size[k], Medium(first + k))))
    ensures WrittenAt(t, size, base, blkSz, image, k)
  {
    PlaceAligned(t, size, base, blkSz, media, first, k);
    assert AssembledAt(t, size, base, blkSz, media, first, k);
    hide Burnt, Content, Located, Tail, DirectoryAt, WideAt, Tree.Valid, Assembled, PlaceOf;
    DirectoryLength(media, Extent(0, size[k], Medium(first + k)));
  }

  lemma {:induction false} PlaceAligned(t: Tree, size: seq<nat>, base: nat, blkSz: nat, media: Media, first: nat, k: nat)
    requires SubsWithin(t, size) && blkSz >= 256 && Divides(blkSz, base) && Assembled(t, size, base, blkSz, media, first) && k < |size|
    ensures Divides(blkSz, PlaceOf(size, base, k).start)
  {
    forall i | 0 <= i < |size| ensures size[i] % blkSz == 0 { assert AssembledAt(t, size, base, blkSz, media, first, i); }
    hide Assembled, Tree.Valid;
    TailAligned(size, k + 1, blkSz);
    Multiple(base, Tail(size, k + 1), blkSz);
  }

  // ----- the host -----

  /** A directory as an entry names it. */
  datatype Ref = Ref(lba: nat, length: nat)

  function RefOf(e: CdDirectory.Entry): Ref {
    Ref(e.lba, e.length)
  }

  function ReadDirectory(image: Bytes, r: Ref, blkSz: nat): seq<CdDirectory.Entry>
    requires blkSz > 0
  {
    var from := r.lba * blkSz;
    if from + r.length > |image| then [] else CdDirectory.Decoded(CdDirectory.Read(image[from..from + r.length], 0, blkSz))
  }

  /** Opening the entries of given numbers one after another. */
  function Open(image: Bytes, r: Ref, path: seq<nat>, blkSz: nat): Ref
    requires blkSz > 0
    decreases |path|
  {
    if path == [] then r else
    var es := ReadDirectory(image, r, blkSz);
    if path[0] < |es| && es[path[0]].flags == CdDirectory.FOLDER then Open(image, RefOf(es[path[0]]), path[1..], blkSz) else Ref(0, 0)
  }

  function RefAt(t: Tree, size: seq<nat>, base: nat, blkSz: nat, k: nat): Ref
    requires SubsWithin(t, size) && k < |t.rows| && blkSz > 0
  {
    RefOf(DotAt(t, size, base, blkSz, k))
  }

  /** A directory reads back as its own entry, its parent's, and its listing. */
  lemma {:induction false} DirectoryReadBack(t: Tree, size: seq<nat>, base: nat, blkSz: nat, image: Bytes, k: nat)
    requires Written(t, size, base, blkSz, image) && k < |t.rows|
    ensures ReadDirectory(image, RefAt(t, size, base, blkSz, k), blkSz)
         == [DotAt(t, size, base, blkSz, k), DotDotAt(t, size, base, blkSz, k)] + CdDirectory.Listing(ItemsAt(t, size, base, blkSz, k))
  {
    assert WrittenAt(t, size, base, blkSz, image, k);
    RefPlace(t, size, base, blkSz, k);
    var dot, dotdot, items := DotAt(t, size, base, blkSz, k), DotDotAt(t, size, base, blkSz, k), ItemsAt(t, size, base, blkSz, k);
    var ref, at, bytes := RefAt(t, size, base, blkSz, k), PlaceOf(size, base, k).start, DirectoryAt(t, size, base, blkSz, k);
    assert bytes == CdDirectory.Directory(dot, dotdot, items, blkSz);
    assert Located(image, at, bytes) && ref.length == |bytes|;
    assert WideAt(t, size, base, blkSz, k);
    hide Tree.Valid, SubsWithin, WrittenAt, PlaceOf, Tail, Located, ReadDirectory, RefAt, DotAt, DotDotAt, ItemsAt, DirectoryAt,
      CdDirectory.Directory, CdDirectory.Read, CdDirectory.Decoded, CdDirectory.Listing, CdDirectory.Fits, CdDirectory.AllFit;
    CdDirectory.DirectoryRead(dot, dotdot, items, blkSz);
    ReadLocated(image, ref, at, bytes, blkSz);
  }

  lemma {:induction false} RefPlace(t: Tree, size: seq<nat>, base: nat, blkSz: nat, k: nat)
    requires SubsWithin(t, size) && k < |t.rows| && blkSz > 0 && Divides(blkSz, PlaceOf(size, base, k).start)
    ensures var r := RefAt(t, size, base, blkSz, k); r.length == size[k] && r.lba * blkSz == PlaceOf(size, base, k).start
  {
    hide Tree.Valid, Tail;
    QuotientSum(PlaceOf(size, base, k).start, 0, blkSz);
  }

  lemma {:induction false} ReadLocated(image: Bytes, r: Ref, at: int, bytes: Bytes, blkSz: nat)
    requires blkSz > 0 && r.lba * blkSz == at && r.length == |bytes| && Located(image, at, bytes)
    ensures ReadDirectory(image, r, blkSz) == CdDirectory.Decoded(CdDirectory.Read(bytes, 0, blkSz))
  {
    hide CdDirectory.Read, CdDirectory.Decoded;
  }

  // ----- the entries of a directory, by the items of its folder -----

  /** How many entries an element has: a folder one, a file one for each extent. */
  function EntryCount(x: Element): nat {
    match x
    case Sub(_, _, _) => 1
    case Other(_, _, _, extents) => |extents|
  }

  /** Where the entries of element `e` begin, in the order of the elements, behind the two leading ones. */
  function PositionOf(xs: seq<Element>, e: nat): nat
    requires e <= |xs|
  {
    if e == 0 then 2 else PositionOf(xs, e - 1) + EntryCount(xs[e - 1])
  }

  lemma {:induction false} ItemCount(x: Element, size: seq<nat>, base: nat, blkSz: nat)
    requires blkSz > 0 && (x.Sub? ==> x.folder < |size|)
    ensures |CdDirectory.Entries(ItemOf(x, size, base, blkSz))| == EntryCount(x)
  {
    match x
    case Sub(c, name, date) =>
    case Other(name, date, n, extents) => CdDirectory.EntriesAreParts(name, date, n, extents);
  }

  /** The entries of one element, where they are. */
  lemma {:induction false} ListedAt(xs: seq<Element>, size: seq<nat>, base: nat, blkSz: nat, e: nat)
    requires blkSz > 0 && (forall j :: 0 <= j < |xs| ==> xs[j].Sub? ==> xs[j].folder < |size|) && e < |xs|
    ensures var es := CdDirectory.Listing(ItemsOf(xs, size, base, blkSz));
            var p := PositionOf(xs, e) - 2;
            && |es| == PositionOf(xs, |xs|) - 2 && 0 <= p <= p + EntryCount(xs[e]) <= |es|
            && es[p..p + EntryCount(xs[e])] == CdDirectory.Entries(ItemOf(xs[e], size, base, blkSz))
  {
    hide *;
    var n := |xs| - 1;
    var init := xs[..n];
    PositionStep(xs);
    ListedCount(init, size, base, blkSz);
    ItemCount(xs[n], size, base, blkSz);
    PositionPrefix(xs, n, n);
    LastItem(xs, size, base, blkSz);
    var a, b := CdDirectory.Listing(ItemsOf(init, size, base, blkSz)), CdDirectory.Entries(ItemOf(xs[n], size, base, blkSz));
    if e < n {
      ListedAt(init, size, base, blkSz, e);
      PositionPrefix(xs, n, e);
      SliceInFront(a, b, PositionOf(xs, e) - 2, EntryCount(xs[e]));
    } else {
      SliceBehind(a, b);
    }
  }

  lemma {:induction false} LastItem(xs: seq<Element>, size: seq<nat>, base: nat, blkSz: nat)
    requires blkSz > 0 && (forall j :: 0 <= j < |xs| ==> xs[j].Sub? ==> xs[j].folder < |size|) && xs != []
    ensures CdDirectory.Listing(ItemsOf(xs, size, base, blkSz))
         == CdDirectory.Listing(ItemsOf(xs[..|xs| - 1], size, base, blkSz)) + CdDirectory.Entries(ItemOf(xs[|xs| - 1], size, base, blkSz))
  {
    var items := ItemsOf(xs, size, base, blkSz);
    assert items[..|items| - 1] == ItemsOf(xs[..|xs| - 1], size, base, blkSz);
    hide CdDirectory.Entries, ItemOf;
  }

  lemma {:induction false} PositionStep(xs: seq<Element>)
    requires xs != []
    ensures PositionOf(xs, |xs|) == PositionOf(xs, |xs| - 1) + EntryCount(xs[|xs| - 1])
  {
  }

  lemma {:induction false} SliceInFront(a: seq<CdDirectory.Entry>, b: seq<CdDirectory.Entry>, p: nat, n: nat)
    requires p + n <= |a|
    ensures (a + b)[p..p + n] == a[p..p + n]
  {
  }

  lemma {:induction false} SliceBehind(a: seq<CdDirectory.Entry>, b: seq<CdDirectory.Entry>)
    ensures (a + b)[|a|..|a| + |b|] == b
  {
  }

  lemma {:induction false} ListedCount(xs: seq<Element>, size: seq<nat>, base: nat, blkSz: nat)
    requires blkSz > 0 && forall j :: 0 <= j < |xs| ==> xs[j].Sub? ==> xs[j].folder < |size|
    ensures |CdDirectory.Listing(ItemsOf(xs, size, base, blkSz))| == PositionOf(xs, |xs|) - 2
  {
    if xs != [] {
      var n := |xs| - 1;
      ListedCount(xs[..n], size, base, blkSz);
      ItemCount(xs[n], size, base, blkSz);
      PositionPrefix(xs, n, n);
      LastItem(xs, size, base, blkSz);
      hide CdDirectory.Entries, ItemOf, EntryCount;
    }
  }

  lemma {:induction false} PositionPrefix(xs: seq<Element>, n: nat, e: nat)
    requires e <= n <= |xs|
    ensures PositionOf(xs[..n], e) == PositionOf(xs, e) >= 2
    ensures e < n ==> xs[..n][e] == xs[e]
  {
    if e > 0 { PositionPrefix(xs, n, e - 1); }
  }

  /** A file's records read from the image, as long as they are continued, however the directory goes on. */
  lemma {:induction false} ReadStops(image: Bytes, a: seq<CdDirectory.Entry>, b: seq<CdDirectory.Entry>, blkSz: nat)
    requires a != [] && a[|a| - 1].flags != CdDirectory.CONTINUED
    ensures CdDirectory.ReadFile(image, a + b, blkSz) == CdDirectory.ReadFile(image, a, blkSz)
  {
    assert (a + b)[0] == a[0] && (a + b)[1..] == a[1..] + b;
    hide CdDirectory.Piece;
    if |a| > 1 && a[0].flags == CdDirectory.CONTINUED { ReadStops(image, a[1..], b, blkSz); }
  }

  /** What a host finds of a folder in a directory: its name, date, flag, place and size. */
  predicate FolderListed(es: seq<CdDirectory.Entry>, i: nat, name: Bytes, date: Bytes, place: Span, blkSz: nat) {
    && i < |es| && es[i].name == name && es[i].date == date && es[i].flags == 2
    && es[i].lba * blkSz == place.start && es[i].length == place.length
  }

  /** What it finds of a file: an entry for each extent, with the file's name and date, the extent's place,
      and the part of the file in it; and if the file ends in its last extent and the image holds the
      pieces of the file, its bytes from there on. */
  ghost predicate FileListed(image: Bytes, es: seq<CdDirectory.Entry>, i: nat, name: Bytes, date: Bytes, size: nat, extents: seq<(nat, nat)>, blkSz: nat) {
    && i + |extents| <= |es|
    && (forall j :: 0 <= j < |extents| ==> PartListed(es, i, name, date, size, extents, j))
    && forall pieces :: CdDirectory.Extant(image, extents, pieces, blkSz) && CdDirectory.EndsInLast(size, CdDirectory.Lengths(extents)) ==>
         ReadsBack(image, es[i..], pieces, size, blkSz)
  }

  predicate PartListed(es: seq<CdDirectory.Entry>, i: nat, name: Bytes, date: Bytes, size: nat, extents: seq<(nat, nat)>, j: nat)
    requires i + |extents| <= |es| && j < |extents|
  {
    var e, left := es[i + j], size - BytesBefore(extents, j);
    && e.name == name && e.date == date && e.lba == extents[j].0
    && e.length == (if left < extents[j].1 then left else extents[j].1) % U32
    && e.flags == if left > extents[j].1 then 0x80 else 0
  }

  /** The bytes of a file that are in front of its extent `j`. */
  function BytesBefore(extents: seq<(nat, nat)>, j: nat): nat
    requires j <= |extents|
  {
    if j == 0 then 0 else BytesBefore(extents, j - 1) + extents[j - 1].1
  }

  lemma {:induction false} BytesRest(extents: seq<(nat, nat)>, j: nat)
    requires 0 < j <= |extents|
    ensures BytesBefore(extents, j) == extents[0].1 + BytesBefore(extents[1..], j - 1)
  {
    if j > 1 { BytesRest(extents, j - 1); }
  }

  lemma {:induction false} PartIs(size: int, extents: seq<(nat, nat)>, j: nat)
    requires j < |extents|
    ensures var parts, left := CdDirectory.Parts(size, CdDirectory.Lengths(extents)), size - BytesBefore(extents, j);
            j < |parts| && parts[j] == CdDirectory.Part((if left < extents[j].1 then left else extents[j].1) % U32, left > extents[j].1)
    decreases j
  {
    if j > 0 {
      BytesRest(extents, j);
      PartIs(size - extents[0].1, extents[1..], j - 1);
    }
  }

  predicate ReadsBack(image: Bytes, es: seq<CdDirectory.Entry>, pieces: seq<Bytes>, size: nat, blkSz: nat) {
    size <= |Concat(pieces)| && CdDirectory.ReadFile(image, es, blkSz) == Concat(pieces)[..size]
  }

  lemma {:induction false} FileIsListed(image: Bytes, es: seq<CdDirectory.Entry>, i: nat, name: Bytes, date: Bytes, size: nat, extents: seq<(nat, nat)>, blkSz: nat)
    requires i + |extents| <= |es| && es[i..i + |extents|] == CdDirectory.FileEntries(name, date, size, extents)
    ensures FileListed(image, es, i, name, date, size, extents, blkSz)
  {
    var a, b := CdDirectory.FileEntries(name, date, size, extents), es[i + |extents|..];
    CdDirectory.EntriesAreParts(name, date, size, extents);
    var parts := CdDirectory.Parts(size, CdDirectory.Lengths(extents));
    assert es[i..] == a + b;
    hide CdDirectory.FileEntries, CdDirectory.Parts, CdDirectory.Lengths, CdDirectory.Extant, CdDirectory.EndsInLast, CdDirectory.ReadFile;
    forall j | 0 <= j < |extents| ensures PartListed(es, i, name, date, size, extents, j) {
      PartIs(size, extents, j);
      assert es[i + j] == a[j] && CdDirectory.Matches(a[j], parts[j], extents[j].0, name, date);
    }
    forall pieces | CdDirectory.Extant(image, extents, pieces, blkSz) && CdDirectory.EndsInLast(size, CdDirectory.Lengths(extents))
      ensures ReadsBack(image, es[i..], pieces, size, blkSz)
    {
      CdDirectory.FileReadBack(image, name, date, size, extents, pieces, blkSz);
      LastEnds(name, date, size, extents);
      ReadStops(image, a, b, blkSz);
    }
  }

  lemma {:induction false} LastEnds(name: Bytes, date: Bytes, size: nat, extents: seq<(nat, nat)>)
    requires CdDirectory.EndsInLast(size, CdDirectory.Lengths(extents))
    ensures var es := CdDirectory.FileEntries(name, date, size, extents); es != [] && es[|es| - 1].flags != CdDirectory.CONTINUED
  {
    var es, parts := CdDirectory.FileEntries(name, date, size, extents), CdDirectory.Parts(size, CdDirectory.Lengths(extents));
    CdDirectory.EntriesAreParts(name, date, size, extents);
    CdDirectory.FileCovered(size, CdDirectory.Lengths(extents));
    assert CdDirectory.Flagged(parts);
    var k := |parts| - 1;
    assert parts[k].continued <==> k + 1 < |parts|;
    assert CdDirectory.Matches(es[k], parts[k], extents[k].0, name, date);
    hide CdDirectory.FileEntries, CdDirectory.Parts, CdDirectory.Lengths, CdDirectory.EndsInLast;
  }

  /** The directory of a folder, read from the image: its own entry, its parent's, and what the folder
      lists, in order: folders with their places, and files with their bytes. */
  ghost predicate DirectoryLists(t: Tree, size: seq<nat>, base: nat, blkSz: nat, image: Bytes, es: seq<CdDirectory.Entry>, k: nat)
    requires SubsWithin(t, size) && k < |t.rows| && blkSz > 0
  {
    var xs := t.lists[k];
    && |es| == PositionOf(xs, |xs|)
    && FolderListed(es, 0, [0], t.dates[k], PlaceOf(size, base, k), blkSz)
    && ParentListed(t, size, base, blkSz, es, k)
    && forall e :: 0 <= e < |xs| ==> ElementListed(t, size, base, blkSz, image, es, k, e)
  }

  ghost predicate ParentListed(t: Tree, size: seq<nat>, base: nat, blkSz: nat, es: seq<CdDirectory.Entry>, k: nat)
    requires SubsWithin(t, size) && k < |t.rows|
  {
    var up := if k == 0 then 0 else t.rows[k].parent;
    up < |t.rows| && FolderListed(es, 1, [1], t.dates[up], PlaceOf(size, base, up), blkSz)
  }

  ghost predicate ElementListed(t: Tree, size: seq<nat>, base: nat, blkSz: nat, image: Bytes, es: seq<CdDirectory.Entry>, k: nat, e: nat)
    requires SubsWithin(t, size) && k < |t.rows| && e < |t.lists[k]|
  {
    match t.lists[k][e]
    case Sub(c, name, date) => c < |size| && FolderListed(es, PositionOf(t.lists[k], e), name, date, PlaceOf(size, base, c), blkSz)
    case Other(name, date, n, extents) => FileListed(image, es, PositionOf(t.lists[k], e), name, date, n, extents, blkSz)
  }

  /** A file listed is found by its name, with its bytes. */
  lemma {:induction false} FileAmong(t: Tree, size: seq<nat>, base: nat, blkSz: nat, image: Bytes, es: seq<CdDirectory.Entry>, k: nat, e: nat,
                                     pieces: seq<Bytes>)
    requires SubsWithin(t, size) && k < |t.rows| == |t.lists| && blkSz > 0 && DirectoryLists(t, size, base, blkSz, image, es, k)
    requires e < |t.lists[k]| && t.lists[k][e].Other?
    requires CdDirectory.Extant(image, t.lists[k][e].extents, pieces, blkSz)
    requires CdDirectory.EndsInLast(t.lists[k][e].size, CdDirectory.Lengths(t.lists[k][e].extents))
    ensures var x, i := t.lists[k][e], PositionOf(t.lists[k], e);
            && i + |x.extents| <= |es| && (forall j :: i <= j < i + |x.extents| ==> es[j].name == x.name)
            && ReadsBack(image, es[i..], pieces, x.size, blkSz)
  {
    hide Tree.Valid, FolderListed, ParentListed, Tail, PositionOf, ReadsBack, CdDirectory.Extant, CdDirectory.Lengths, CdDirectory.EndsInLast;
    assert ElementListed(t, size, base, blkSz, image, es, k, e);
    var x, i := t.lists[k][e], PositionOf(t.lists[k], e);
    forall j | i <= j < i + |x.extents| ensures es[j].name == x.name {
      assert PartListed(es, i, x.name, x.date, x.size, x.extents, j - i);
    }
  }

  lemma {:induction false} DirectoryIsListed(t: Tree, size: seq<nat>, base: nat, blkSz: nat, image: Bytes, k: nat)
    requires Written(t, size, base, blkSz, image) && k < |t.rows|
    ensures DirectoryLists(t, size, base, blkSz, image, ReadDirectory(image, RefAt(t, size, base, blkSz, k), blkSz), k)
  {
    WrittenMeans(t, size, base, blkSz, image);
    SubFolders(t, size, k);
    ListedCount(t.lists[k], size, base, blkSz);
    PlaceWhole(t, size, base, blkSz, image, k);
    PlaceWhole(t, size, base, blkSz, image, Own(t.rows, k));
    DirectoryReadBack(t, size, base, blkSz, image, k);
    var es := ReadDirectory(image, RefAt(t, size, base, blkSz, k), blkSz);
    hide ReadDirectory, Written, Tree.Valid, CdDirectory.Listing, ItemsOf, FolderListed, FileListed, Tail, RefAt;
    LeadingListed(t, size, base, blkSz, es, k);
    forall e | 0 <= e < |t.lists[k]| ensures ElementListed(t, size, base, blkSz, image, es, k, e) {
      if t.lists[k][e].Sub? { PlaceWhole(t, size, base, blkSz, image, t.lists[k][e].folder); }
      ElementIsListed(t, size, base, blkSz, image, es, k, e);
    }
  }

  lemma {:induction false} LeadingListed(t: Tree, size: seq<nat>, base: nat, blkSz: nat, es: seq<CdDirectory.Entry>, k: nat)
    requires SubsWithin(t, size) && k < |t.rows| && blkSz > 0 && Own(t.rows, k) < |t.rows| && |es| >= 2
    requires es[0] == DotAt(t, size, base, blkSz, k) && es[1] == DotDotAt(t, size, base, blkSz, k)
    requires PlaceOf(size, base, k).start / blkSz * blkSz == PlaceOf(size, base, k).start
    requires PlaceOf(size, base, Own(t.rows, k)).start / blkSz * blkSz == PlaceOf(size, base, Own(t.rows, k)).start
    ensures FolderListed(es, 0, [0], t.dates[k], PlaceOf(size, base, k), blkSz) && ParentListed(t, size, base, blkSz, es, k)
  {
    hide Tree.Valid, Tail;
  }

  lemma {:induction false} SubFolders(t: Tree, size: seq<nat>, k: nat)
    requires SubsWithin(t, size) && k < |t.rows|
    ensures Own(t.rows, k) < |t.rows| == |size| == |t.lists| == |t.dates|
    ensures forall e :: 0 <= e < |t.lists[k]| ==> t.lists[k][e].Sub? ==> t.lists[k][e].folder < |size|
  {
    forall e | 0 <= e < |t.lists[k]| ensures t.lists[k][e].Sub? ==> t.lists[k][e].folder < |size| { assert t.SubValid(k, t.lists[k][e]); }
  }

  lemma {:induction false} PlaceWhole(t: Tree, size: seq<nat>, base: nat, blkSz: nat, image: Bytes, k: nat)
    requires Written(t, size, base, blkSz, image) && k < |t.rows| == |size| && blkSz > 0
    ensures PlaceOf(size, base, k).start >= 0 && PlaceOf(size, base, k).start / blkSz * blkSz == PlaceOf(size, base, k).start
  {
    assert WrittenAt(t, size, base, blkSz, image, k);
    hide Written, Tail;
    QuotientSum(PlaceOf(size, base, k).start, 0, blkSz);
  }

  lemma {:induction false} ElementIsListed(t: Tree, size: seq<nat>, base: nat, blkSz: nat, image: Bytes, es: seq<CdDirectory.Entry>, k: nat, e: nat)
    requires SubsWithin(t, size) && k < |t.rows| && blkSz > 0 && e < |t.lists[k]|
    requires es == [DotAt(t, size, base, blkSz, k), DotDotAt(t, size, base, blkSz, k)] + CdDirectory.Listing(ItemsAt(t, size, base, blkSz, k))
    requires t.lists[k][e].Sub? ==> var c := t.lists[k][e].folder;
                                    c < |size| && PlaceOf(size, base, c).start / blkSz * blkSz == PlaceOf(size, base, c).start
    ensures ElementListed(t, size, base, blkSz, image, es, k, e)
  {
    hide *;
    SubFolders(t, size, k);
    var xs := t.lists[k];
    ListedAt(xs, size, base, blkSz, e);
    PositionPrefix(xs, |xs|, e);
    ItemsAre(t, size, base, blkSz, k);
    Shifted([DotAt(t, size, base, blkSz, k), DotDotAt(t, size, base, blkSz, k)], CdDirectory.Listing(ItemsOf(xs, size, base, blkSz)), PositionOf(xs, e), EntryCount(xs[e]));
    ElementFrom(t, size, base, blkSz, image, es, k, e, PositionOf(xs, e));
  }

  lemma {:induction false} ItemsAre(t: Tree, size: seq<nat>, base: nat, blkSz: nat, k: nat)
    requires SubsWithin(t, size) && k < |t.rows| && blkSz > 0 && forall e :: 0 <= e < |t.lists[k]| ==> t.lists[k][e].Sub? ==> t.lists[k][e].folder < |size|
    ensures ItemsAt(t, size, base, blkSz, k) == ItemsOf(t.lists[k], size, base, blkSz)
  {
  }

  lemma {:induction false} ElementFrom(t: Tree, size: seq<nat>, base: nat, blkSz: nat, image: Bytes, es: seq<CdDirectory.Entry>, k: nat, e: nat, p: nat)
    requires SubsWithin(t, size) && k < |t.rows| && blkSz > 0 && e < |t.lists[k]| && p == PositionOf(t.lists[k], e)
    requires var x := t.lists[k][e];
             && (x.Sub? ==> x.folder < |size| && PlaceOf(size, base, x.folder).start / blkSz * blkSz == PlaceOf(size, base, x.folder).start)
             && p + EntryCount(x) <= |es| && es[p..p + EntryCount(x)] == CdDirectory.Entries(ItemOf(x, size, base, blkSz))
    ensures ElementListed(t, size, base, blkSz, image, es, k, e)
  {
    hide Tree.Valid, FileListed, Tail, PositionOf, CdDirectory.FileEntries;
    SubFolders(t, size, k);
    match t.lists[k][e]
    case Sub(c, name, date) =>
      assert EntryCount(t.lists[k][e]) == 1;
      assert es[p] == es[p..p + 1][0];
    case Other(name, date, n, extents) =>
      FileIsListed(image, es, p, name, date, n, extents, blkSz);
  }

  lemma {:induction false} Shifted(a: seq<CdDirectory.Entry>, b: seq<CdDirectory.Entry>, p: nat, n: nat)
    requires |a| == 2 && 2 <= p && p - 2 + n <= |b|
    ensures (a + b)[p..p + n] == b[p - 2..p - 2 + n]
  {
  }

  /** A subfolder is among the entries of its parent. */
  lemma {:induction false} ListingHas(items: seq<CdDirectory.Item>, e: nat) returns (i: nat)
    requires e < |items| && items[e].Folder?
    ensures i < |CdDirectory.Listing(items)|
    ensures var x := items[e]; CdDirectory.Listing(items)[i] == CdDirectory.Entry(x.lba, x.length, x.date, CdDirectory.FOLDER, x.name)
  {
    var init := items[..|items| - 1];
    if e < |init| {
      i := ListingHas(init, e);
    } else {
      i := |CdDirectory.Listing(init)|;
    }
  }

  /** A folder is among the items of its parent, with its place. */
  lemma {:induction false} ItemFor(t: Tree, size: seq<nat>, base: nat, blkSz: nat, c: nat) returns (e: nat)
    requires SubsWithin(t, size) && 0 < c < |t.rows| && blkSz > 0
    ensures t.rows[c].parent < c
    ensures var items := ItemsAt(t, size, base, blkSz, t.rows[c].parent);
            e < |items| && items[e].Folder? && Ref(items[e].lba, items[e].length) == RefAt(t, size, base, blkSz, c)
  {
    var p := t.rows[c].parent;
    assert t.ListedBy(c);
    var x :| 0 <= x < |t.lists[p]| && t.lists[p][x].Sub? && t.lists[p][x].folder == c;
    assert t.SubValid(p, t.lists[p][x]);
    e := x;
    hide PlaceOf, ItemsOf;
  }

  /** The entry of a folder in its parent's directory. */
  lemma {:induction false} EntryOf(t: Tree, size: seq<nat>, base: nat, blkSz: nat, image: Bytes, c: nat) returns (i: nat)
    requires Written(t, size, base, blkSz, image) && 0 < c < |t.rows|
    ensures t.rows[c].parent < c
    ensures var es := ReadDirectory(image, RefAt(t, size, base, blkSz, t.rows[c].parent), blkSz);
            i < |es| && es[i].flags == CdDirectory.FOLDER && RefOf(es[i]) == RefAt(t, size, base, blkSz, c)
  {
    hide Written, SubsWithin, ItemsAt, RefAt, DotAt, DotDotAt, ReadDirectory, Tree.Valid, CdDirectory.Listing, CdDirectory.AllFit;
    assert SubsWithin(t, size) && blkSz >= 256 by { WrittenMeans(t, size, base, blkSz, image); }
    var e := ItemFor(t, size, base, blkSz, c);
    var p := t.rows[c].parent;
    DirectoryReadBack(t, size, base, blkSz, image, p);
    var items := ItemsAt(t, size, base, blkSz, p);
    var leading := [DotAt(t, size, base, blkSz, p), DotDotAt(t, size, base, blkSz, p)];
    i := ListingHas(items, e);
    assert (leading + CdDirectory.Listing(items))[i + 2] == CdDirectory.Listing(items)[i];
    i := i + 2;
  }

  lemma {:induction false} WrittenMeans(t: Tree, size: seq<nat>, base: nat, blkSz: nat, image: Bytes)
    requires Written(t, size, base, blkSz, image)
    ensures SubsWithin(t, size) && blkSz >= 256
  {
  }

  /** A walk from the root directory reaches the directory of every folder. */
  lemma {:induction false} EveryFolderReached(t: Tree, size: seq<nat>, base: nat, blkSz: nat, image: Bytes, c: nat) returns (path: seq<nat>)
    requires Written(t, size, base, blkSz, image) && c < |t.rows|
    ensures Open(image, RefAt(t, size, base, blkSz, 0), path, blkSz) == RefAt(t, size, base, blkSz, c)
  {
    if c == 0 {
      path := [];
    } else {
      hide ReadDirectory, WrittenAt, RefAt, Open, Tree.Valid;
      var i := EntryOf(t, size, base, blkSz, image, c);
      var up := EveryFolderReached(t, size, base, blkSz, image, t.rows[c].parent);
      path := up + [i];
      OpenMore(image, RefAt(t, size, base, blkSz, 0), up, i, blkSz);
    }
  }

  lemma {:induction false} OpenMore(image: Bytes, r: Ref, path: seq<nat>, i: nat, blkSz: nat)
    requires blkSz > 0
    requires var es := ReadDirectory(image, Open(image, r, path, blkSz), blkSz); i < |es| && es[i].flags == CdDirectory.FOLDER
    ensures Open(image, r, path + [i], blkSz) == RefOf(ReadDirectory(image, Open(image, r, path, blkSz), blkSz)[i])
    decreases |path|
  {
    hide ReadDirectory;
    if path == [] {
      assert [] + [i] == [i] && [i][1..] == [];
    } else {
      assert (path + [i])[1..] == path[1..] + [i];
      var es := ReadDirectory(image, r, blkSz);
      if path[0] < |es| && es[path[0]].flags == CdDirectory.FOLDER {
        OpenMore(image, RefOf(es[path[0]]), path[1..], i, blkSz);
      } else {
        Nowhere(image, blkSz);
      }
    }
  }

  lemma {:induction false} Nowhere(image: Bytes, blkSz: nat)
    requires blkSz > 0
    ensures ReadDirectory(image, Ref(0, 0), blkSz) == []
  {
    assert image[0..0] == [];
  }
}
