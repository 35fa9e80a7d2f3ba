/** ISO 9660 directory records and the sectors they are packed into (`CD9660Out::plan`, `writeEntry`). */
module CdDirectory {
  import opened Bytes
  import opened Blocks
  import opened Reading

  // ----- one record -----

  const FOLDER := 2
  const CONTINUED := 0x80
  const HEADER := 33

  datatype Entry = Entry(lba: nat, length: nat, date: Bytes, flags: byte, name: Bytes)

  /** What fits the fields; the record length is a byte. */
  predicate Fits(e: Entry) {
    e.lba < U32 && e.length < U32 && |e.date| == 7 && 1 <= |e.name| <= 221
  }

  /** A number in both byte orders. */
  function Both32(n: nat): (b: Bytes)
    requires n < U32
    ensures |b| == 8 && FromLE32(b[..4]) == FromBE32(b[4..]) == n
  {
    LE32(n) + BE32(n)
  }

  /** The record length: even. */
  function RecordSize(name: nat): (n: nat)
    ensures n % 2 == 0 && HEADER + name <= n <= HEADER + name + 1
  {
    (HEADER + 1 + name) / 2 * 2
  }

  function Encode(e: Entry): (r: Bytes)
    requires Fits(e)
    ensures |r| == RecordSize(|e.name|) && r[0] as int == |r|
  {
    [RecordSize(|e.name|), 0] + Both32(e.lba) + Both32(e.length) + e.date + [e.flags, 0, 0, 1, 0, 0, 1, |e.name|]
      + e.name + Zeros(RecordSize(|e.name|) - HEADER - |e.name|)
  }

  function Decode(r: Bytes): Entry
    requires |r| > HEADER && HEADER + r[32] as int <= |r|
  {
    Entry(FromBE32(r[6..10]), FromBE32(r[14..18]), r[18..25], r[25], r[HEADER..HEADER + r[32] as int])
  }

  lemma {:induction false} RecordRoundTrip(e: Entry)
    requires Fits(e)
    ensures var r := Encode(e);
            && HEADER + r[32] as int <= |r| && Decode(r) == e
            && FromLE32(r[2..6]) == e.lba && FromLE32(r[10..14]) == e.length
            && r[1] == 0 && r[26..32] == [0, 0, 1, 0, 0, 1]
  {
    hide RecordSize, Both32, FromBE32, FromLE32;
    var r := Encode(e);
    var a, b, c := Both32(e.lba), Both32(e.length), [e.flags, 0, 0, 1, 0, 0, 1, |e.name|];
    assert r[2..10] == a && r[10..18] == b && r[18..25] == e.date && r[25..33] == c && r[HEADER..HEADER + |e.name|] == e.name;
    assert r[1] == 0;
    hide Encode;
    Halves(r, a, b);
    assert r[25] == c[0] && r[32] == c[7] && r[26..32] == c[1..7];
  }

  lemma {:induction false} Halves(r: Bytes, a: Bytes, b: Bytes)
    requires |r| > HEADER && |a| == |b| == 8 && r[2..10] == a && r[10..18] == b
    ensures r[2..6] == a[..4] && r[6..10] == a[4..] && r[10..14] == b[..4] && r[14..18] == b[4..]
  {
  }

  // ----- the records of a file -----

  /** The lengths of a list of extents. */
  function Sum(xs: seq<nat>): nat {
    if xs == [] then 0 else xs[0] + Sum(xs[1..])
  }

  datatype Part = Part(length: nat, continued: bool)

  /** The length and continuation flag of each record of a file of a given size, one for each extent.
      What is left of the size goes below zero when extents follow the end of the file; the field
      holds 32 bits of it. */
  function Parts(size: int, xs: seq<nat>): seq<Part>
    decreases xs
  {
    if xs == [] then [] else
    [Part((if size < xs[0] then size else xs[0]) % U32, size > xs[0])] + Parts(size - xs[0], xs[1..])
  }

  function Total(parts: seq<Part>): nat {
    if parts == [] then 0 else parts[0].length + Total(parts[1..])
  }

  /** Every record but the last announces another. */
  predicate Flagged(parts: seq<Part>) {
    parts != [] && forall i :: 0 <= i < |parts| ==> (parts[i].continued <==> i + 1 < |parts|)
  }

  predicate Narrow(xs: seq<nat>) {
    forall i :: 0 <= i < |xs| ==> xs[i] < U32
  }

  /** The file ends inside its last extent, and no part of it is longer than the field. */
  predicate EndsInLast(size: int, xs: seq<nat>) {
    && xs != []
    && var init := xs[..|xs| - 1];
    && (init == [] || Sum(init) < size) && size <= Sum(xs) && size - Sum(init) < U32 && Narrow(init)
  }

  /** The first of several extents: the file goes on after it. */
  lemma {:induction false} EndsStep(size: nat, xs: seq<nat>)
    requires |xs| > 1
    ensures EndsInLast(size, xs) <==> size > xs[0] && xs[0] < U32 && EndsInLast(size - xs[0], xs[1..])
  {
    var init, rest := xs[..|xs| - 1], xs[1..][..|xs| - 2];
    assert init == [xs[0]] + rest && init[1..] == rest;
    assert Sum(init) == xs[0] + Sum(rest) && Sum(xs) == xs[0] + Sum(xs[1..]);
    assert rest == [] ==> Sum(rest) == 0;
    assert Narrow(init) <==> xs[0] < U32 && Narrow(rest) by {
      assert init[0] == xs[0];
      assert forall i :: 0 <= i < |rest| ==> rest[i] == init[i + 1];
      assert forall i :: 0 < i < |init| ==> init[i] == rest[i - 1];
    }
    hide Sum, Narrow;
  }

  lemma {:induction false} FlagsStep(size: int, xs: seq<nat>)
    requires |xs| > 1
    ensures Flagged(Parts(size, xs)) <==> size > xs[0] && Flagged(Parts(size - xs[0], xs[1..]))
    ensures Total(Parts(size, xs)) == (if size < xs[0] then size else xs[0]) % U32 + Total(Parts(size - xs[0], xs[1..]))
  {
    var parts, rest := Parts(size, xs), Parts(size - xs[0], xs[1..]);
    assert parts[1..] == rest && rest != [];
    PartsCount(size, xs);
    if size > xs[0] && Flagged(rest) {
      forall i | 0 <= i < |parts| ensures parts[i].continued <==> i + 1 < |parts| { if i > 0 { assert parts[i] == rest[i - 1]; } }
    }
    if Flagged(parts) {
      assert parts[0].continued;
      forall i | 0 <= i < |rest| ensures rest[i].continued <==> i + 1 < |rest| { assert rest[i] == parts[i + 1]; }
    }
  }

  lemma {:induction false} OneExtent(size: nat, x: nat)
    ensures Flagged(Parts(size, [x])) <==> size <= x
    ensures Total(Parts(size, [x])) == (if size < x then size else x) % U32
    ensures EndsInLast(size, [x]) <==> size <= x && size < U32
  {
    assert [x][1..] == [] && [x][..0] == [];
    var part := Part((if size < x then size else x) % U32, size > x);
    assert Parts(size, [x]) == [part];
    assert [part][0] == part && [part][1..] == [] && Total([part]) == part.length + Total([]);
    assert Sum([x]) == x;
  }

  /** A reader that goes by the flags gets the whole file exactly when the file ends inside its last
      extent. */
  lemma {:induction false} FileCovered(size: nat, xs: seq<nat>)
    ensures Flagged(Parts(size, xs)) && Total(Parts(size, xs)) == size <==> EndsInLast(size, xs)
  {
    if |xs| == 1 {
      assert xs == [xs[0]];
      OneExtent(size, xs[0]);
    } else if xs != [] {
      EndsStep(size, xs);
      FlagsStep(size, xs);
      hide Flagged, Total, EndsInLast, Parts;
      if size > xs[0] {
        FileCovered(size - xs[0], xs[1..]);
        PartsBound(size - xs[0], xs[1..]);
      }
    }
  }

  lemma {:induction false} PartsCount(size: int, xs: seq<nat>)
    ensures |Parts(size, xs)| == |xs|
    decreases xs
  {
    if xs != [] { PartsCount(size - xs[0], xs[1..]); }
  }

  lemma {:induction false} PartsBound(size: nat, xs: seq<nat>)
    ensures Flagged(Parts(size, xs)) ==> Total(Parts(size, xs)) <= size
  {
    if |xs| == 1 {
      assert xs == [xs[0]];
      OneExtent(size, xs[0]);
    } else if xs != [] {
      FlagsStep(size, xs);
      hide Flagged, Total, Parts;
      if size > xs[0] { PartsBound(size - xs[0], xs[1..]); }
    }
  }

  // ----- the sectors of a directory -----

  /** A record the directory can hold: its first byte is its length. */
  predicate Sized(r: Bytes) {
    r != [] && |r| == r[0] as int
  }

  predicate AllSized(rs: seq<Bytes>) {
    forall i :: 0 <= i < |rs| ==> Sized(rs[i])
  }

  /** Where the next record of `n` bytes goes: here, or in the next sector. */
  function Place(cur: nat, n: nat, blkSz: nat): nat
    requires blkSz > 0
  {
    if n > Padding(cur, blkSz) then RoundUp(cur, blkSz) else cur
  }

  /** `writeEntry`. */
  function Placed(data: Bytes, r: Bytes, blkSz: nat): (d: Bytes)
    requires blkSz > 0
  {
    (if |r| > Padding(|data|, blkSz) then data + Zeros(Padding(|data|, blkSz)) else data) + r
  }

  function Written(rs: seq<Bytes>, blkSz: nat): Bytes
    requires blkSz > 0
  {
    if rs == [] then [] else Placed(Written(rs[..|rs| - 1], blkSz), rs[|rs| - 1], blkSz)
  }

  /** The directory with its last sector filled up. */
  function Closed(data: Bytes, blkSz: nat): Bytes
    requires blkSz > 0
  {
    data + Zeros(Padding(|data|, blkSz))
  }

  /** How a reader steps through a directory: by the length byte, and on a zero to the next sector. */
  function Read(data: Bytes, pos: nat, blkSz: nat): seq<Bytes>
    requires blkSz > 0
    decreases |data| - pos
  {
    if pos >= |data| then []
    else if data[pos] == 0 then
      SectorEnd(pos, blkSz);
      Read(data, (pos / blkSz + 1) * blkSz, blkSz)
    else if pos + data[pos] as int > |data| then []
    else [data[pos..pos + data[pos] as int]] + Read(data, pos + data[pos] as int, blkSz)
  }

  lemma {:induction false} SectorEnd(pos: nat, blkSz: nat)
    requires blkSz > 0
    ensures pos / blkSz * blkSz <= pos < (pos / blkSz + 1) * blkSz
    ensures pos % blkSz != 0 ==> RoundUp(pos, blkSz) == (pos / blkSz + 1) * blkSz
    ensures pos % blkSz == 0 ==> RoundUp(pos, blkSz) == pos
  {
    var q, r := pos / blkSz, pos % blkSz;
    assert pos == q * blkSz + r;
    assert (q + 1) * blkSz == q * blkSz + blkSz;
    if r > 0 {
      assert pos + blkSz - 1 == (q + 1) * blkSz + (r - 1);
      Quotient(q + 1, r - 1, blkSz);
    } else {
      RoundUpAligned(pos, blkSz);
    }
  }

  lemma {:induction false} PlacedFacts(data: Bytes, r: Bytes, blkSz: nat)
    requires blkSz > 0
    ensures var p, d := Place(|data|, |r|, blkSz), Placed(data, r, blkSz);
            && |data| <= p && |d| == p + |r|
            && d[..|data|] == data && (forall i :: |data| <= i < p ==> d[i] == 0) && d[p..] == r
  {
    RoundUpBounds(|data|, blkSz);
    hide RoundUp;
  }

  /** What is written stays. */
  lemma {:induction false} WrittenPrefix(rs: seq<Bytes>, i: nat, blkSz: nat)
    requires blkSz > 0 && i <= |rs|
    ensures var a, b := Written(rs[..i], blkSz), Written(rs, blkSz);
            |a| <= |b| && b[..|a|] == a
  {
    if i == |rs| {
      assert rs[..i] == rs;
    } else {
      var init := rs[..|rs| - 1];
      WrittenPrefix(init, i, blkSz);
      assert init[..i] == rs[..i];
      PlacedFacts(Written(init, blkSz), rs[|rs| - 1], blkSz);
      var a, m, b := Written(rs[..i], blkSz), Written(init, blkSz), Written(rs, blkSz);
      assert b[..|a|] == b[..|m|][..|a|];
    }
  }

  /** Where record `i` stands. */
  function StartOf(rs: seq<Bytes>, i: nat, blkSz: nat): nat
    requires blkSz > 0 && i < |rs|
  {
    Place(|Written(rs[..i], blkSz)|, |rs[i]|, blkSz)
  }

  /** A record stands at `p` of a directory that was filled up to `cur` before: right there, or in the next
      sector, with zeros between, if it would not have fitted. */
  predicate StandsAt(d: Bytes, cur: nat, p: nat, r: Bytes, blkSz: nat)
    requires blkSz > 0
  {
    && cur <= p && (p == cur || (p == RoundUp(cur, blkSz) && cur + |r| > p))
    && p + |r| <= |d| && d[p..p + |r|] == r
    && forall k :: cur <= k < p ==> d[k] == 0
  }

  lemma {:induction false} RecordAt(rs: seq<Bytes>, i: nat, blkSz: nat)
    requires blkSz > 0 && i < |rs|
    ensures StandsAt(Written(rs, blkSz), |Written(rs[..i], blkSz)|, StartOf(rs, i, blkSz), rs[i], blkSz)
    ensures |Written(rs[..i + 1], blkSz)| == StartOf(rs, i, blkSz) + |rs[i]|
  {
    var d, a, b := Written(rs, blkSz), Written(rs[..i], blkSz), Written(rs[..i + 1], blkSz);
    assert rs[..i + 1][..i] == rs[..i];
    PlacedFacts(a, rs[i], blkSz);
    WrittenPrefix(rs, i + 1, blkSz);
    var p := StartOf(rs, i, blkSz);
    assert d[p..p + |rs[i]|] == d[..|b|][p..];
    forall k | |a| <= k < p ensures d[k] == 0 { assert d[k] == d[..|b|][k]; }
  }

  /** No record crosses the end of a sector. */
  lemma {:induction false} WithinSector(rs: seq<Bytes>, i: nat, blkSz: nat)
    requires blkSz >= 256 && i < |rs| && Sized(rs[i])
    ensures StartOf(rs, i, blkSz) / blkSz == (StartOf(rs, i, blkSz) + |rs[i]| - 1) / blkSz
  {
    PlaceInSector(|Written(rs[..i], blkSz)|, |rs[i]|, blkSz);
    hide Place, Written;
  }

  lemma {:induction false} PlaceInSector(cur: nat, n: nat, blkSz: nat)
    requires 0 < n < blkSz
    ensures var p := Place(cur, n, blkSz); p / blkSz == (p + n - 1) / blkSz
  {
    var base := SectorOf(cur, blkSz);
    var p, end := Place(cur, n, blkSz), RoundUp(cur, blkSz);
    assert p == if n > end - cur then end else cur;
    hide RoundUp, Place, Padding, Divides;
    SameSector(if p == end then end else base, p, n, blkSz);
  }

  lemma {:induction false} SectorOf(cur: nat, blkSz: nat) returns (base: nat)
    requires blkSz > 0
    ensures Divides(blkSz, base) && Divides(blkSz, RoundUp(cur, blkSz))
    ensures base <= cur <= RoundUp(cur, blkSz) <= base + blkSz
  {
    base := cur / blkSz * blkSz;
    Quotient(cur / blkSz, 0, blkSz);
    RoundUpBounds(cur, blkSz);
    RoundUpAligned(cur, blkSz);
    SectorEnd(cur, blkSz);
    assert (cur / blkSz + 1) * blkSz == base + blkSz;
  }

  lemma {:induction false} SameSector(base: nat, p: nat, n: nat, blkSz: nat)
    requires Divides(blkSz, base) && n > 0 && base <= p && p + n <= base + blkSz
    ensures p / blkSz == (p + n - 1) / blkSz
  {
    var q := base / blkSz;
    assert base == q * blkSz;
    Quotient(q, p - base, blkSz);
    Quotient(q, p + n - 1 - base, blkSz);
  }

  /** A reader of the closed directory gets the records that were written, in order. */
  lemma {:induction false} DirectoryRoundTrip(rs: seq<Bytes>, blkSz: nat)
    requires blkSz >= 256 && AllSized(rs)
    ensures Read(Closed(Written(rs, blkSz), blkSz), 0, blkSz) == rs
  {
    ReadFrom(rs, 0, blkSz);
    assert rs[..0] == [] && rs[0..] == rs;
  }

  lemma {:induction false} SizedAt(rs: seq<Bytes>, i: nat)
    requires AllSized(rs) && i < |rs|
    ensures Sized(rs[i])
  {
  }

  lemma {:induction false} ReadNext(rs: seq<Bytes>, i: nat, blkSz: nat)
    requires blkSz >= 256 && AllSized(rs) && i < |rs|
    ensures var c := Closed(Written(rs, blkSz), blkSz);
            Read(c, |Written(rs[..i], blkSz)|, blkSz) == [rs[i]] + Read(c, |Written(rs[..i + 1], blkSz)|, blkSz)
  {
    hide Read, RoundUp, Padding, Place, StartOf, Closed, Written, StandsAt, Sized, AllSized;
    var d := Written(rs, blkSz);
    ClosedFacts(d, blkSz);
    RecordAt(rs, i, blkSz);
    SizedAt(rs, i);
    ReadOne(Closed(d, blkSz), d, |Written(rs[..i], blkSz)|, StartOf(rs, i, blkSz), rs[i], blkSz);
  }

  lemma {:induction false} ReadFrom(rs: seq<Bytes>, i: nat, blkSz: nat)
    requires blkSz >= 256 && AllSized(rs) && i <= |rs|
    ensures Read(Closed(Written(rs, blkSz), blkSz), |Written(rs[..i], blkSz)|, blkSz) == rs[i..]
    decreases |rs| - i
  {
    hide Read, RoundUp, Padding, Closed, Written;
    if i == |rs| {
      var d := Written(rs, blkSz);
      var c := Closed(d, blkSz);
      ClosedFacts(d, blkSz);
      assert rs[..i] == rs && rs[i..] == [];
      Skip(c, |d|, |c|, blkSz);
      ReadEnd(c, blkSz);
    } else {
      ReadFrom(rs, i + 1, blkSz);
      ReadNext(rs, i, blkSz);
      assert rs[i..] == [rs[i]] + rs[i + 1..];
    }
  }

  lemma {:induction false} ReadEnd(c: Bytes, blkSz: nat)
    requires blkSz > 0
    ensures Read(c, |c|, blkSz) == []
  {
  }

  lemma {:induction false} ReadOne(c: Bytes, d: Bytes, cur: nat, p: nat, r: Bytes, blkSz: nat)
    requires blkSz > 0 && Sized(r) && StandsAt(d, cur, p, r, blkSz) && |d| <= |c| && c[..|d|] == d
    ensures Read(c, cur, blkSz) == [r] + Read(c, p + |r|, blkSz)
  {
    hide RoundUp, Read;
    assert c[p..p + |r|] == d[p..p + |r|];
    assert forall k :: cur <= k < p ==> c[k] == d[k];
    Skip(c, cur, p, blkSz);
    Step(c, p, r, blkSz);
  }

  lemma {:induction false} ClosedFacts(d: Bytes, blkSz: nat)
    requires blkSz > 0
    ensures |Closed(d, blkSz)| == RoundUp(|d|, blkSz) >= |d| && Closed(d, blkSz)[..|d|] == d
    ensures forall k :: |d| <= k < |Closed(d, blkSz)| ==> Closed(d, blkSz)[k] == 0
  {
    RoundUpBounds(|d|, blkSz);
    hide RoundUp;
  }

  lemma {:induction false} Step(c: Bytes, p: nat, r: Bytes, blkSz: nat)
    requires blkSz > 0 && Sized(r) && p + |r| <= |c| && c[p..p + |r|] == r
    ensures Read(c, p, blkSz) == [r] + Read(c, p + |r|, blkSz)
  {
    assert c[p] == c[p..p + |r|][0];
  }

  /** Zeros up to a sector's end are skipped. */
  lemma {:induction false} Skip(c: Bytes, cur: nat, p: nat, blkSz: nat)
    requires blkSz > 0 && cur <= p <= |c|
    requires p == cur || (p == RoundUp(cur, blkSz) && forall k :: cur <= k < p ==> c[k] == 0)
    ensures Read(c, cur, blkSz) == Read(c, p, blkSz)
  {
    if p > cur {
      SectorEnd(cur, blkSz);
      assert c[cur] == 0;
    }
  }

  // ----- a whole directory -----

  datatype Item =
    | File(name: Bytes, date: Bytes, size: nat, extents: seq<(nat, nat)>)
    | Folder(name: Bytes, date: Bytes, lba: nat, length: nat)

  function Lengths(extents: seq<(nat, nat)>): seq<nat> {
    if extents == [] then [] else [extents[0].1] + Lengths(extents[1..])
  }

  /** The entries an item of a folder is listed by: one for a subfolder, one an extent for a file. */
  function Entries(item: Item): seq<Entry> {
    match item
    case Folder(name, date, lba, length) => [Entry(lba, length, date, FOLDER, name)]
    case File(name, date, size, extents) => FileEntries(name, date, size, extents)
  }

  function FileEntries(name: Bytes, date: Bytes, size: int, extents: seq<(nat, nat)>): seq<Entry>
    decreases extents
  {
    if extents == [] then [] else
    var (lba, n) := extents[0];
    [Entry(lba, (if size < n then size else n) % U32, date, if size <= n then 0 else CONTINUED, name)]
      + FileEntries(name, date, size - n, extents[1..])
  }

  function Listing(items: seq<Item>): seq<Entry> {
    if items == [] then [] else Listing(items[..|items| - 1]) + Entries(items[|items| - 1])
  }

  predicate AllFit(es: seq<Entry>) {
    forall i :: 0 <= i < |es| ==> Fits(es[i])
  }

  function Encoded(es: seq<Entry>): (rs: seq<Bytes>)
    requires AllFit(es)
    ensures |rs| == |es| && AllSized(rs)
  {
    if es == [] then [] else Encoded(es[..|es| - 1]) + [Encode(es[|es| - 1])]
  }

  /** What a reader makes of a directory. */
  function Decoded(rs: seq<Bytes>): seq<Entry> {
    if rs == [] then [] else
    var r := rs[|rs| - 1];
    Decoded(rs[..|rs| - 1]) + (if |r| > HEADER && HEADER + r[32] as int <= |r| then [Decode(r)] else [])
  }

  lemma {:induction false} DecodedMore(rs: seq<Bytes>, e: Entry)
    requires Fits(e)
    ensures Decoded(rs + [Encode(e)]) == Decoded(rs) + [e]
  {
    RecordRoundTrip(e);
    hide Encode, Decode, Fits, RecordSize;
    assert (rs + [Encode(e)])[..|rs|] == rs;
  }

  lemma {:induction false} EncodedLast(es: seq<Entry>)
    requires AllFit(es) && es != []
    ensures var init, e := es[..|es| - 1], es[|es| - 1];
            AllFit(init) && Fits(e) && Encoded(es) == Encoded(init) + [Encode(e)]
  {
    hide Encode, Fits;
  }

  lemma {:induction false} DecodedNone()
    ensures Encoded([]) == [] && Decoded([]) == []
  {
  }

  lemma {:induction false} DecodedEncoded(es: seq<Entry>)
    requires AllFit(es)
    ensures Decoded(Encoded(es)) == es
  {
    hide *;
    if es != [] {
      var init, e := es[..|es| - 1], es[|es| - 1];
      EncodedLast(es);
      DecodedEncoded(init);
      DecodedMore(Encoded(init), e);
      assert es == init + [e];
    } else {
      DecodedNone();
    }
  }

  /** Everything a directory lists: its own entry, its parent's, and the items. */
  function Listed(dot: Entry, dotdot: Entry, items: seq<Item>): (es: seq<Entry>)
    ensures Fits(dot) && Fits(dotdot) && AllFit(Listing(items)) ==> AllFit(es)
  {
    [dot, dotdot] + Listing(items)
  }

  /** The bytes of a directory. */
  function Directory(dot: Entry, dotdot: Entry, items: seq<Item>, blkSz: nat): Bytes
    requires blkSz > 0 && Fits(dot) && Fits(dotdot) && AllFit(Listing(items))
  {
    Closed(Written(Encoded(Listed(dot, dotdot, items)), blkSz), blkSz)
  }

  /** A reader finds exactly the entries listed, in order. */
  lemma {:induction false} DirectoryRead(dot: Entry, dotdot: Entry, items: seq<Item>, blkSz: nat)
    requires blkSz >= 256 && Fits(dot) && Fits(dotdot) && AllFit(Listing(items))
    ensures Decoded(Read(Directory(dot, dotdot, items, blkSz), 0, blkSz)) == Listed(dot, dotdot, items)
  {
    var es := Listed(dot, dotdot, items);
    DirectoryRoundTrip(Encoded(es), blkSz);
    DecodedEncoded(es);
  }

  predicate Matches(e: Entry, part: Part, lba: nat, name: Bytes, date: Bytes) {
    && e.lba == lba && e.name == name && e.date == date
    && e.length == part.length && e.flags == if part.continued then 0x80 else 0
  }

  lemma {:induction false} EntriesAreParts(name: Bytes, date: Bytes, size: int, extents: seq<(nat, nat)>)
    ensures var es, parts := FileEntries(name, date, size, extents), Parts(size, Lengths(extents));
            && |es| == |parts| == |extents|
            && forall i :: 0 <= i < |es| ==> Matches(es[i], parts[i], extents[i].0, name, date)
    decreases extents
  {
    if extents != [] {
      EntriesAreParts(name, date, size - extents[0].1, extents[1..]);
      var es, parts := FileEntries(name, date, size, extents), Parts(size, Lengths(extents));
      assert Matches(es[0], parts[0], extents[0].0, name, date);
      assert es[1..] == FileEntries(name, date, size - extents[0].1, extents[1..]);
      assert parts[1..] == Parts(size - extents[0].1, Lengths(extents[1..]));
      hide Matches, FileEntries, Parts, Lengths;
      forall i | 0 < i < |es| ensures Matches(es[i], parts[i], extents[i].0, name, date) {
        assert es[i] == es[1..][i - 1] && parts[i] == parts[1..][i - 1] && extents[i] == extents[1..][i - 1];
      }
    }
  }

  // ----- reading a file by its records -----

  /** The bytes a record names. */
  function Piece(image: Bytes, lba: nat, length: nat, blkSz: nat): Bytes {
    var from := AddressOf(lba, blkSz);
    if from + length <= |image| then image[from..from + length] else []
  }

  /** What a reader gets for a run of records: the bytes each one names, as long as they are continued. */
  function ReadFile(image: Bytes, es: seq<Entry>, blkSz: nat): Bytes {
    if es == [] then [] else
    Piece(image, es[0].lba, es[0].length, blkSz) + if es[0].flags == CONTINUED then ReadFile(image, es[1..], blkSz) else []
  }

  /** The image holds each extent where its record says. */
  predicate Extant(image: Bytes, extents: seq<(nat, nat)>, pieces: seq<Bytes>, blkSz: nat) {
    |pieces| == |extents| && forall i :: 0 <= i < |extents| ==> ExtantAt(image, extents[i], pieces[i], blkSz)
  }

  predicate ExtantAt(image: Bytes, extent: (nat, nat), piece: Bytes, blkSz: nat) {
    |piece| == extent.1 && AddressOf(extent.0, blkSz) + extent.1 <= |image| && Piece(image, extent.0, extent.1, blkSz) == piece
  }

  lemma {:induction false} PieceCut(image: Bytes, extent: (nat, nat), piece: Bytes, blkSz: nat, n: nat)
    requires ExtantAt(image, extent, piece, blkSz) && n <= extent.1
    ensures Piece(image, extent.0, n, blkSz) == piece[..n]
  {
    hide AddressOf;
  }

  /** The first record of a file, and its bytes. */
  lemma {:induction false} FirstPiece(image: Bytes, name: Bytes, date: Bytes, size: nat, extents: seq<(nat, nat)>, pieces: seq<Bytes>, blkSz: nat)
    requires extents != [] && Extant(image, extents, pieces, blkSz)
    requires size <= extents[0].1 ==> size < U32
    requires size > extents[0].1 ==> extents[0].1 < U32
    ensures var (lba, n) := extents[0];
            && |pieces[0]| == n && Extant(image, extents[1..], pieces[1..], blkSz)
            && ReadFile(image, FileEntries(name, date, size, extents), blkSz) ==
               if size <= n then pieces[0][..size] else pieces[0] + ReadFile(image, FileEntries(name, date, size - n, extents[1..]), blkSz)
  {
    var x, p := extents[0], pieces[0];
    var es, m := FileEntries(name, date, size, extents), if size <= x.1 then size else x.1;
    FileHead(name, date, size, extents);
    assert ExtantAt(image, x, p, blkSz);
    assert forall i :: 0 <= i < |extents| - 1 ==> extents[1..][i] == extents[i + 1] && pieces[1..][i] == pieces[i + 1];
    PieceCut(image, x, p, blkSz, m);
    hide Piece, FileEntries, ExtantAt;
    assert ReadFile(image, es, blkSz) == p[..m] + if es[0].flags == CONTINUED then ReadFile(image, es[1..], blkSz) else [];
    assert p[..|p|] == p && p[..m] + [] == p[..m];
  }

  lemma {:induction false} FileHead(name: Bytes, date: Bytes, size: nat, extents: seq<(nat, nat)>)
    requires extents != [] && (if size <= extents[0].1 then size else extents[0].1) < U32
    ensures var es, x := FileEntries(name, date, size, extents), extents[0];
            && es != [] && es[0].lba == x.0 && es[0].length == (if size <= x.1 then size else x.1)
            && (es[0].flags == CONTINUED <==> size > x.1) && es[1..] == FileEntries(name, date, size - x.1, extents[1..])
  {
  }

  /** Then a file that ends inside its last extent reads as its extents, cut at its size. */
  lemma {:induction false} FileReadBack(image: Bytes, name: Bytes, date: Bytes, size: nat, extents: seq<(nat, nat)>, pieces: seq<Bytes>, blkSz: nat)
    requires Extant(image, extents, pieces, blkSz) && EndsInLast(size, Lengths(extents))
    ensures size <= |Concat(pieces)|
    ensures ReadFile(image, FileEntries(name, date, size, extents), blkSz) == Concat(pieces)[..size]
    decreases extents
  {
    hide ReadFile, FileEntries, ExtantAt;
    var xs := Lengths(extents);
    LengthsCount(extents);
    assert extents != [] && xs[0] == extents[0].1 && |pieces| == |extents|;
    if |extents| == 1 {
      assert xs[1..] == [] && xs[..0] == [] && Sum(xs) == xs[0];
      FirstPiece(image, name, date, size, extents, pieces, blkSz);
      assert pieces[1..] == [];
      hide Lengths, Sum, Extant, EndsInLast;
      assert Concat(pieces) == pieces[0] + Concat([]);
    } else {
      EndsStep(size, xs);
      assert xs[1..] == Lengths(extents[1..]);
      hide Lengths, Sum, EndsInLast;
      FirstPiece(image, name, date, size, extents, pieces, blkSz);
      hide Extant;
      FileReadBack(image, name, date, size - xs[0], extents[1..], pieces[1..], blkSz);
      CutLater(pieces[0], Concat(pieces[1..]), size);
    }
  }

  lemma {:induction false} CutLater(a: Bytes, b: Bytes, size: nat)
    requires |a| <= size <= |a| + |b|
    ensures (a + b)[..size] == a[..|a|] + b[..size - |a|]
  {
  }

  lemma {:induction false} LengthsCount(extents: seq<(nat, nat)>)
    ensures |Lengths(extents)| == |extents|
  {
    if extents != [] { LengthsCount(extents[1..]); }
  }

  class DirBurner {
    const blkSz: nat
    var data: Bytes

    constructor (blkSz: nat)
      ensures data == [] && this.blkSz == blkSz
    {
      this.blkSz := blkSz;
      data := [];
    }

    /** The directory consists of these entries. */
    ghost predicate Wrote(es: seq<Entry>)
      reads this
    {
      blkSz > 0 && AllFit(es) && data == Written(Encoded(es), blkSz)
    }

    method WriteEntry(e: Entry)
      requires blkSz > 0 && Fits(e)
      modifies this
      ensures data == Placed(old(data), Encode(e), blkSz)
    {
      var pad := Padding(|data|, blkSz);
      var r := Encode(e);
      if |r| > pad { data := data + Zeros(pad); }
      data := data + r;
    }

    method AddEntry(e: Entry, ghost es: seq<Entry>)
      requires Wrote(es) && Fits(e)
      modifies this
      ensures Wrote(es + [e])
    {
      Append(es, e, blkSz);
      hide Encode, Encoded, Written, Placed, Fits;
      WriteEntry(e);
    }

    /** Lists a file: an entry for each extent, up to and past the end of the file. */
    method WriteFile(name: Bytes, date: Bytes, size: nat, extents: seq<(nat, nat)>, ghost es: seq<Entry>)
      requires Wrote(es) && AllFit(FileEntries(name, date, size, extents))
      modifies this
      ensures Wrote(es + FileEntries(name, date, size, extents))
    {
      var length: int := size;
      ghost var done := es;
      for i := 0 to |extents|
        invariant Wrote(done) && AllFit(FileEntries(name, date, length, extents[i..]))
        invariant done + FileEntries(name, date, length, extents[i..]) == es + FileEntries(name, date, size, extents)
      {
        FirstEntry(name, date, length, extents[i..], done);
        hide Wrote, FileEntries, AllFit, Fits;
        var (lba, n) := extents[i];
        var flags := if length <= n then 0 else CONTINUED;
        var e := Entry(lba, (if length < n then length else n) % U32, date, flags, name);
        assert extents[i..][1..] == extents[i + 1..];
        AddEntry(e, done);
        length := length - n;
        done := done + [e];
      }
      assert extents[|extents|..] == [] && FileEntries(name, date, length, []) == [];
      hide Wrote, AllFit;
      assert done + [] == done;
    }

    /** Lists a file or a subfolder. */
    method WriteItem(item: Item, ghost es: seq<Entry>)
      requires Wrote(es) && AllFit(Entries(item))
      modifies this
      ensures Wrote(es + Entries(item))
    {
      match item
      case Folder(name, date, lba, length) =>
        var e := Entry(lba, length, date, FOLDER, name);
        assert Entries(item)[0] == e;
        AddEntry(e, es);
      case File(name, date, size, extents) =>
        WriteFile(name, date, size, extents, es);
    }

    method WriteItems(items: seq<Item>, ghost es: seq<Entry>)
      requires Wrote(es) && AllFit(Listing(items))
      modifies this
      ensures Wrote(es + Listing(items))
    {
      ghost var done := es;
      assert Listing(items[..0]) == [] && es + [] == es;
      hide Wrote, AllFit, Entries, Listing;
      for i := 0 to |items|
        invariant done == es + Listing(items[..i]) && Wrote(done)
      {
        ListingMore(items, i, es);
        WriteItem(items[i], done);
        done := done + Entries(items[i]);
      }
      assert items[..|items|] == items;
    }

    /** Writes a directory: the two leading records without regard to sectors, then the listing. */
    method WriteDirectory(dot: Entry, dotdot: Entry, items: seq<Item>)
      requires blkSz >= 256 && Fits(dot) && Fits(dotdot) && AllFit(Listing(items)) && data == []
      requires |dot.name| == |dotdot.name| == 1
      modifies this
      ensures data == Directory(dot, dotdot, items, blkSz)
    {
      hide Encode, Encoded, Written, Fits, AllFit, RoundUp;
      LeadingRecords(dot, dotdot, blkSz);
      data := data + Encode(dot);
      data := data + Encode(dotdot);
      assert Wrote([dot, dotdot]);
      WriteItems(items, [dot, dotdot]);
      data := data + Zeros(Padding(|data|, blkSz));
    }
  }

  lemma {:induction false} AllFitParts(a: seq<Entry>, b: seq<Entry>)
    requires AllFit(a + b)
    ensures AllFit(a) && AllFit(b)
  {
    assert forall k :: 0 <= k < |a| ==> a[k] == (a + b)[k];
    assert forall k :: 0 <= k < |b| ==> b[k] == (a + b)[|a| + k];
  }

  lemma {:induction false} FirstEntry(name: Bytes, date: Bytes, size: int, extents: seq<(nat, nat)>, es: seq<Entry>)
    requires extents != [] && AllFit(FileEntries(name, date, size, extents))
    ensures var (lba, n) := extents[0];
            var e := Entry(lba, (if size < n then size else n) % U32, date, if size <= n then 0 else CONTINUED, name);
            && Fits(e) && AllFit(FileEntries(name, date, size - n, extents[1..]))
            && es + FileEntries(name, date, size, extents) == es + [e] + FileEntries(name, date, size - n, extents[1..])
  {
    var (lba, n) := extents[0];
    var e := Entry(lba, (if size < n then size else n) % U32, date, if size <= n then 0 else CONTINUED, name);
    var rest := FileEntries(name, date, size - n, extents[1..]);
    assert FileEntries(name, date, size, extents) == [e] + rest;
    hide FileEntries, Fits;
    AllFitParts([e], rest);
    assert AllFit([e]) ==> Fits([e][0]);
    assert es + ([e] + rest) == es + [e] + rest;
  }

  lemma {:induction false} ListingFits(items: seq<Item>, i: nat)
    requires i <= |items| && AllFit(Listing(items))
    ensures AllFit(Listing(items[..i]))
  {
    if i == |items| {
      assert items[..i] == items;
    } else {
      var init := items[..|items| - 1];
      AllFitParts(Listing(init), Entries(items[|items| - 1]));
      ListingFits(init, i);
      assert init[..i] == items[..i];
    }
  }

  lemma {:induction false} ListingPart(items: seq<Item>, i: nat)
    requires i < |items| && AllFit(Listing(items))
    ensures Listing(items[..i + 1]) == Listing(items[..i]) + Entries(items[i])
    ensures AllFit(Entries(items[i]))
  {
    assert items[..i + 1][..i] == items[..i];
    ListingFits(items, i + 1);
    AllFitParts(Listing(items[..i]), Entries(items[i]));
  }

  lemma {:induction false} ListingMore(items: seq<Item>, i: nat, es: seq<Entry>)
    requires i < |items| && AllFit(Listing(items))
    ensures es + Listing(items[..i + 1]) == es + Listing(items[..i]) + Entries(items[i])
    ensures AllFit(Entries(items[i]))
  {
    ListingPart(items, i);
    hide Listing, Entries, AllFit;
    assert es + (Listing(items[..i]) + Entries(items[i])) == es + Listing(items[..i]) + Entries(items[i]);
  }

  lemma {:induction false} Append(es: seq<Entry>, e: Entry, blkSz: nat)
    requires blkSz > 0 && AllFit(es) && Fits(e)
    ensures AllFit(es + [e])
    ensures Written(Encoded(es + [e]), blkSz) == Placed(Written(Encoded(es), blkSz), Encode(e), blkSz)
  {
    assert (es + [e])[..|es|] == es;
    assert (Encoded(es) + [Encode(e)])[..|es|] == Encoded(es);
  }

  lemma {:induction false} TwoRecords(a: Entry, b: Entry, blkSz: nat)
    requires blkSz > 0 && Fits(a) && Fits(b)
    ensures AllFit([a, b]) && Written(Encoded([a, b]), blkSz) == Placed(Placed([], Encode(a), blkSz), Encode(b), blkSz)
  {
    assert AllFit([]) && AllFit([a]) && Encoded([]) == [] && Written([], blkSz) == [];
    hide Encode, Encoded, Written, Fits, Placed;
    Append([], a, blkSz);
    Append([a], b, blkSz);
    assert [] + [a] == [a] && [a] + [b] == [a, b];
  }

  lemma {:induction false} LeadingRecords(dot: Entry, dotdot: Entry, blkSz: nat)
    requires blkSz >= 256 && Fits(dot) && Fits(dotdot) && |dot.name| == |dotdot.name| == 1
    ensures AllFit([dot, dotdot]) && Written(Encoded([dot, dotdot]), blkSz) == Encode(dot) + Encode(dotdot)
  {
    assert |Encode(dot)| == 34 == |Encode(dotdot)|;
    hide Encode, Encoded, Written, Fits, AllFit;
    TwoRecords(dot, dotdot, blkSz);
    assert Padding(0, blkSz) == 0 by { RoundUpAligned(0, blkSz); }
    assert Padding(34, blkSz) >= 34 by { NoRoom(blkSz); }
    hide Padding, RoundUp;
    assert Placed([], Encode(dot), blkSz) == Encode(dot);
  }

  lemma {:induction false} NoRoom(blkSz: nat)
    requires blkSz >= 68
    ensures RoundUp(34, blkSz) == blkSz
  {
    assert 34 + blkSz - 1 == 1 * blkSz + 33;
    Quotient(1, 33, blkSz);
  }

  // ----- fixups -----

  /** What records add to a directory of `n` bytes. */
  function Added(n: nat, rs: seq<Bytes>, blkSz: nat): Bytes
    requires blkSz > 0
    decreases |rs|
  {
    if rs == [] then [] else
    var gap := Gap(n, |rs[0]|, blkSz);
    Zeros(gap) + rs[0] + Added(n + gap + |rs[0]|, rs[1..], blkSz)
  }

  function Gap(n: nat, record: nat, blkSz: nat): nat
    requires blkSz > 0
  {
    if record > Padding(n, blkSz) then Padding(n, blkSz) else 0
  }

  lemma {:induction false} WrittenThen(a: seq<Bytes>, rs: seq<Bytes>, blkSz: nat)
    requires blkSz > 0
    ensures Written(a + rs, blkSz) == Written(a, blkSz) + Added(|Written(a, blkSz)|, rs, blkSz)
    decreases |rs|
  {
    hide RoundUp;
    if rs == [] {
      assert a + rs == a;
    } else {
      var b, w := a + [rs[0]], Written(a, blkSz);
      assert a + rs == b + rs[1..];
      assert Written(b, blkSz) == Placed(w, rs[0], blkSz) by { assert b[..|a|] == a; }
      hide Written;
      WrittenThen(b, rs[1..], blkSz);
      OneAdded(w, rs, blkSz);
    }
  }

  lemma {:induction false} PlacedIs(w: Bytes, r: Bytes, blkSz: nat)
    requires blkSz > 0
    ensures Placed(w, r, blkSz) == w + Zeros(Gap(|w|, |r|, blkSz)) + r
  {
    hide RoundUp;
    if |r| <= Padding(|w|, blkSz) { assert w + Zeros(0) == w; }
  }

  lemma {:induction false} OneAdded(w: Bytes, rs: seq<Bytes>, blkSz: nat)
    requires blkSz > 0 && rs != []
    ensures var d := Placed(w, rs[0], blkSz); d + Added(|d|, rs[1..], blkSz) == w + Added(|w|, rs, blkSz)
  {
    PlacedIs(w, rs[0], blkSz);
    hide Placed, Gap, Zeros;
    var d, z := Placed(w, rs[0], blkSz), Zeros(Gap(|w|, |rs[0]|, blkSz));
    assert |d| == |w| + |z| + |rs[0]|;
    Grouped(w, z, rs[0], Added(|d|, rs[1..], blkSz));
  }

  lemma {:induction false} Grouped(a: Bytes, b: Bytes, c: Bytes, d: Bytes)
    ensures a + b + c + d == a + (b + c + d)
  {
  }

  lemma {:induction false} AllFitTogether(a: seq<Entry>, es: seq<Entry>)
    requires AllFit(a) && AllFit(es)
    ensures AllFit(a + es) && forall n :: 0 <= n <= |es| ==> AllFit(es[..n])
    ensures forall i :: 0 <= i < |es| ==> Fits(es[i])
  {
    hide Fits;
  }

  lemma {:induction false} EncodedThen(a: seq<Entry>, es: seq<Entry>)
    requires AllFit(a) && AllFit(es)
    ensures AllFit(a + es) && Encoded(a + es) == Encoded(a) + Encoded(es)
  {
    hide Encode, Fits, AllFit;
    AllFitTogether(a, es);
    if es == [] {
      assert a + es == a && Encoded(es) == [];
    } else {
      var init, e := es[..|es| - 1], es[|es| - 1];
      EncodedThen(a, init);
      assert (a + es)[..|a + es| - 1] == a + init && (a + es)[|a + es| - 1] == e;
      assert Encoded(a + es) == Encoded(a + init) + [Encode(e)];
      assert Encoded(es) == Encoded(init) + [Encode(e)];
      hide Encoded;
    }
  }

  lemma {:induction false} WrittenListed(dot: Entry, dotdot: Entry, es: seq<Entry>, blkSz: nat)
    requires blkSz >= 256 && Fits(dot) && Fits(dotdot) && AllFit(es) && |dot.name| == |dotdot.name| == 1
    ensures |Encode(dot)| == |Encode(dotdot)| == 34 && AllFit([dot, dotdot] + es)
    ensures Written(Encoded([dot, dotdot] + es), blkSz) == Encode(dot) + Encode(dotdot) + Added(68, Encoded(es), blkSz)
  {
    assert |Encode(dot)| == 34 == |Encode(dotdot)|;
    hide Encode, Encoded, Written, Added, Fits, AllFit;
    LeadingRecords(dot, dotdot, blkSz);
    EncodedThen([dot, dotdot], es);
    WrittenThen(Encoded([dot, dotdot]), Encoded(es), blkSz);
  }

  /** A directory is its two leading records and a rest that does not depend on what they say. */
  lemma {:induction false} DirectoryIs(dot: Entry, dotdot: Entry, items: seq<Item>, blkSz: nat)
    requires blkSz >= 256 && Fits(dot) && Fits(dotdot) && AllFit(Listing(items)) && |dot.name| == |dotdot.name| == 1
    ensures |Encode(dot)| == |Encode(dotdot)| == 34
    ensures Directory(dot, dotdot, items, blkSz) == Encode(dot) + Encode(dotdot) + Rest(items, blkSz)
  {
    hide Encode, Encoded, Written, Added, Listing, Padding, Fits, AllFit;
    var es := Listing(items);
    WrittenListed(dot, dotdot, es, blkSz);
    var lead, rest := Encode(dot) + Encode(dotdot), Added(68, Encoded(es), blkSz);
    assert |lead + rest| == 68 + |rest|;
    assert Directory(dot, dotdot, items, blkSz) == lead + rest + Zeros(Padding(68 + |rest|, blkSz));
  }

  function Rest(items: seq<Item>, blkSz: nat): Bytes
    requires blkSz > 0 && AllFit(Listing(items))
  {
    var rest := Added(68, Encoded(Listing(items)), blkSz);
    rest + Zeros(Padding(68 + |rest|, blkSz))
  }

  /** `Later::Store`: bytes written over a part of a directory. */
  function Stored(data: Bytes, at: nat, b: Bytes): Bytes
    requires at + |b| <= |data|
  {
    data[..at] + b + data[at + |b|..]
  }

  /** Storing a new dot-dot record gives the directory that would have been written with it. */
  lemma {:induction false} DotDotStored(dot: Entry, dotdot: Entry, actual: Entry, items: seq<Item>, blkSz: nat)
    requires blkSz >= 256 && Fits(dot) && Fits(dotdot) && Fits(actual) && AllFit(Listing(items))
    requires |dot.name| == |dotdot.name| == |actual.name| == 1
    ensures var d := Directory(dot, dotdot, items, blkSz);
            34 + |Encode(actual)| <= |d| && Stored(d, 34, Encode(actual)) == Directory(dot, actual, items, blkSz)
  {
    hide Encode, Rest, Directory, Fits, AllFit;
    DirectoryIs(dot, dotdot, items, blkSz);
    DirectoryIs(dot, actual, items, blkSz);
    StoredIn(Encode(dot), Encode(dotdot), Rest(items, blkSz), Encode(actual));
  }

  lemma {:induction false} StoredIn(a: Bytes, b: Bytes, c: Bytes, n: Bytes)
    requires |b| == |n|
    ensures Stored(a + b + c, |a|, n) == a + n + c
  {
    assert (a + b + c)[..|a|] == a && (a + b + c)[|a| + |b|..] == c;
  }

  /** So does storing the directory's own length, in both byte orders, once it is known. */
  lemma {:induction false} LengthStored(dot: Entry, dotdot: Entry, n: nat, items: seq<Item>, blkSz: nat)
    requires blkSz >= 256 && Fits(dot) && Fits(dotdot) && n < U32 && AllFit(Listing(items))
    requires |dot.name| == |dotdot.name| == 1
    ensures var d := Directory(dot, dotdot, items, blkSz);
            18 <= |d| && Stored(d, 10, Both32(n)) == Directory(dot.(length := n), dotdot, items, blkSz)
  {
    var actual := dot.(length := n);
    hide Encode, Rest, Directory, Both32;
    DirectoryIs(dot, dotdot, items, blkSz);
    DirectoryIs(actual, dotdot, items, blkSz);
    var head, tail := LengthField(dot, n);
    var rest := Encode(dotdot) + Rest(items, blkSz);
    hide Fits, AllFit;
    assert Encode(dot) + Encode(dotdot) + Rest(items, blkSz) == head + Both32(dot.length) + (tail + rest);
    assert Encode(actual) + Encode(dotdot) + Rest(items, blkSz) == head + Both32(n) + (tail + rest);
    StoredIn(head, Both32(dot.length), tail + rest, Both32(n));
  }

  lemma {:induction false} LengthField(e: Entry, n: nat) returns (head: Bytes, tail: Bytes)
    requires Fits(e) && n < U32
    ensures |head| == 10 && Encode(e) == head + Both32(e.length) + tail && Encode(e.(length := n)) == head + Both32(n) + tail
  {
    hide RecordSize, Both32;
    head := [RecordSize(|e.name|), 0] + Both32(e.lba);
    tail := e.date + [e.flags, 0, 0, 1, 0, 0, 1, |e.name|] + e.name + Zeros(RecordSize(|e.name|) - HEADER - |e.name|);
    assert Encode(e) == head + Both32(e.length) + tail;
    assert Encode(e.(length := n)) == head + Both32(n) + tail;
  }
}
