/** How a generated medium is written (`RuleMedium::writeToFd`): chunk by chunk through one reused
    buffer, then the amendments on top. In table entries, as `VFatMedium` uses it. */
module RuleMedium {
  import opened FatTable
  import opened FatChains

  /** What the rule generates for entry `i`. */
  function Rule(sparse: bool, i: nat): nat {
    if sparse then 0 else (i + 1) % WORD
  }

  /** The scalar `fill`: one entry at a time. */
  method FillScalar(chunk: array<nat>, offset: nat, size: nat)
    requires size <= chunk.Length
    modifies chunk
    ensures forall i :: 0 <= i < size ==> chunk[i] == Rule(false, offset + i)
    ensures forall i :: size <= i < chunk.Length ==> chunk[i] == old(chunk[i])
  {
    var startVal := offset % WORD;
    for i := 0 to size
      invariant startVal == (offset + i) % WORD
      invariant forall j :: 0 <= j < i ==> chunk[j] == Rule(false, offset + j)
      invariant forall j :: i <= j < chunk.Length ==> chunk[j] == old(chunk[j])
    {
      startVal := (startVal + 1) % WORD;
      chunk[i] := startVal;
    }
  }

  /** One lane of the vector addition. */
  function PlusFour(q: nat): nat {
    (q + 4) % WORD
  }

  lemma {:induction false} Lanes(i: nat)
    ensures PlusFour(Rule(false, i)) == Rule(false, i + 4)
  {}

  /** The end of the last quad of a part of that size. */
  function QuadUp(size: nat): (q: nat)
    ensures size <= q < size + 4
  {
    (size + 3) / 4 * 4
  }

  lemma {:induction false} QuadRoom(k: nat, size: nat)
    requires 4 * k < size
    ensures 4 * (k + 1) <= QuadUp(size)
  {}

  lemma {:induction false} QuadFits(size: nat, length: nat)
    requires size <= length && length % 4 == 0
    ensures QuadUp(size) <= length
  {}

  lemma {:induction false} QuadEnd(k: nat, size: nat)
    requires size <= 4 * k <= QuadUp(size)
    ensures 4 * k == QuadUp(size)
  {}

  /** One vector store. */
  method StoreQuad(chunk: array<nat>, at: nat, q0: nat, q1: nat, q2: nat, q3: nat)
    requires at + 4 <= chunk.Length
    modifies chunk
    ensures chunk[..] == old(chunk[..at]) + [q0, q1, q2, q3] + old(chunk[at + 4..])
  {
    chunk[at], chunk[at + 1], chunk[at + 2], chunk[at + 3] := q0, q1, q2, q3;
  }

  /** The first `n` entries are the rule's, the others are as they were. */
  predicate Filled(s: seq<nat>, was: seq<nat>, offset: nat, n: nat) {
    && |s| == |was| && n <= |s|
    && (forall j :: 0 <= j < n ==> s[j] == Rule(false, offset + j))
    && s[n..] == was[n..]
  }

  lemma {:induction false} FilledMore(s: seq<nat>, was: seq<nat>, offset: nat, n: nat, t: seq<nat>)
    requires Filled(s, was, offset, n) && n + 4 <= |s|
    requires var quad := [Rule(false, offset + n), Rule(false, offset + n + 1), Rule(false, offset + n + 2), Rule(false, offset + n + 3)];
             t == s[..n] + quad + s[n + 4..]
    ensures Filled(t, was, offset, n + 4)
  {
    hide Rule;
    assert s[n + 4..] == s[n..][4..] == was[n..][4..] == was[n + 4..];
    forall j | 0 <= j < n + 4 ensures t[j] == Rule(false, offset + j) { assert n <= j ==> j == n || j == n + 1 || j == n + 2 || j == n + 3; }
  }

  /** The vectorized `fill`: four lanes at a time, up to the end of the last quad. */
  method FillVector(chunk: array<nat>, offset: nat, size: nat)
    requires QuadUp(size) <= chunk.Length
    modifies chunk
    ensures Filled(chunk[..], old(chunk[..]), offset, QuadUp(size))
  {
    hide Rule, QuadUp, PlusFour, Filled;
    var q0, q1, q2, q3 := FirstQuad(offset);
    var i := 0;
    ghost var k: nat, was := 0, chunk[..];
    NothingFilled(was, offset);
    QuadRest(size);
    while i < size
      invariant i == 4 * k && i <= QuadUp(size)
      invariant q0 == Rule(false, offset + i) && q1 == Rule(false, offset + i + 1)
      invariant q2 == Rule(false, offset + i + 2) && q3 == Rule(false, offset + i + 3)
      invariant Filled(chunk[..], was, offset, i)
    {
      ghost var before := chunk[..];
      Lanes(offset + i);
      Lanes(offset + i + 1);
      Lanes(offset + i + 2);
      Lanes(offset + i + 3);
      QuadRoom(k, size);
      StoreQuad(chunk, i, q0, q1, q2, q3);
      FilledMore(before, was, offset, i, chunk[..]);
      q0, q1, q2, q3 := PlusFour(q0), PlusFour(q1), PlusFour(q2), PlusFour(q3);
      i := i + 4;
      k := k + 1;
    }
    QuadEnd(k, size);
  }

  method FirstQuad(startVal: nat) returns (q0: nat, q1: nat, q2: nat, q3: nat)
    ensures q0 == Rule(false, startVal) && q1 == Rule(false, startVal + 1)
    ensures q2 == Rule(false, startVal + 2) && q3 == Rule(false, startVal + 3)
  {
    q0, q1, q2, q3 := (startVal + 1) % WORD, (startVal + 2) % WORD, (startVal + 3) % WORD, (startVal + 4) % WORD;
  }

  lemma {:induction false} NothingFilled(was: seq<nat>, offset: nat)
    ensures Filled(was, was, offset, 0)
  {
  }

  lemma {:induction false} QuadRest(size: nat)
    ensures size <= QuadUp(size)
  {
  }

  /** `VFatMedium::fill`. A sparse table zeroes the buffer in the first chunk of the medium only. */
  method Fill(sparse: bool, lanes: nat, chunk: array<nat>, offset: nat, size: nat)
    requires lanes == 1 || (lanes == 4 && chunk.Length % 4 == 0)
    requires size <= chunk.Length
    modifies chunk
    ensures !sparse || offset == 0 ==> forall i :: 0 <= i < size ==> chunk[i] == Rule(sparse, offset + i)
    ensures sparse && offset > 0 ==> chunk[..] == old(chunk[..])
  {
    if sparse {
      if offset == 0 {
        for i := 0 to size
          invariant forall j :: 0 <= j < i ==> chunk[j] == 0
        {
          chunk[i] := 0;
        }
      }
    } else if lanes == 4 {
      QuadFits(size, chunk.Length);
      FillVector(chunk, offset, size);
    } else {
      FillScalar(chunk, offset, size);
    }
  }

  function RuleTable(sparse: bool, n: nat): (t: seq<nat>)
    ensures |t| == n && forall i :: 0 <= i < n ==> t[i] == Rule(sparse, i)
  {
    seq(n, i requires 0 <= i => Rule(sparse, i))
  }

  /** A part of the medium as the rule generates it; a sparse part that does not begin at the start of
      the medium is whatever was in the buffer. */
  predicate Generated(sparse: bool, offset: nat, t: seq<nat>) {
    !sparse || offset == 0 ==> forall i :: 0 <= i < |t| ==> t[i] == Rule(sparse, offset + i)
  }

  /** The chunk loop, over a range of the medium. */
  method WriteChunks(sparse: bool, lanes: nat, chunkSize: nat, offset: nat, length: nat) returns (out: seq<nat>)
    requires chunkSize > 0 && (lanes == 1 || (lanes == 4 && chunkSize % 4 == 0))
    ensures |out| == length && Generated(sparse, offset, out)
  {
    var chunk := new nat[chunkSize];
    out := [];
    var next, last := offset, offset + length;
    while next < last
      invariant offset <= next && |out| == if next <= last then next - offset else length
      invariant Generated(sparse, offset, out)
      invariant sparse && offset == 0 && next > 0 ==> forall i :: 0 <= i < chunkSize && i < length ==> chunk[i] == 0
      decreases last - next
    {
      var part := if last - next < chunkSize then last - next else chunkSize;
      Fill(sparse, lanes, chunk, next, part);
      out := out + chunk[..part];
      next := next + chunkSize;
    }
  }

  // ----- amendments -----

  /** An amendment is one entry, or the two reserved ones at the start. */
  predicate Fits(a: Amendments) {
    forall k :: k in a ==> |a[k]| == 1 || (k == 0 && |a[k]| == 2)
  }

  /** The entries amended, and what with: the second reserved one may have an amendment of its own. */
  predicate Amended(a: Amendments, k: nat) {
    k in a || (k == 1 && 0 in a && |a[0]| == 2)
  }

  function Amendment(a: Amendments, k: nat): nat
    requires Fits(a) && Amended(a, k)
  {
    if k in a then a[k][0] else a[0][1]
  }

  /** A table with all amendments written over it. */
  function Overlaid(t: seq<nat>, a: Amendments): (o: seq<nat>)
    requires Fits(a)
    ensures |o| == |t|
  {
    seq(|t|, i requires 0 <= i < |t| => if Amended(a, i) then Amendment(a, i) else t[i])
  }

  /** A word of the target; past its end there are only zeros. */
  function WordAt(disk: seq<nat>, i: nat): nat {
    if i < |disk| then disk[i] else 0
  }

  /** Writing words at a position of the target, which grows where it has to. */
  function Put(disk: seq<nat>, at: nat, words: seq<nat>): (d: seq<nat>)
    ensures |d| == if words == [] || at + |words| <= |disk| then |disk| else at + |words|
    ensures forall i :: 0 <= i < |d| ==> d[i] == if at <= i < at + |words| then words[i - at] else WordAt(disk, i)
  {
    seq(if words == [] || at + |words| <= |disk| then |disk| else at + |words|,
        i requires 0 <= i => if at <= i < at + |words| then words[i - at] else WordAt(disk, i))
  }

  /** All amendments are in place, counted from the base on, the rest of the target is as it was, and it
      is no longer than they need. */
  ghost predicate AmendedTo(disk: seq<nat>, base: nat, a: Amendments, d: seq<nat>)
    requires Fits(a)
  {
    && |d| >= |disk|
    && (forall i: nat :: i < |d| ==> d[i] == if i >= base && Amended(a, i - base) then Amendment(a, i - base) else WordAt(disk, i))
    && (forall k: nat :: Amended(a, k) ==> base + k < |d|)
    && (|d| == |disk| || (|d| > base && Amended(a, |d| - 1 - base)))
  }

  function Below(a: Amendments, n: nat): Amendments {
    map k | k in a && k < n :: a[k]
  }

  /** Amendments in the order of their offsets, each written where it belongs from the base on. */
  method Amend(disk: seq<nat>, base: nat, a: Amendments, n: nat) returns (d: seq<nat>)
    requires Fits(a) && forall k :: k in a ==> k < n
    ensures AmendedTo(disk, base, a, d)
  {
    d := disk;
    assert Below(a, 0) == map[];
    for k := 0 to n
      invariant Fits(Below(a, k)) && AmendedTo(disk, base, Below(a, k), d)
    {
      BelowNext(a, k);
      if k in a {
        AmendedMore(disk, base, Below(a, k), d, k, a[k]);
        d := Put(d, base + k, a[k]);
      }
      hide AmendedTo;
    }
    assert Below(a, n) == a;
  }

  lemma {:induction false} BelowNext(a: Amendments, k: nat)
    requires Fits(a)
    ensures Fits(Below(a, k)) && Fits(Below(a, k + 1))
    ensures Below(a, k + 1) == if k in a then Below(a, k)[k := a[k]] else Below(a, k)
    ensures forall j :: j in Below(a, k) ==> j < k
    ensures k in a ==> |a[k]| == 1 || (k == 0 && |a[k]| == 2)
  {
  }

  lemma {:induction false} AmendedMore(disk: seq<nat>, base: nat, a: Amendments, d: seq<nat>, k: nat, words: seq<nat>)
    requires Fits(a) && AmendedTo(disk, base, a, d) && (forall j :: j in a ==> j < k)
    requires |words| == 1 || (k == 0 && |words| == 2)
    ensures Fits(a[k := words]) && AmendedTo(disk, base, a[k := words], Put(d, base + k, words))
  {
    var b, e := a[k := words], Put(d, base + k, words);
    hide Put;
    forall i: nat | i < |e|
      ensures e[i] == if i >= base && Amended(b, i - base) then Amendment(b, i - base) else WordAt(disk, i)
    {
      if i >= base { assert Amended(b, i - base) <==> Amended(a, i - base) || k <= i - base < k + |words|; }
    }
    assert |e| > |d| ==> Amended(b, |e| - 1 - base);
  }

  /** What a word of the target is after a range has been written from `base` on. Amendments are placed
      from there too, wherever in the medium the range lies, and whether the range reaches them or not. */
  predicate WrittenAt(sparse: bool, offset: nat, length: nat, a: Amendments, disk: seq<nat>, base: nat, i: nat, word: nat)
    requires Fits(a)
  {
    if i >= base && Amended(a, i - base) then word == Amendment(a, i - base)
    else if base <= i < base + length then !sparse || offset == 0 ==> word == Rule(sparse, offset + (i - base))
    else word == WordAt(disk, i)
  }

  ghost predicate Written(sparse: bool, offset: nat, length: nat, a: Amendments, disk: seq<nat>, base: nat, d: seq<nat>)
    requires Fits(a)
  {
    && |d| >= |disk| && (length > 0 ==> base + length <= |d|)
    && (forall i: nat :: i < |d| ==> WrittenAt(sparse, offset, length, a, disk, base, i, d[i]))
    && (|d| == |disk| || |d| == base + length || (|d| > base && Amended(a, |d| - 1 - base)))
    && (forall k: nat :: Amended(a, k) ==> base + k < |d|)
  }

  /** `writeToFd`, for a range of a medium of `n` entries: the target afterwards. */
  method WriteToFd(sparse: bool, lanes: nat, chunkSize: nat, a: Amendments, n: nat, offset: nat, length: nat, disk: seq<nat>, base: nat)
    returns (d: seq<nat>)
    requires chunkSize > 0 && (lanes == 1 || (lanes == 4 && chunkSize % 4 == 0)) && Fits(a) && forall k :: k in a ==> k < n
    ensures Written(sparse, offset, length, a, disk, base, d)
  {
    hide Rule, AmendedTo, Put, Written, Generated, Fits;
    var words := WriteChunks(sparse, lanes, chunkSize, offset, length);
    d := Amend(Put(disk, base, words), base, a, n);
    WrittenIs(sparse, offset, words, a, disk, base, d);
  }

  lemma {:induction false} WrittenIs(sparse: bool, offset: nat, words: seq<nat>, a: Amendments, disk: seq<nat>, base: nat, d: seq<nat>)
    requires Fits(a) && Generated(sparse, offset, words) && AmendedTo(Put(disk, base, words), base, a, d)
    ensures Written(sparse, offset, |words|, a, disk, base, d)
  {
    hide Rule;
    forall i: nat | i < |d| ensures WrittenAt(sparse, offset, |words|, a, disk, base, i, d[i]) { }
  }

  /** The whole medium. */
  function Words(sparse: bool, n: nat, a: Amendments): (w: seq<nat>)
    requires Fits(a)
    ensures |w| == n
  {
    Overlaid(RuleTable(sparse, n), a)
  }

  lemma {:induction false} TableFits(sparse: bool, n: nat, segs: seq<Seg>)
    requires n > SEEDCLS && WellPlaced(segs, n)
    ensures Fits(Table(sparse, n, segs)) && forall k :: k in Table(sparse, n, segs) ==> k < n
    ensures var a := Table(sparse, n, segs); 0 in a && a[0] == FLAGS
    ensures var a := Table(sparse, n, segs); 1 in a ==> exists j :: 0 <= j < |segs| && a[1] == [segs[j].next] && segs[j].last == 1
  {
    if segs != [] {
      TableStep(sparse, n, segs);
      PlacedInit(segs, n);
      var init, s := segs[..|segs| - 1], segs[|segs| - 1];
      TableFits(sparse, n, init);
      assert SEEDCLS <= s.first <= s.last + 1;
      var a, b := Table(sparse, n, init), Table(sparse, n, segs);
      hide Table, WellPlaced;
      FitsMore(sparse, a, s);
      if 1 in b {
        if s.last == 1 {
          assert b[1] == [segs[|segs| - 1].next] && segs[|segs| - 1].last == 1;
        } else {
          var j :| 0 <= j < |init| && a[1] == [init[j].next] && init[j].last == 1;
          assert init[j] == segs[j];
        }
      }
    }
  }

  lemma {:induction false} FitsMore(sparse: bool, a: Amendments, s: Seg)
    requires Fits(a) && 0 in a && SEEDCLS <= s.first <= s.last + 1
    ensures var b := Entered(sparse, a, s);
            Fits(b) && (forall k :: k in b ==> k in a || k <= s.last || k < s.first) && 0 in b && b[0] == a[0] && (s.last != 1 && 1 in b ==> 1 in a && b[1] == a[1]) && (s.last == 1 ==> 1 in b && b[1] == [s.next])
  {
  }

  /** What is written, whatever the chunk size, is the table a host should read. */
  lemma {:induction false} WrittenHolds(sparse: bool, n: nat, segs: seq<Seg>)
    requires SEEDCLS < n < WORD && WellPlaced(segs, n)
    ensures Fits(Table(sparse, n, segs))
    ensures Holds(Words(sparse, n, Table(sparse, n, segs)), sparse, n, segs)
  {
    TableFits(sparse, n, segs);
    var a := Table(sparse, n, segs);
    hide Table;
    forall i: nat | SEEDCLS <= i < n ensures Words(sparse, n, a)[i] == Entry(sparse, a, i) { EntryWord(sparse, n, a, i); }
  }

  /** The target with something written into it. */
  function Spliced(disk: seq<nat>, base: nat, words: seq<nat>): seq<nat>
    requires base <= |disk|
  {
    disk[..base] + words + (if base + |words| <= |disk| then disk[base + |words|..] else [])
  }

  /** Written as a whole, the medium comes out as it should, and what is before and after it in the
      target stays. */
  lemma {:induction false} WrittenWhole(sparse: bool, n: nat, a: Amendments, disk: seq<nat>, base: nat, d: seq<nat>)
    requires Fits(a) && n > 1 && (forall k :: k in a ==> k < n) && base <= |disk| && Written(sparse, 0, n, a, disk, base, d)
    ensures d == Spliced(disk, base, Words(sparse, n, a))
  {
    hide Rule;
    var e := Spliced(disk, base, Words(sparse, n, a));
    forall i: nat | i < |d| && i < |e| ensures d[i] == e[i] { assert WrittenAt(sparse, 0, n, a, disk, base, i, d[i]); }
  }

  /** The words of a range written from its start. */
  lemma {:induction false} WrittenPart(sparse: bool, n: nat, a: Amendments, length: nat, disk: seq<nat>, base: nat, d: seq<nat>)
    requires Fits(a) && 0 < length <= n && Written(sparse, 0, length, a, disk, base, d)
    ensures d[base..base + length] == Words(sparse, n, a)[..length]
  {
    hide Rule;
    forall i: nat | i < length ensures d[base + i] == Words(sparse, n, a)[i] {
      assert WrittenAt(sparse, 0, length, a, disk, base, base + i, d[base + i]);
    }
  }

  /** A range of a table begins with the first reserved entry, wherever it lies in it. */
  lemma {:induction false} WrittenFirst(sparse: bool, a: Amendments, offset: nat, length: nat, disk: seq<nat>, base: nat, d: seq<nat>)
    requires Fits(a) && 0 in a && length > 0 && Written(sparse, offset, length, a, disk, base, d)
    ensures |d| >= base + length && d[base..base + length][0] == a[0][0]
  {
    hide Rule;
    assert WrittenAt(sparse, offset, length, a, disk, base, base, d[base]);
  }

  /** Every link is a cluster of the table or the end mark. */
  predicate LinksFit(segs: seq<Seg>, n: nat) {
    forall j :: 0 <= j < |segs| ==> segs[j].next <= n || segs[j].next == ENDMARK
  }

  /** A range of an allocation table is written as it should be exactly when it begins at the start of
      the table: anywhere else it begins with the reserved entries instead of its own. */
  lemma {:induction false} RangeWritten(sparse: bool, n: nat, segs: seq<Seg>, offset: nat, length: nat, disk: seq<nat>, base: nat, d: seq<nat>)
    requires SEEDCLS < n < 0x0fff_fff8 && WellPlaced(segs, n) && LinksFit(segs, n)
    requires 0 < length && offset + length <= n
    requires Fits(Table(sparse, n, segs)) && Written(sparse, offset, length, Table(sparse, n, segs), disk, base, d)
    ensures |d| >= base + length
    ensures d[base..base + length] == Words(sparse, n, Table(sparse, n, segs))[offset..offset + length] <==> offset == 0
  {
    TableFits(sparse, n, segs);
    hide Rule, Table, WellPlaced, Written, Words;
    var a := Table(sparse, n, segs);
    var w := Words(sparse, n, a);
    WrittenFirst(sparse, a, offset, length, disk, base, d);
    assert w[offset..offset + length][0] == w[offset];
    if offset > 0 {
      WordOther(sparse, n, segs, offset);
    } else {
      WrittenPart(sparse, n, a, length, disk, base, d);
    }
  }

  /** No entry but the first looks like the media type. */
  lemma {:induction false} WordOther(sparse: bool, n: nat, segs: seq<Seg>, i: nat)
    requires SEEDCLS < n < 0x0fff_fff8 && WellPlaced(segs, n) && LinksFit(segs, n) && 0 < i < n
    ensures Fits(Table(sparse, n, segs))
    ensures Words(sparse, n, Table(sparse, n, segs))[i] != FLAGS[0]
  {
    TableFits(sparse, n, segs);
    var a := Table(sparse, n, segs);
    hide Table, WellPlaced;
    if i == 1 {
      if 1 in a { var j :| 0 <= j < |segs| && a[1] == [segs[j].next]; }
    } else {
      EntrySmall(sparse, n, segs, i);
      EntryWord(sparse, n, a, i);
    }
  }

  lemma {:induction false} EntryWord(sparse: bool, n: nat, a: Amendments, i: nat)
    requires Fits(a) && SEEDCLS <= i < n < WORD
    ensures Words(sparse, n, a)[i] == Entry(sparse, a, i)
  {
  }

  /** No entry of a data cluster looks like the media type. */
  lemma {:induction false} EntrySmall(sparse: bool, n: nat, segs: seq<Seg>, i: nat)
    requires SEEDCLS < n < 0x0fff_fff8 && LinksFit(segs, n) && SEEDCLS <= i < n
    ensures Entry(sparse, Table(sparse, n, segs), i) != FLAGS[0]
  {
    hide Table;
    if i in Table(sparse, n, segs) { var j := OnlyLinks(sparse, n, segs, i); }
  }

  /** The links of chains are clusters. */
  lemma {:induction false} ChainLinksFit(chains: seq<seq<Run>>, n: nat)
    requires Laid(chains, n)
    ensures LinksFit(AllLinks(chains), n)
  {
    var segs := AllLinks(chains);
    forall j | 0 <= j < |segs| ensures segs[j].next <= n || segs[j].next == ENDMARK { var f, i := LinkOrigin(chains, j); }
  }

  /** From the files of a volume to the words of its table, and back: the table is put into the target
      without touching anything else there, and a host that follows it from the first cluster of file
      `f` visits the clusters of the file, and finds its end, if and only if no extent of it loses its
      link. */
  method BuildFat(sparse: bool, lanes: nat, n: nat, chains: seq<seq<Run>>, disk: seq<nat>, base: nat, ghost f: nat, ghost fuel: nat)
    returns (ok: bool, target: seq<nat>)
    requires SEEDCLS < n < 0x0fff_fff8 && (lanes == 1 || lanes == 4)
    requires Laid(chains, n) && base <= |disk|
    requires f < |chains| && chains[f] != [] && AllNonempty(chains[f])
    requires fuel >= |Clusters(chains[f])|
    ensures ok && base + n <= |target| && target == Spliced(disk, base, target[base..base + n])
    ensures var fat := target[base..base + n];
            && Holds(fat, sparse, n, AllLinks(chains))
            && (Follow(fat, chains[f][0].first, fuel) == Clusters(chains[f]) && fat[chains[f][|chains[f]| - 1].last] == ENDMARK
                <==> KeptWhole(chains, f))
  {
    assert chains[f][|chains[f]| - 1].last < n;
    LaidIsPlaced(chains, n);
    WrittenHolds(sparse, n, AllLinks(chains));
    TableFits(sparse, n, AllLinks(chains));
    var fat;
    ok, fat := PlanTable(sparse, n, lanes, chains);
    assert ok;
    hide Holds, Fits, WellPlaced, Overlaid, Follow, Clusters, AllEntered, KeptWhole, Written, Laid, AllLinks;
    target := WriteToFd(sparse, lanes, fat.chunk, fat.amendments, n, 0, n, disk, base);
    WrittenWhole(sparse, n, fat.amendments, disk, base, target);
    assert target[base..base + n] == Words(sparse, n, fat.amendments);
    FileFollows(target[base..base + n], sparse, n, chains, f, fuel);
  }
}
