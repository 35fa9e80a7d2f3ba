/** The FAT32 allocation table as `VFatMedium` builds it: a rule that generates most entries, and a
    map of amendments laid over it. Offsets are counted in table entries (4 bytes each). */
module FatTable {
  const ENDMARK := 0x0fff_ffff
  const SEEDCLS := 2
  const WORD := 0x1_0000_0000
  const MAXCHUNK := 65536

  /** A range of clusters, first to last. */
  datatype Run = Run(first: nat, last: nat)

  /** A range and what comes after it in its chain: a cluster number, or the end mark. */
  datatype Seg = Seg(first: nat, last: nat, next: nat)

  type Amendments = map<nat, seq<nat>>

  // ----- the effect of the table operations -----

  function Shadowed(a: Amendments, first: nat): Amendments {
    if first > SEEDCLS && first - 1 !in a then a[first - 1 := [ENDMARK]] else a
  }

  /** Every cluster from `first` on points to the next one, up to `last`. */
  function Lined(a: Amendments, first: nat, last: nat): (b: Amendments)
    ensures forall i :: i in b <==> i in a || first <= i < last
    ensures forall i :: i in b ==> b[i] == if first <= i < last then [i + 1] else a[i]
  {
    if last <= first then a else Lined(a, first, last - 1)[last - 1 := [last]]
  }

  /** One extent entered into the table: its line, then its link. */
  function Entered(sparse: bool, a: Amendments, s: Seg): Amendments {
    (if sparse then Lined(a, s.first, s.last) else Shadowed(a, s.first))[s.last := [s.next]]
  }

  function AllEntered(sparse: bool, a: Amendments, segs: seq<Seg>): Amendments {
    if segs == [] then a
    else Entered(sparse, AllEntered(sparse, a, segs[..|segs| - 1]), segs[|segs| - 1])
  }

  /** The links of a chain, from its `i`-th extent on. */
  function LinkAt(chain: seq<Run>, i: nat): Seg
    requires i < |chain|
  {
    Seg(chain[i].first, chain[i].last, if i + 1 < |chain| then chain[i + 1].first else ENDMARK)
  }

  /** The extents of a chain in the order they are entered: the last one first. */
  function Links(chain: seq<Run>): seq<Seg> {
    seq(|chain|, i requires 0 <= i < |chain| => LinkAt(chain, |chain| - 1 - i))
  }

  class VFatMedium {
    const sparse: bool
    var amendments: Amendments
    var total: nat      // entries reserved
    var chunk: nat      // entries generated at a time

    constructor (sparse: bool)
      ensures this.sparse == sparse && amendments == map[] && total == 0
    {
      this.sparse := sparse;
      amendments, total, chunk := map[], 0, 0;
    }

    /** `reserve`; `lanes` is 4 with vector instructions and 1 without. */
    method Reserve(blockCount: nat, lanes: nat)
      requires lanes == 1 || lanes == 4
      modifies this`total, this`chunk
      ensures total == blockCount && chunk % lanes == 0
      ensures if total <= MAXCHUNK then total <= chunk < total + lanes else chunk == MAXCHUNK
    {
      total := blockCount;
      var rounded := (total + lanes - 1) / lanes * lanes;
      chunk := if rounded < MAXCHUNK then rounded else MAXCHUNK;
    }

    method SetLine(first: nat, last: nat)
      modifies this`amendments
      ensures amendments == if sparse then Lined(old(amendments), first, last) else Shadowed(old(amendments), first)
    {
      if sparse {
        var blk := first;
        while blk < last
          invariant first <= blk && (blk == first || blk <= last)
          invariant amendments == Lined(old(amendments), first, blk)
        {
          amendments := amendments[blk := [blk + 1]];
          blk := blk + 1;
        }
      } else {
        Shadow(first);
      }
    }

    method Shadow(first: nat)
      modifies this`amendments
      ensures amendments == Shadowed(old(amendments), first)
    {
      if first <= SEEDCLS { return; }
      if first - 1 !in amendments {
        amendments := amendments[first - 1 := [ENDMARK]];
      }
    }

    /** Fails, as the original aborts, past the end of the table. */
    method SetNext(lastPrev: nat, firstNext: nat) returns (ok: bool)
      modifies this`amendments
      ensures ok <==> lastPrev < total
      ensures amendments == if ok then old(amendments)[lastPrev := [firstNext]] else old(amendments)
    {
      if lastPrev >= total { return false; }
      amendments := amendments[lastPrev := [firstNext]];
      ok := true;
    }

    method SetLast(last: nat) returns (ok: bool)
      modifies this`amendments
      ensures ok <==> last < total
      ensures amendments == if ok then old(amendments)[last := [ENDMARK]] else old(amendments)
    {
      ok := SetNext(last, ENDMARK);
    }

    /** One file or directory: its extents from the last to the first, as `VFat32Out::plan` does. */
    method Incise(chain: seq<Run>) returns (ok: bool)
      modifies this`amendments
      ensures ok <==> forall i :: 0 <= i < |chain| ==> chain[i].last < total
      ensures ok ==> amendments == AllEntered(sparse, old(amendments), Links(chain))
    {
      if chain == [] { return true; }
      var n := |chain|;
      ghost var links := Links(chain);
      var i := n - 1;
      var curr := chain[i];
      SetLine(curr.first, curr.last);
      ok := SetLast(curr.last);
      EnterNext(sparse, old(amendments), links, 0);
      assert links[0] == LinkAt(chain, i) && n - i == 1;
      while ok && i > 0
        invariant 0 <= i < n && curr == chain[i]
        invariant ok <==> forall j :: i <= j < n ==> chain[j].last < total
        invariant ok ==> amendments == AllEntered(sparse, old(amendments), links[..n - i])
      {
        i := i - 1;
        var past := chain[i];
        SetLine(past.first, past.last);
        ok := SetNext(past.last, curr.first);
        curr := past;
        EnterNext(sparse, old(amendments), links, n - 1 - i);
        assert links[n - 1 - i] == LinkAt(chain, i) && n - 1 - i + 1 == n - i;
      }
      assert links[..n] == links;
    }
  }

  lemma {:induction false} EnterNext(sparse: bool, a: Amendments, segs: seq<Seg>, k: nat)
    requires k < |segs|
    ensures AllEntered(sparse, a, segs[..k + 1]) == Entered(sparse, AllEntered(sparse, a, segs[..k]), segs[k])
    ensures k == 0 ==> AllEntered(sparse, a, segs[..k]) == a
  {
    assert segs[..k + 1][..k] == segs[..k];
  }

  // ----- the table of a whole volume -----

  /** Media type and clean-volume flags, in the two reserved entries. */
  const FLAGS: seq<nat> := [0x0fff_fff8, 0xffff_ffff]

  /** What `VFat32Out::plan` enters before any file. */
  function Initial(sparse: bool, n: nat): Amendments
    requires n > SEEDCLS
  {
    if sparse then map[0 := FLAGS] else map[0 := FLAGS, n - 1 := [ENDMARK]]
  }

  function AllLinks(chains: seq<seq<Run>>): seq<Seg> {
    if chains == [] then [] else AllLinks(chains[..|chains| - 1]) + Links(chains[|chains| - 1])
  }

  lemma {:induction false} EnterMore(sparse: bool, a: Amendments, segs: seq<Seg>, more: seq<Seg>)
    ensures AllEntered(sparse, a, segs + more) == AllEntered(sparse, AllEntered(sparse, a, segs), more)
  {
    if more == [] {
      assert segs + more == segs;
    } else {
      var init := more[..|more| - 1];
      EnterMore(sparse, a, segs, init);
      assert (segs + more)[..|segs + more| - 1] == segs + init;
    }
  }

  /** The files and directories of a volume, entered in any order given. Fails past the end of the table. */
  method PlanTable(sparse: bool, n: nat, lanes: nat, chains: seq<seq<Run>>) returns (ok: bool, fat: VFatMedium)
    requires n > SEEDCLS && (lanes == 1 || lanes == 4)
    ensures ok <==> forall f, i :: 0 <= f < |chains| && 0 <= i < |chains[f]| ==> chains[f][i].last < n
    ensures fresh(fat) && fat.sparse == sparse && fat.total == n && 0 < fat.chunk && fat.chunk % lanes == 0
    ensures ok ==> fat.amendments == AllEntered(sparse, Initial(sparse, n), AllLinks(chains))
  {
    fat := new VFatMedium(sparse);
    fat.Reserve(n, lanes);
    fat.amendments := map[0 := FLAGS];
    if !sparse { ok := fat.SetLast(n - 1); }
    ok := true;
    for i := 0 to |chains|
      invariant fat.total == n && ok && 0 < fat.chunk && fat.chunk % lanes == 0
      invariant forall f, j :: 0 <= f < i && 0 <= j < |chains[f]| ==> chains[f][j].last < n
      invariant fat.amendments == AllEntered(sparse, Initial(sparse, n), AllLinks(chains[..i]))
    {
      ok := fat.Incise(chains[i]);
      if !ok { return; }
      assert chains[..i + 1][..i] == chains[..i];
      EnterMore(sparse, Initial(sparse, n), AllLinks(chains[..i]), Links(chains[i]));
    }
    assert chains[..|chains|] == chains;
  }
}
