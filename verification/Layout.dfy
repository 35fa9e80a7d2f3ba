/** Where the ranges of the charts go on the target, as `writeFiles` appends them: medium by medium, each
    range at the end of the one before, padded to a block. */
module Layout {
  import opened Blocks
  import opened Territory
  import opened Device

  function SizeOf(s: Span): nat {
    if s.start <= s.end then s.end - s.start else 0
  }

  /** The ranges of all media below `n`, in the order they are written. */
  function Flat(plan: Planetary, n: nat): seq<Span> {
    if n == 0 then [] else Flat(plan, n - 1) + Area(plan, n - 1)
  }

  /** Where ranges written from `at` on end. */
  function EndOf(m: seq<Span>, at: nat, blkSz: nat): nat
    requires blkSz > 0
  {
    if m == [] then at else RoundUp(EndOf(m[..|m| - 1], at, blkSz) + SizeOf(m[|m| - 1]), blkSz)
  }

  function LinkOf(plan: Planetary, id: MedId, k: nat, at: nat, blkSz: nat): Link
    requires blkSz > 0 && id in plan && k < |plan[id]|
  {
    Link(plan[id][k].start, EndOf(Flat(plan, id) + plan[id][..k], at, blkSz))
  }

  function LinksAt(plan: Planetary, id: MedId, at: nat, blkSz: nat): (l: seq<Link>)
    requires blkSz > 0 && id in plan
    ensures |l| == |plan[id]| && forall k :: 0 <= k < |l| ==> l[k] == LinkOf(plan, id, k, at, blkSz)
  {
    seq(|plan[id]|, k requires 0 <= k < |plan[id]| => LinkOf(plan, id, k, at, blkSz))
  }

  function LinksOf(plan: Planetary, at: nat, blkSz: nat): map<MedId, seq<Link>>
    requires blkSz > 0
  {
    map id | id in plan :: LinksAt(plan, id, at, blkSz)
  }

  /** Media without a chart add nothing. */
  lemma {:induction false} FlatSkip(plan: Planetary, b: nat, n: nat)
    requires b <= n && forall id :: id in plan ==> id < b || n <= id
    ensures Flat(plan, n) == Flat(plan, b)
    decreases n - b
  {
    if b < n {
      FlatSkip(plan, b, n - 1);
      assert Area(plan, n - 1) == [];
    }
  }

  lemma {:induction false} EndNext(m: seq<Span>, s: Span, at: nat, blkSz: nat)
    requires blkSz > 0
    ensures EndOf(m + [s], at, blkSz) == RoundUp(EndOf(m, at, blkSz) + SizeOf(s), blkSz)
  {
    assert (m + [s])[..|m|] == m;
    hide RoundUp;
  }

  /** Where all ranges end. */
  ghost predicate EndsAll(plan: Planetary, at: nat, blkSz: nat, to: nat)
    requires blkSz > 0
  {
    forall n: nat :: (forall id :: id in plan ==> id < n) ==> to == EndOf(Flat(plan, n), at, blkSz)
  }

  lemma {:induction false} EndsWhere(plan: Planetary, at: nat, blkSz: nat, to: nat, n: nat)
    requires blkSz > 0 && EndsAll(plan, at, blkSz, to) && forall id :: id in plan ==> id < n
    ensures to == EndOf(Flat(plan, n), at, blkSz)
  {
  }

  lemma {:induction false} EndsAfter(m: seq<Span>, at: nat, blkSz: nat)
    requires blkSz > 0
    ensures at <= EndOf(m, at, blkSz)
  {
    if m != [] {
      EndsAfter(m[..|m| - 1], at, blkSz);
      RoundUpBounds(EndOf(m[..|m| - 1], at, blkSz) + SizeOf(m[|m| - 1]), blkSz);
      hide RoundUp;
    }
  }

  lemma {:induction false} EndsSame(plan: Planetary, at: nat, blkSz: nat, n: nat)
    requires blkSz > 0 && forall id :: id in plan ==> id < n
    ensures EndsAll(plan, at, blkSz, EndOf(Flat(plan, n), at, blkSz))
  {
    forall m: nat | forall id :: id in plan ==> id < m ensures Flat(plan, m) == Flat(plan, n) {
      if m <= n { FlatSkip(plan, m, n); } else { FlatSkip(plan, n, m); }
    }
    hide EndOf, Flat;
  }

  /** A number above all media. */
  lemma {:induction false} Above(ids: set<MedId>) returns (n: nat)
    ensures forall id :: id in ids ==> id < n
  {
    n := 0;
    if id :| id in ids {
      var rest := ids - {id};
      n := Above(rest);
      n := if n > id then n else id + 1;
      assert forall jd :: jd in ids ==> jd == id || jd in rest;
    }
  }

  /** The first place at or behind `end`, on a block. */
  predicate FirstFrom(place: nat, end: nat, blkSz: nat) {
    end <= place < end + blkSz && Divides(blkSz, place)
  }

  /** Nothing is between a range and the one before it on its medium but the padding to a block. */
  lemma {:induction false} NextRange(plan: Planetary, id: MedId, k: nat, at: nat, blkSz: nat)
    requires blkSz > 0 && id in plan && k + 1 < |plan[id]|
    ensures FirstFrom(LinkOf(plan, id, k + 1, at, blkSz).target, LinkOf(plan, id, k, at, blkSz).target + SizeOf(plan[id][k]), blkSz)
  {
    RoundedPlace(Flat(plan, id) + plan[id][..k], plan[id][k], at, blkSz);
    assert Flat(plan, id) + plan[id][..k + 1] == Flat(plan, id) + plan[id][..k] + [plan[id][k]];
    hide EndOf, Flat;
  }

  lemma {:induction false} RoundedPlace(m: seq<Span>, s: Span, at: nat, blkSz: nat)
    requires blkSz > 0
    ensures FirstFrom(EndOf(m + [s], at, blkSz), EndOf(m, at, blkSz) + SizeOf(s), blkSz)
  {
    EndNext(m, s, at, blkSz);
    RoundUpBounds(EndOf(m, at, blkSz) + SizeOf(s), blkSz);
    RoundUpAligned(EndOf(m, at, blkSz) + SizeOf(s), blkSz);
    hide EndOf, RoundUp;
  }

  /** Nor is there between the last range of a medium and the first of the next one with a chart. */
  lemma {:induction false} NextMedium(plan: Planetary, id: MedId, next: MedId, at: nat, blkSz: nat)
    requires blkSz > 0 && id in plan && next in plan && id < next && plan[id] != [] && plan[next] != []
    requires forall jd :: jd in plan ==> jd <= id || next <= jd
    ensures var k := |plan[id]| - 1;
            FirstFrom(LinkOf(plan, next, 0, at, blkSz).target, LinkOf(plan, id, k, at, blkSz).target + SizeOf(plan[id][k]), blkSz)
  {
    var k := |plan[id]| - 1;
    RoundedPlace(Flat(plan, id) + plan[id][..k], plan[id][k], at, blkSz);
    FlatSkip(plan, id + 1, next);
    assert Flat(plan, next) + plan[next][..0] == Flat(plan, id) + plan[id] == Flat(plan, id) + plan[id][..k] + [plan[id][k]];
    hide EndOf, Flat;
  }

  /** The first range of all is at the beginning. */
  lemma {:induction false} FirstRange(plan: Planetary, id: MedId, at: nat, blkSz: nat)
    requires blkSz > 0 && id in plan && plan[id] != [] && forall jd :: jd in plan ==> id <= jd
    ensures LinkOf(plan, id, 0, at, blkSz).target == at
  {
    FlatSkip(plan, 0, id);
    assert Flat(plan, id) + plan[id][..0] == [];
  }

  /** And the area ends with the padding of the last. */
  lemma {:induction false} LastRange(plan: Planetary, id: MedId, at: nat, blkSz: nat, to: nat)
    requires blkSz > 0 && id in plan && plan[id] != [] && (forall jd :: jd in plan ==> jd <= id) && EndsAll(plan, at, blkSz, to)
    ensures var k := |plan[id]| - 1;
            FirstFrom(to, LinkOf(plan, id, k, at, blkSz).target + SizeOf(plan[id][k]), blkSz)
  {
    var k := |plan[id]| - 1;
    EndsWhere(plan, at, blkSz, to, id + 1);
    RoundedPlace(Flat(plan, id) + plan[id][..k], plan[id][k], at, blkSz);
    assert Flat(plan, id + 1) == Flat(plan, id) + plan[id][..k] + [plan[id][k]];
    hide EndOf, Flat;
  }

  /** What divides the start and the padding divides every place. */
  lemma {:induction false} EndAligned(m: seq<Span>, at: nat, blkSz: nat, unit: nat)
    requires blkSz > 0 && Divides(unit, blkSz) && Divides(unit, at)
    ensures Divides(unit, EndOf(m, at, blkSz))
  {
    if m != [] {
      var e := EndOf(m[..|m| - 1], at, blkSz) + SizeOf(m[|m| - 1]);
      RoundUpAligned(e, blkSz);
      hide RoundUp;
      MultipleOfMultiple(RoundUp(e, blkSz), blkSz, unit);
    }
  }
}
