/** The block map of an HFS+ file: eight extent descriptors in the catalog record, and overflow
    records of eight, keyed by the file block they start at (`HFPlusOut::masterComplete`). */
module HfsFork {
  import opened Options

  /** An extent on the target, in blocks. */
  datatype Desc = Desc(start: nat, count: nat)

  const SLOTS := 8

  function Blank(): seq<Desc> {
    [Desc(0, 0), Desc(0, 0), Desc(0, 0), Desc(0, 0), Desc(0, 0), Desc(0, 0), Desc(0, 0), Desc(0, 0)]
  }

  /** Which record: the one in the catalog, or an overflow record. */
  datatype Loc = Catalog | Over(key: nat)

  datatype Last = Nothing | Slot(loc: Loc, i: nat)

  /** The state of the packing loop: the records, the one being filled (`desc`) and its first free
      slot, the file block reached, and the descriptor written last (`pExt`). */
  datatype Fork = Fork(records: map<Loc, seq<Desc>>, desc: Loc, extentNo: nat, blk: nat, last: Last)
  {
    predicate Valid() {
      && Catalog in records && desc in records && extentNo <= SLOTS
      && (forall l :: l in records ==> |records[l]| == SLOTS)
      && (last.Slot? ==> last.loc in records && last.i < SLOTS)
    }

    function Write(loc: Loc, i: nat, d: Desc): (f: Fork)
      requires Valid() && loc in records && i < SLOTS
      ensures f.Valid()
    {
      this.(records := records[loc := records[loc][i := d]])
    }

    /** A full record sends the loop to an overflow record that starts at the block reached. */
    function Opened(): (f: Fork)
      requires Valid()
      ensures f.Valid() && f.extentNo < SLOTS
    {
      if extentNo < SLOTS then this
      else this.(records := if Over(blk) in records then records else records[Over(blk) := Blank()],
                 desc := Over(blk), extentNo := 0)
    }

    /** The next extent continues the descriptor written last. */
    predicate Continues(x: Desc)
      requires Valid()
    {
      last.Slot? && var d := records[last.loc][last.i]; d.start + d.count == x.start
    }

    function Extended(x: Desc): (f: Fork)
      requires Valid() && Continues(x)
      ensures f.Valid()
    {
      var d := records[last.loc][last.i];
      Write(last.loc, last.i, Desc(d.start, d.count + x.count)).(blk := blk + x.count)
    }

    function Pushed(x: Desc): (f: Fork)
      requires Valid() && extentNo < SLOTS
      ensures f.Valid()
    {
      Write(desc, extentNo, x).(extentNo := extentNo + 1, last := Slot(desc, extentNo), blk := blk + x.count)
    }

    /** One round of the loop. */
    function Next(x: Desc): (f: Fork)
      requires Valid()
      ensures f.Valid()
    {
      if Opened().Continues(x) then Opened().Extended(x) else Opened().Pushed(x)
    }
  }

  function Start(): Fork {
    Fork(map[Catalog := Blank()], Catalog, 0, 0, Nothing)
  }

  function Packed(xs: seq<Desc>): (f: Fork)
    ensures f.Valid()
  {
    if xs == [] then Start() else Packed(xs[..|xs| - 1]).Next(xs[|xs| - 1])
  }

  /** One round: a full record sends the loop to an overflow record, then the extent lengthens the
      descriptor before it or takes the next slot. */
  method PackExtent(f: Fork, xt: Desc) returns (g: Fork)
    requires f.Valid()
    ensures g == f.Next(xt)
  {
    hide Blank;
    var Fork(records, desc, extentNo, blk, pExt) := f;
    if extentNo == SLOTS {
      desc := Over(blk);
      if desc !in records { records := records[desc := Blank()]; }
      extentNo := 0;
    }
    assert Fork(records, desc, extentNo, blk, pExt) == f.Opened();
    if pExt.Slot? && records[pExt.loc][pExt.i].start + records[pExt.loc][pExt.i].count == xt.start {
      var d := records[pExt.loc][pExt.i];
      records := records[pExt.loc := records[pExt.loc][pExt.i := Desc(d.start, d.count + xt.count)]];
    } else {
      records := records[desc := records[desc][extentNo := xt]];
      pExt := Slot(desc, extentNo);
      extentNo := extentNo + 1;
    }
    blk := blk + xt.count;
    g := Fork(records, desc, extentNo, blk, pExt);
  }

  /** The packing loop. Returns the records and the block count. */
  method PackFork(xs: seq<Desc>) returns (records: map<Loc, seq<Desc>>, total: nat)
    ensures records == Packed(xs).records && total == Packed(xs).blk
  {
    var f := Fork(map[Catalog := Blank()], Catalog, 0, 0, Nothing);
    for i := 0 to |xs|
      invariant f == Packed(xs[..i])
    {
      assert Packed(xs[..i + 1]) == Packed(xs[..i]).Next(xs[i]) by { assert xs[..i + 1][..i] == xs[..i]; }
      f := PackExtent(f, xs[i]);
    }
    assert xs[..|xs|] == xs;
    records, total := f.records, f.blk;
  }

  // ----- reading -----

  /** The target block of file block `j`, walking a list of extents. */
  function Walk(xs: seq<Desc>, j: nat): Option<nat> {
    if xs == [] then None
    else if j < xs[0].count then Some(xs[0].start + j)
    else Walk(xs[1..], j - xs[0].count)
  }

  /** The greatest overflow key not above `j`. */
  function FloorKey(records: map<Loc, seq<Desc>>, j: nat): Option<nat> {
    if Over(j) in records then Some(j) else if j == 0 then None else FloorKey(records, j - 1)
  }

  /** How a host finds file block `j`: in the catalog record, or else in the overflow record with the
      greatest start block not above `j`. */
  function Read(records: map<Loc, seq<Desc>>, j: nat): Option<nat>
    requires Catalog in records
  {
    if Walk(records[Catalog], j).Some? then Walk(records[Catalog], j) else
    match FloorKey(records, j)
    case None => None
    case Some(k) => if k <= j && Over(k) in records then Walk(records[Over(k)], j - k) else None
  }

  function Sum(xs: seq<Desc>): nat {
    if xs == [] then 0 else xs[0].count + Sum(xs[1..])
  }

  lemma {:induction false} WalkConcat(a: seq<Desc>, b: seq<Desc>, j: nat)
    ensures Sum(a + b) == Sum(a) + Sum(b)
    ensures Walk(a + b, j) == if j < Sum(a) then Walk(a, j) else Walk(b, j - Sum(a))
    ensures j < Sum(a) ==> Walk(a, j).Some?
    ensures j >= Sum(a) ==> Walk(a, j).None?
  {
    if a == [] {
      assert a + b == b;
    } else {
      assert (a + b)[1..] == a[1..] + b;
      WalkConcat(a[1..], b, if j < a[0].count then 0 else j - a[0].count);
    }
  }

  /** The count is that of all blocks, whatever the records hold. */
  lemma {:induction false} PackedBlocks(xs: seq<Desc>)
    ensures Packed(xs).blk == Sum(xs)
  {
    if xs != [] {
      var init, x := xs[..|xs| - 1], xs[|xs| - 1];
      PackedBlocks(init);
      WalkConcat(init, [x], 0);
      assert xs == init + [x];
    }
  }

  /** Slots are used from the first one on: what comes behind the used ones is blank. */
  predicate Used(r: seq<Desc>) {
    |r| == 8 && forall i, j :: 0 <= i < j < 8 && r[i].count == 0 ==> r[i] == r[j] == Desc(0, 0)
  }

  predicate SlotUsed(f: Fork, l: Loc, i: nat)
    requires f.Valid() && l in f.records && i < SLOTS
  {
    if l == f.desc && i >= f.extentNo then f.records[l][i] == Desc(0, 0) else f.records[l][i].count > 0
  }

  predicate KeyPassed(f: Fork, k: nat) {
    k < f.blk || (k == f.blk && f.desc == Over(k) && f.extentNo == 0)
  }

  /** Records are filled from the first slot on, and a new one has a key of its own. */
  ghost predicate Filling(f: Fork) {
    && f.Valid()
    && (forall l, i: nat :: l in f.records && i < SLOTS ==> SlotUsed(f, l, i))
    && (forall k: nat :: Over(k) in f.records ==> KeyPassed(f, k))
    && (f.last.Slot? ==> f.last.loc != f.desc || f.last.i < f.extentNo)
  }

  lemma {:induction false} FillingNext(f: Fork, x: Desc)
    requires Filling(f) && x.count > 0
    ensures Filling(f.Next(x))
  {
    var o, g := f.Opened(), f.Next(x);
    forall k: nat | Over(k) in g.records ensures KeyPassed(g, k) { assert Over(k) in f.records ==> KeyPassed(f, k); }
    forall l, i: nat | l in o.records && i < SLOTS ensures SlotUsed(o, l, i) { if l in f.records { assert SlotUsed(f, l, i); } }
    if o.Continues(x) { assert SlotUsed(o, o.last.loc, o.last.i); }
    forall l, i: nat | l in g.records && i < SLOTS ensures SlotUsed(g, l, i) { assert SlotUsed(o, l, i); }
  }

  /** No record of a file has anything behind its last extent. */
  lemma {:induction false} BlankBehind(xs: seq<Desc>)
    requires Positive(xs)
    ensures Filling(Packed(xs)) && forall l :: l in Packed(xs).records ==> Used(Packed(xs).records[l])
  {
    if xs != [] {
      BlankBehind(xs[..|xs| - 1]);
      FillingNext(Packed(xs[..|xs| - 1]), xs[|xs| - 1]);
    }
    var f := Packed(xs);
    hide Packed;
    forall l | l in f.records ensures Used(f.records[l]) {
      var r := f.records[l];
      forall i, j | 0 <= i < j < SLOTS && r[i].count == 0 ensures r[i] == r[j] == Desc(0, 0) {
        assert SlotUsed(f, l, i) && SlotUsed(f, l, j);
      }
    }
  }

  // ----- what a clean run packs -----

  /** The extents with contiguous neighbours joined. */
  function Coalesced(xs: seq<Desc>): seq<Desc> {
    if xs == [] then [] else Joined(Coalesced(xs[..|xs| - 1]), xs[|xs| - 1])
  }

  predicate Contiguous(d: seq<Desc>, x: Desc) {
    d != [] && d[|d| - 1].start + d[|d| - 1].count == x.start
  }

  function Joined(d: seq<Desc>, x: Desc): seq<Desc> {
    if Contiguous(d, x) then d[..|d| - 1] + [Desc(d[|d| - 1].start, d[|d| - 1].count + x.count)] else d + [x]
  }

  /** Joining never changes the mapping. */
  lemma {:induction false} CoalescedWalk(xs: seq<Desc>, j: nat)
    ensures Walk(Coalesced(xs), j) == Walk(xs, j) && Sum(Coalesced(xs)) == Sum(xs)
  {
    if xs != [] {
      var init, x := xs[..|xs| - 1], xs[|xs| - 1];
      assert xs == init + [x];
      CoalescedWalk(init, j);
      JoinedWalk(Coalesced(init), x, j);
      WalkConcat(init, [x], j);
    }
  }

  lemma {:induction false} JoinedWalk(d: seq<Desc>, x: Desc, j: nat)
    ensures Sum(Joined(d, x)) == Sum(d) + x.count
    ensures Walk(Joined(d, x), j) == if j < Sum(d) then Walk(d, j) else Walk([x], j - Sum(d))
  {
    WalkConcat(d, [x], j);
    if Contiguous(d, x) {
      var a, z := d[..|d| - 1], d[|d| - 1];
      assert d == a + [z];
      WalkConcat(a, [z], j);
      WalkConcat(a, [Desc(z.start, z.count + x.count)], j);
    }
  }

  /** No extent that meets a full record is contiguous with the one before it: every eighth of the
      joined extents comes in one piece. */
  predicate Clean(xs: seq<Desc>) {
    xs != [] ==>
      var init := xs[..|xs| - 1];
      Clean(init) && (Full(|Coalesced(init)|) ==> !Contiguous(Coalesced(init), xs[|xs| - 1]))
  }

  predicate Positive(xs: seq<Desc>) {
    forall i :: 0 <= i < |xs| ==> xs[i].count > 0
  }

  // ----- what any run packs -----

  /** What the used slots of some records hold, one record after another. */
  function Slots(r: seq<Desc>): seq<Desc> {
    if r == [] || r[0].count == 0 then [] else [r[0]] + Slots(r[1..])
  }

  function AllSlots(records: map<Loc, seq<Desc>>, order: seq<Loc>): seq<Desc>
    requires forall i :: 0 <= i < |order| ==> order[i] in records
  {
    if order == [] then [] else AllSlots(records, order[..|order| - 1]) + Slots(records[order[|order| - 1]])
  }

  /** The catalog record and then the overflow records by their keys. */
  ghost predicate InOrder(records: map<Loc, seq<Desc>>, order: seq<Loc>) {
    && order != [] && order[0] == Catalog
    && (forall i :: 1 <= i < |order| ==> order[i].Over?)
    && (forall i, j :: 1 <= i < j < |order| ==> order[i].key < order[j].key)
    && (forall l :: l in records <==> l in order)
  }

  /** The record being filled is the last one, and the extent written last is in the last slot used. */
  ghost predicate Going(f: Fork, order: seq<Loc>) {
    && Filling(f) && InOrder(f.records, order) && order[|order| - 1] == f.desc
    && match f.last
       case Nothing => |order| == 1 && f.extentNo == 0
       case Slot(loc, i) => if f.extentNo > 0 then loc == f.desc && i == f.extentNo - 1
                            else |order| > 1 && loc == order[|order| - 2] && i == SLOTS - 1
  }

  /** All slots before the record being filled, and those filled in it. */
  function Held(f: Fork, order: seq<Loc>): seq<Desc>
    requires f.Valid() && order != [] && forall i :: 0 <= i < |order| ==> order[i] in f.records
  {
    Filled(f.records, order[..|order| - 1]) + f.records[f.desc][..f.extentNo]
  }

  function Filled(records: map<Loc, seq<Desc>>, order: seq<Loc>): seq<Desc>
    requires forall i :: 0 <= i < |order| ==> order[i] in records
  {
    if order == [] then [] else Filled(records, order[..|order| - 1]) + records[order[|order| - 1]]
  }

  lemma {:induction false} FilledFrame(a: map<Loc, seq<Desc>>, b: map<Loc, seq<Desc>>, order: seq<Loc>)
    requires forall i :: 0 <= i < |order| ==> order[i] in a && order[i] in b && a[order[i]] == b[order[i]]
    ensures Filled(a, order) == Filled(b, order)
  {
    if order != [] { FilledFrame(a, b, order[..|order| - 1]); }
  }

  lemma {:induction false} OrderDistinct(records: map<Loc, seq<Desc>>, order: seq<Loc>)
    requires InOrder(records, order)
    ensures forall i, j :: 0 <= i < j < |order| ==> order[i] != order[j]
    ensures forall i :: 0 <= i < |order| ==> order[i] in records
  {
    forall i | 0 <= i < |order| ensures order[i] in records { assert order[i] in order; }
  }

  /** A full record sends the loop to the next one; what is held stays. */
  lemma {:induction false} OpenKeeps(f: Fork, order: seq<Loc>) returns (next: seq<Loc>)
    requires Going(f, order)
    ensures Going(f.Opened(), next) && (forall i :: 0 <= i < |next| ==> next[i] in f.Opened().records)
    ensures (forall i :: 0 <= i < |order| ==> order[i] in f.records) && Held(f.Opened(), next) == Held(f, order)
    ensures next == if f.extentNo == SLOTS then order + [Over(f.blk)] else order
  {
    OrderDistinct(f.records, order);
    next := order;
    if f.extentNo == SLOTS {
      next := order + [Over(f.blk)];
      OpenFills(f);
      OpenedOrder(f, order, next);
      OrderDistinct(f.Opened().records, next);
      hide Filling, InOrder, Filled, SlotUsed, KeyPassed;
      OpenHeld(f, order, next);
    }
  }

  lemma {:induction false} OpenFills(f: Fork)
    requires Filling(f) && f.extentNo == SLOTS
    ensures Filling(f.Opened()) && forall k: nat :: Over(k) in f.records ==> k < f.blk
  {
    var o := f.Opened();
    forall l, i: nat | l in o.records && i < SLOTS ensures SlotUsed(o, l, i) { if l in f.records { assert SlotUsed(f, l, i); } }
    forall k: nat | Over(k) in f.records ensures k < f.blk { assert KeyPassed(f, k); }
  }

  lemma {:induction false} OpenHeld(f: Fork, order: seq<Loc>, next: seq<Loc>)
    requires f.Valid() && f.extentNo == SLOTS && Over(f.blk) !in f.records && next == order + [Over(f.blk)]
    requires order != [] && order[|order| - 1] == f.desc && forall i :: 0 <= i < |order| ==> order[i] in f.records
    ensures (forall i :: 0 <= i < |next| ==> next[i] in f.Opened().records) && Held(f.Opened(), next) == Held(f, order)
  {
    assert next[..|next| - 1] == order;
    FilledFrame(f.records, f.Opened().records, order[..|order| - 1]);
    assert f.records[f.desc][..SLOTS] == f.records[f.desc];
  }

  lemma {:induction false} OpenedOrder(f: Fork, order: seq<Loc>, next: seq<Loc>)
    requires f.Valid() && InOrder(f.records, order) && f.extentNo == SLOTS && next == order + [Over(f.blk)]
    requires forall k: nat :: Over(k) in f.records ==> k < f.blk
    ensures InOrder(f.Opened().records, next)
  {
    OrderDistinct(f.records, order);
    forall i, j | 1 <= i < j < |next| ensures next[i].key < next[j].key { assert order[i] == Over(order[i].key); }
  }

  lemma {:induction false} PushKeeps(o: Fork, order: seq<Loc>, x: Desc)
    requires Going(o, order) && o.extentNo < SLOTS && x.count > 0 && !o.Continues(x)
    ensures Going(o.Pushed(x), order) && (forall i :: 0 <= i < |order| ==> order[i] in o.records && order[i] in o.Pushed(x).records)
    ensures Held(o.Pushed(x), order) == Held(o, order) + [x]
  {
    var g := o.Pushed(x);
    assert o.Next(x) == g;
    FillingNext(o, x);
    OrderDistinct(o.records, order);
    FilledFrame(o.records, g.records, order[..|order| - 1]);
    assert g.records[g.desc][..g.extentNo] == o.records[o.desc][..o.extentNo] + [x];
  }

  /** The slot written last is the last one held. */
  lemma {:induction false} HeldLast(o: Fork, order: seq<Loc>)
    requires Going(o, order)
    ensures forall i :: 0 <= i < |order| ==> order[i] in o.records
    ensures o.last.Nothing? ==> Held(o, order) == []
    ensures o.last.Slot? ==> Held(o, order) != [] && Held(o, order)[|Held(o, order)| - 1] == o.records[o.last.loc][o.last.i]
  {
    OrderDistinct(o.records, order);
    var init := order[..|order| - 1];
    if o.last.Slot? && o.extentNo == 0 { assert Filled(o.records, init) == Filled(o.records, init[..|init| - 1]) + o.records[o.last.loc]; }
  }

  lemma {:induction false} ExtendKeeps(o: Fork, order: seq<Loc>, x: Desc)
    requires Going(o, order) && o.extentNo < SLOTS && x.count > 0 && o.Continues(x)
    ensures Going(o.Extended(x), order) && (forall i :: 0 <= i < |order| ==> order[i] in o.records && order[i] in o.Extended(x).records)
    ensures var h := Held(o, order); h != [] && Held(o.Extended(x), order) == Joined(h, x)
  {
    var g := o.Extended(x);
    assert o.Next(x) == g;
    FillingNext(o, x);
    OrderDistinct(o.records, order);
    HeldLast(o, order);
    var init := order[..|order| - 1];
    if o.extentNo > 0 {
      FilledFrame(o.records, g.records, init);
    } else {
      FilledFrame(o.records, g.records, init[..|init| - 1]);
    }
  }

  lemma {:induction false} HeldLength(f: Fork, order: seq<Loc>)
    requires Going(f, order) && forall i :: 0 <= i < |order| ==> order[i] in f.records
    ensures order != [] && |Held(f, order)| == SLOTS * (|order| - 1) + f.extentNo
  {
    FilledLength(f.records, order[..|order| - 1]);
  }

  lemma {:induction false} FilledLength(records: map<Loc, seq<Desc>>, order: seq<Loc>)
    requires forall i :: 0 <= i < |order| ==> order[i] in records && |records[order[i]]| == SLOTS
    ensures |Filled(records, order)| == SLOTS * |order|
  {
    if order != [] { FilledLength(records, order[..|order| - 1]); }
  }

  lemma {:induction false} HeldNext(f: Fork, was: seq<Loc>, x: Desc) returns (order: seq<Loc>)
    requires Going(f, was) && x.count > 0
    ensures Going(f.Next(x), order) && (forall i :: 0 <= i < |was| ==> was[i] in f.records)
    ensures (forall i :: 0 <= i < |order| ==> order[i] in f.Next(x).records) && Held(f.Next(x), order) == Joined(Held(f, was), x)
    ensures order == if f.extentNo == SLOTS then was + [Over(f.blk)] else was
    ensures f.Next(x).extentNo == SLOTS ==> |Joined(Held(f, was), x)| == |Held(f, was)| + 1
  {
    order := OpenKeeps(f, was);
    var o := f.Opened();
    HeldLast(o, order);
    if o.Continues(x) { ExtendKeeps(o, order, x); } else { PushKeeps(o, order, x); }
    hide Held, Going;
  }

  /** Overflow record `j` was opened for extent `p`, the first to meet `j` full records, and bears the number
      of the blocks before it. */
  predicate OpenedFor(xs: seq<Desc>, j: nat, loc: Loc, p: nat) {
    && 0 < p < |xs| && |Coalesced(xs[..p])| == SLOTS * j && |Coalesced(xs[..p - 1])| == SLOTS * j - 1
    && loc == Over(Sum(xs[..p]))
  }

  ghost predicate OpenedRight(xs: seq<Desc>, j: nat, loc: Loc) {
    exists p: nat :: OpenedFor(xs, j, loc, p)
  }

  ghost predicate AllOpened(xs: seq<Desc>, order: seq<Loc>) {
    forall j: nat :: 1 <= j < |order| ==> OpenedRight(xs, j, order[j])
  }

  lemma {:induction false} HeldIs(xs: seq<Desc>) returns (order: seq<Loc>)
    requires Positive(xs)
    ensures Going(Packed(xs), order) && (forall i :: 0 <= i < |order| ==> order[i] in Packed(xs).records)
    ensures Held(Packed(xs), order) == Coalesced(xs) && AllOpened(xs, order)
    ensures Packed(xs).extentNo == SLOTS ==> xs != [] && |Coalesced(xs[..|xs| - 1])| == |Coalesced(xs)| - 1
  {
    hide *;
    if xs == [] {
      order := HeldNone();
    } else {
      var init, x := xs[..|xs| - 1], xs[|xs| - 1];
      LastPacked(xs);
      var was := HeldIs(init);
      PackedBlocks(init);
      HeldLength(Packed(init), was);
      order := HeldNext(Packed(init), was, x);
      MoreOpened(xs, was, order);
    }
  }

  lemma {:induction false} HeldNone() returns (order: seq<Loc>)
    ensures Going(Packed([]), order) && (forall i :: 0 <= i < |order| ==> order[i] in Packed([]).records)
    ensures Held(Packed([]), order) == Coalesced([]) && AllOpened([], order) && Packed([]).extentNo == 0 < SLOTS
  {
    order := [Catalog];
    BlankBehind([]);
  }

  lemma {:induction false} LastPacked(xs: seq<Desc>)
    requires Positive(xs) && xs != []
    ensures var init, x := xs[..|xs| - 1], xs[|xs| - 1];
            && Positive(init) && x.count > 0 && Packed(xs) == Packed(init).Next(x) && Coalesced(xs) == Joined(Coalesced(init), x)
  {
  }

  lemma {:induction false} MoreOpened(xs: seq<Desc>, was: seq<Loc>, order: seq<Loc>)
    requires xs != [] && was != []
    requires var init := xs[..|xs| - 1];
             && AllOpened(init, was)
             && (order == was
                 || (order == was + [Over(Sum(init))] && init != [] && |Coalesced(init)| == SLOTS * |was|
                     && |Coalesced(init[..|init| - 1])| == |Coalesced(init)| - 1))
    ensures AllOpened(xs, order)
  {
    hide Coalesced, Sum;
    var init := xs[..|xs| - 1];
    forall j: nat | 1 <= j < |order| ensures OpenedRight(xs, j, order[j]) {
      if j < |was| {
        assert OpenedRight(init, j, was[j]);
        var p: nat :| OpenedFor(init, j, was[j], p);
        assert xs[..p] == init[..p] && xs[..p - 1] == init[..p - 1];
        assert OpenedFor(xs, j, order[j], p);
      } else {
        var p := |init|;
        assert xs[..p] == init && xs[..p - 1] == init[..p - 1];
        assert OpenedFor(xs, j, order[j], p);
      }
    }
  }

  lemma {:induction false} SlotsAre(r: seq<Desc>, k: nat)
    requires k <= |r| && (forall i :: 0 <= i < k ==> r[i].count > 0) && (k < |r| ==> r[k].count == 0)
    ensures Slots(r) == r[..k]
  {
    if k > 0 {
      SlotsAre(r[1..], k - 1);
      assert r[..k] == [r[0]] + r[1..][..k - 1];
    }
  }

  lemma {:induction false} FullSlots(f: Fork, order: seq<Loc>, n: nat)
    requires Filling(f) && n <= |order| && forall i :: 0 <= i < n ==> order[i] in f.records && order[i] != f.desc
    ensures AllSlots(f.records, order[..n]) == Filled(f.records, order[..n])
  {
    if n > 0 {
      var l := order[n - 1];
      assert order[..n][..n - 1] == order[..n - 1];
      FullSlots(f, order, n - 1);
      forall i: nat | i < SLOTS ensures f.records[l][i].count > 0 { assert SlotUsed(f, l, i); }
      SlotsAre(f.records[l], SLOTS);
    }
  }

  /** Whatever the run, the records in the order of their keys hold all its extents, neighbours joined, and
      nothing else, and each overflow record bears the number of the blocks before the extent it was opened
      for, whether that went into it or not. */
  lemma {:induction false} NothingLost(xs: seq<Desc>) returns (order: seq<Loc>)
    requires Positive(xs)
    ensures InOrder(Packed(xs).records, order) && (forall i :: 0 <= i < |order| ==> order[i] in Packed(xs).records)
    ensures AllSlots(Packed(xs).records, order) == Coalesced(xs) && AllOpened(xs, order)
  {
    order := HeldIs(xs);
    var f, n := Packed(xs), |order| - 1;
    hide Packed;
    OrderDistinct(f.records, order);
    FullSlots(f, order, n);
    var r := f.records[f.desc];
    forall i: nat | i < SLOTS ensures if i < f.extentNo then r[i].count > 0 else r[i].count == 0 { assert SlotUsed(f, f.desc, i); }
    SlotsAre(r, f.extentNo);
  }

  function Padded(d: seq<Desc>): seq<Desc>
    requires |d| <= SLOTS
  {
    d + Blank()[|d|..]
  }

  /** Where the record that holds the last of `n` extents begins. */
  function Base(n: nat): nat
    requires n > 0
  {
    (n - 1) / SLOTS * SLOTS
  }

  predicate Full(n: nat) {
    n > 0 && n % SLOTS == 0
  }

  lemma {:induction false} BaseStep(n: nat)
    requires n > 0
    ensures Base(n) < n <= Base(n) + SLOTS && (n <= SLOTS <==> Base(n) == 0) && (n > SLOTS ==> Base(n) >= SLOTS)
    ensures Full(n) <==> n == Base(n) + SLOTS
    ensures Base(n + 1) == if Full(n) then n else Base(n)
  {
  }

  /** The record that holds the last of a joined list, */
  function LastLoc(d: seq<Desc>): Loc {
    if |d| <= SLOTS then Catalog else Over(Sum(d[..Base(|d|)]))
  }

  /** and all of them: eight extents at a time, each overflow record keyed by the sum of all counts
      before it. */
  function Records(d: seq<Desc>): map<Loc, seq<Desc>> {
    if |d| <= SLOTS then map[Catalog := Padded(d)]
    else Records(d[..Base(|d|)])[LastLoc(d) := Padded(d[Base(|d|)..])]
  }

  /** The state of the loop, as a function of the joined list. */
  function Layout(d: seq<Desc>): Fork {
    if d == [] then Start()
    else Fork(Records(d), LastLoc(d), |d| - Base(|d|), Sum(d), Slot(LastLoc(d), |d| - Base(|d|) - 1))
  }

  ghost predicate KeysBelow(records: map<Loc, seq<Desc>>, n: nat) {
    forall k: nat :: Over(k) in records ==> k < n
  }

  lemma {:induction false} RecordsFacts(d: seq<Desc>)
    requires Positive(d)
    ensures Catalog in Records(d) && (forall l :: l in Records(d) ==> |Records(d)[l]| == SLOTS)
    ensures KeysBelow(Records(d), Sum(d))
    ensures |d| > SLOTS ==> Sum(d[..Base(|d|)]) < Sum(d)
    ensures Records(d)[Catalog] == Padded(if |d| <= SLOTS then d else d[..SLOTS])
  {
    hide Base, Full, Sum, Padded, Blank, Positive;
    if |d| > SLOTS {
      BaseStep(|d|);
      var k := Base(|d|);
      var a, b := d[..k], d[k..];
      PositiveParts(d, k);
      SumPositive(b);
      RecordsFacts(a);
      WalkConcat(a, b, 0);
      PaddedFull(b);
      FirstSlots(d, k);
    } else {
      PaddedFull(d);
    }
  }

  lemma {:induction false} PositiveParts(d: seq<Desc>, k: nat)
    requires Positive(d) && k <= |d|
    ensures Positive(d[..k]) && Positive(d[k..]) && d == d[..k] + d[k..]
  {
  }

  lemma {:induction false} FirstSlots(d: seq<Desc>, k: nat)
    requires SLOTS <= k <= |d|
    ensures var a := d[..k]; (if |a| <= SLOTS then a else a[..SLOTS]) == d[..SLOTS]
  {
  }

  lemma {:induction false} SumPositive(b: seq<Desc>)
    requires Positive(b) && b != []
    ensures Sum(b) > 0
  {
  }

  lemma {:induction false} PaddedFull(d: seq<Desc>)
    requires |d| <= SLOTS
    ensures |Padded(d)| == SLOTS
  {
  }

  lemma {:induction false} LayoutValid(d: seq<Desc>)
    requires Positive(d)
    ensures Layout(d).Valid()
    ensures d != [] ==> LastLoc(d) in Records(d) && Records(d)[LastLoc(d)] == Padded(d[Base(|d|)..])
    ensures forall x :: Layout(d).Continues(x) <==> Contiguous(d, x)
  {
    if d != [] { BaseStep(|d|); }
    hide Base, Full;
    RecordsFacts(d);
    if d != [] && |d| <= SLOTS { assert d[Base(|d|)..] == d; }
  }

  lemma {:induction false} PaddedPush(d: seq<Desc>, x: Desc)
    requires |d| < SLOTS
    ensures Padded(d + [x]) == Padded(d)[|d| := x]
  {
  }

  lemma {:induction false} PaddedSet(d: seq<Desc>, i: nat, x: Desc)
    requires i < |d| <= SLOTS
    ensures Padded(d[i := x]) == Padded(d)[i := x]
  {
  }

  lemma {:induction false} OpenedIs(f: Fork, x: Desc)
    requires f.Valid() && f.extentNo == SLOTS && Over(f.blk) !in f.records && !f.Continues(x)
    ensures f.Next(x) == Fork(f.records[Over(f.blk) := Blank()[0 := x]], Over(f.blk), 1, f.blk + x.count, Slot(Over(f.blk), 0))
  {
    hide Blank;
    var o := f.Opened();
    assert o.records == f.records[Over(f.blk) := Blank()];
    assert !o.Continues(x);
  }

  lemma {:induction false} NewRecord(d: seq<Desc>, x: Desc)
    requires Full(|d|)
    ensures var e := d + [x];
            && LastLoc(e) == Over(Sum(d)) && Base(|e|) == |d|
            && Records(e) == Records(d)[Over(Sum(d)) := Blank()[0 := x]]
  {
    BaseStep(|d|);
    var e := d + [x];
    assert e[..|d|] == d && e[|d|..] == [x];
    assert Padded([x]) == Blank()[0 := x] by { PaddedPush([], x); assert Padded([]) == Blank() && [] + [x] == [x]; }
    hide Base, Full, Padded, Blank, Sum;
  }

  /** One round on a joined list, when the extent is not contiguous: into a new overflow record, */
  lemma {:induction false} LayoutOpens(d: seq<Desc>, x: Desc)
    requires Positive(d) && Layout(d).Valid() && !Contiguous(d, x) && Full(|d|)
    ensures Layout(d).Next(x) == Layout(d + [x])
  {
    var f := Layout(d);
    assert d != [] && f == Fork(Records(d), LastLoc(d), |d| - Base(|d|), Sum(d), Slot(LastLoc(d), |d| - Base(|d|) - 1));
    assert Sum(d + [x]) == Sum(d) + x.count by { WalkConcat(d, [x], 0); assert Sum([x]) == x.count; }
    hide Padded, Blank, Walk, Sum, Base, Full, Positive, Records, LastLoc, Contiguous;
    LayoutValid(d);
    RecordsFacts(d);
    BaseStep(|d|);
    NewRecord(d, x);
    OpenedIs(f, x);
    hide Fork.Next, Fork.Opened, Fork.Pushed, Fork.Continues, Fork.Valid;
  }

  /** Two joined lists that differ only in their last record. */
  lemma {:induction false} SameRecord(d: seq<Desc>, e: seq<Desc>)
    requires d != [] && |d| <= |e| && Base(|e|) == Base(|d|) && e[..Base(|d|)] == d[..Base(|d|)]
    ensures LastLoc(e) == LastLoc(d) && Records(e) == Records(d)[LastLoc(d) := Padded(e[Base(|d|)..])]
    ensures LastLoc(d) in Records(d) && Records(d)[LastLoc(d)] == Padded(d[Base(|d|)..])
  {
    BaseStep(|d|);
    BaseStep(|e|);
    hide Base, Full, Padded, Sum;
    assert |d| <= SLOTS ==> d[Base(|d|)..] == d && e[Base(|d|)..] == e;
  }

  lemma {:induction false} PushedIs(f: Fork, x: Desc)
    requires f.Valid() && f.extentNo < SLOTS && !f.Continues(x)
    ensures f.Next(x) == Fork(f.records[f.desc := f.records[f.desc][f.extentNo := x]], f.desc, f.extentNo + 1,
                              f.blk + x.count, Slot(f.desc, f.extentNo))
  {
  }

  lemma {:induction false} ExtendedIs(f: Fork, x: Desc)
    requires f.Valid() && f.extentNo < SLOTS && f.Continues(x)
    ensures var r := f.records[f.last.loc];
            f.Next(x) == f.(records := f.records[f.last.loc := r[f.last.i := Desc(r[f.last.i].start, r[f.last.i].count + x.count)]],
                            blk := f.blk + x.count)
  {
  }

  lemma {:induction false} LayoutFirst(x: Desc)
    ensures Start().Next(x) == Layout([x])
  {
    PushedIs(Start(), x);
    assert Sum([x]) == x.count;
    assert Padded([x]) == Blank()[0 := x];
  }

  /** or into the next free slot. */
  lemma {:induction false} LayoutPushes(d: seq<Desc>, x: Desc)
    requires Positive(d) && Layout(d).Valid() && d != [] && !Contiguous(d, x) && !Full(|d|)
    ensures Layout(d).Next(x) == Layout(d + [x])
  {
    hide Walk, Blank, Padded, Positive;
    var e, f := d + [x], Layout(d);
    LayoutValid(d);
    assert !f.Continues(x);
    hide Contiguous;
    BaseStep(|d|);
    hide Base, Full;
    PushedIs(f, x);
    hide Fork.Next, Fork.Opened, Fork.Pushed, Fork.Continues, Fork.Valid;
    WalkConcat(d, [x], 0);
    assert Sum(e) == Sum(d) + x.count;
    hide Sum;
    var b := d[Base(|d|)..];
    PaddedPush(b, x);
    assert e[Base(|d|)..] == b + [x];
    SameRecord(d, e);
    hide Records, LastLoc;
  }

  lemma {:induction false} JoinedLast(d: seq<Desc>, x: Desc)
    requires Contiguous(d, x)
    ensures d != [] && var m := |d| - 1; Joined(d, x) == d[m := Desc(d[m].start, d[m].count + x.count)]
    ensures Joined(d, x)[..|d| - 1] == d[..|d| - 1]
  {
  }

  lemma {:induction false} ExtendedRecords(d: seq<Desc>, x: Desc)
    requires Contiguous(d, x) && !Full(|d|)
    ensures var e, n := Joined(d, x), |d| - 1 - Base(|d|);
            && |e| == |d| && LastLoc(e) == LastLoc(d) && LastLoc(d) in Records(d) && n < |Records(d)[LastLoc(d)]|
            && Records(d)[LastLoc(d)][n] == d[|d| - 1]
            && Records(e) == Records(d)[LastLoc(d) := Records(d)[LastLoc(d)][n := Desc(d[|d| - 1].start, d[|d| - 1].count + x.count)]]
  {
    hide Base, Full, Padded, Sum, Records, LastLoc, Joined, Contiguous, Blank;
    var e, m := Joined(d, x), |d| - 1;
    JoinedLast(d, x);
    BaseStep(|d|);
    LastChanged(d, e, m);
    SameRecord(d, e);
  }

  lemma {:induction false} LastChanged(d: seq<Desc>, e: seq<Desc>, m: nat)
    requires m + 1 == |d| && |e| == |d| && e[..m] == d[..m] && 0 <= |d| - Base(|d|) - 1 < SLOTS && Base(|d|) <= m
    ensures var k := Base(|d|);
            && |d[k..]| <= SLOTS && |Padded(d[k..])| == SLOTS
            && e[..k] == d[..k] && Padded(d[k..])[m - k] == d[m] && Padded(e[k..]) == Padded(d[k..])[m - k := e[m]]
  {
    hide Base, Blank;
    var k := Base(|d|);
    var c := d[k..];
    TailChanged(d, e, m, k);
    hide Padded;
    PaddedSet(c, m - k, e[m]);
    PaddedAt(c, m - k);
  }

  lemma {:induction false} TailChanged(d: seq<Desc>, e: seq<Desc>, m: nat, k: nat)
    requires k <= m < |d| == |e| == m + 1 && e[..m] == d[..m]
    ensures e[..k] == d[..k] && e[k..] == d[k..][m - k := e[m]] && d[k..][m - k] == d[m]
  {
    assert e[..k] == e[..m][..k] && d[..k] == d[..m][..k];
    assert forall i :: 0 <= i < m ==> e[i] == e[..m][i] == d[..m][i];
  }

  lemma {:induction false} PaddedAt(d: seq<Desc>, i: nat)
    requires i < |d| <= SLOTS
    ensures |Padded(d)| == SLOTS && Padded(d)[i] == d[i]
  {
  }

  lemma {:induction false} LayoutIs(d: seq<Desc>)
    requires d != []
    ensures Layout(d) == Fork(Records(d), LastLoc(d), |d| - Base(|d|), Sum(d), Slot(LastLoc(d), |d| - Base(|d|) - 1))
  {
  }

  /** One round on a joined list, when the extent is contiguous and the record is not full. */
  lemma {:induction false} LayoutExtend(d: seq<Desc>, x: Desc)
    requires Positive(d) && Layout(d).Valid() && Contiguous(d, x) && !Full(|d|)
    ensures Layout(d).Next(x) == Layout(Joined(d, x))
  {
    var e, f := Joined(d, x), Layout(d);
    assert d != [];
    hide Padded, Blank, Walk, Sum, Base, Full, Positive, Records, LastLoc, Contiguous, Joined, Layout;
    hide Fork.Next, Fork.Opened, Fork.Extended, Fork.Continues, Fork.Valid;
    JoinedWalk(d, x, 0);
    BaseStep(|d|);
    LayoutIs(d);
    LayoutValid(d);
    ExtendedRecords(d, x);
    LayoutIs(e);
    ExtendedIs(f, x);
  }

  lemma {:induction false} CoalescedPositive(xs: seq<Desc>)
    requires Positive(xs)
    ensures Positive(Coalesced(xs))
  {
    if xs != [] { CoalescedPositive(xs[..|xs| - 1]); }
  }

  /** A clean run fills the records eight at a time: the loop's outcome is the layout of the joined list. */
  lemma {:induction false} CleanPacks(xs: seq<Desc>)
    requires Positive(xs) && Clean(xs)
    ensures Packed(xs) == Layout(Coalesced(xs))
  {
    if xs != [] {
      var init, x := xs[..|xs| - 1], xs[|xs| - 1];
      CleanPacks(init);
      CoalescedPositive(init);
      var d := Coalesced(init);
      LayoutValid(d);
      if Contiguous(d, x) {
        LayoutExtend(d, x);
      } else if Full(|d|) {
        LayoutOpens(d, x);
      } else if d == [] {
        LayoutFirst(x);
        assert [] + [x] == [x];
      } else {
        LayoutPushes(d, x);
      }
    }
  }

  // ----- reading a clean layout -----

  lemma {:induction false} FloorIs(records: map<Loc, seq<Desc>>, j: nat, k: nat)
    requires Over(k) in records && k <= j
    requires forall h: nat :: Over(h) in records ==> h <= k || h > j
    ensures FloorKey(records, j) == Some(k)
  {
    if k < j { FloorIs(records, j - 1, k); }
  }

  lemma {:induction false} FloorBelow(records: map<Loc, seq<Desc>>, j: nat, k: nat, v: seq<Desc>)
    requires j < k
    ensures FloorKey(records[Over(k) := v], j) == FloorKey(records, j)
    ensures var f := FloorKey(records, j); f.Some? ==> f.value <= j && Over(f.value) in records
  {
    if j > 0 { FloorBelow(records, j - 1, k, v); }
  }

  lemma {:induction false} BlankWalk(n: nat, j: nat)
    requires n <= SLOTS
    ensures Walk(Blank()[n..], j) == None && Sum(Blank()[n..]) == 0
    decreases SLOTS - n
  {
    if n < SLOTS {
      assert Blank()[n..][1..] == Blank()[n + 1..];
      BlankWalk(n + 1, j);
    } else {
      assert Blank()[n..] == [];
    }
  }

  lemma {:induction false} PaddedWalk(d: seq<Desc>, j: nat)
    requires |d| <= SLOTS
    ensures Walk(Padded(d), j) == Walk(d, j)
  {
    WalkConcat(d, Blank()[|d|..], j);
    BlankWalk(|d|, if j < Sum(d) then 0 else j - Sum(d));
  }

  /** Reading by way of the catalog record and the overflow records is walking the list. */
  lemma {:induction false} ReadRecords(d: seq<Desc>, j: nat)
    requires Positive(d)
    requires Catalog in Records(d)
    ensures Read(Records(d), j) == Walk(d, j)
    decreases |d|
  {
    hide Records, Padded, Blank, Base, Full, Walk, Sum, Read, Positive, KeysBelow;
    if |d| <= SLOTS {
      ReadFirst(d, j);
    } else {
      var a, b := LastSplit(d);
      RecordsFacts(a);
      ReadRecords(a, j);
      ReadLater(Records(a), a, b, j);
    }
  }

  lemma {:induction false} ReadFirst(d: seq<Desc>, j: nat)
    requires |d| <= SLOTS
    ensures Catalog in Records(d) && Read(Records(d), j) == Walk(d, j)
  {
    hide Padded, Walk;
    PaddedWalk(d, j);
    FloorBelow(Records(d), j, j + 1, []);
  }

  lemma {:induction false} LastSplit(d: seq<Desc>) returns (a: seq<Desc>, b: seq<Desc>)
    requires Positive(d) && |d| > SLOTS
    ensures d == a + b && |a| < |d| && |b| <= SLOTS && Positive(a)
    ensures Records(d) == Records(a)[Over(Sum(a)) := Padded(b)]
  {
    BaseStep(|d|);
    hide Padded, Sum, Base, Full;
    a, b := d[..Base(|d|)], d[Base(|d|)..];
  }

  /** One more record, keyed by the blocks before it. */
  lemma {:induction false} ReadLater(records: map<Loc, seq<Desc>>, a: seq<Desc>, b: seq<Desc>, j: nat)
    requires Catalog in records && KeysBelow(records, Sum(a)) && |b| <= SLOTS && Read(records, j) == Walk(a, j)
    ensures Read(records[Over(Sum(a)) := Padded(b)], j) == Walk(a + b, j)
  {
    hide Padded, Sum, Blank, KeysBelow, Walk;
    WalkConcat(a, b, j);
    var k := Sum(a);
    var more := records[Over(k) := Padded(b)];
    assert more[Catalog] == records[Catalog];
    if j >= k {
      assert Walk(records[Catalog], j).None?;
      assert forall h: nat :: Over(h) in more ==> h <= k by { KeysAt(records, k); }
      FloorIs(more, j, k);
      PaddedWalk(b, j - k);
    } else {
      FloorBelow(records, j, k, Padded(b));
    }
  }

  lemma {:induction false} KeysAt(records: map<Loc, seq<Desc>>, k: nat)
    requires KeysBelow(records, k)
    ensures forall h: nat :: Over(h) in records ==> h < k
  {
  }

  // ----- runs that are not clean -----

  predicate In(v: nat, x: Desc) {
    x.start <= v < x.start + x.count
  }

  /** No two extents share a target block. */
  predicate Apart(xs: seq<Desc>) {
    forall i, j :: 0 <= i < j < |xs| ==> xs[i].start + xs[i].count <= xs[j].start || xs[j].start + xs[j].count <= xs[i].start
  }

  lemma {:induction false} WalkIn(xs: seq<Desc>, j: nat)
    requires Walk(xs, j).Some?
    ensures exists i :: 0 <= i < |xs| && In(Walk(xs, j).value, xs[i])
  {
    if j >= xs[0].count {
      WalkIn(xs[1..], j - xs[0].count);
      var i :| 0 <= i < |xs[1..]| && In(Walk(xs, j).value, xs[1..][i]);
      assert In(Walk(xs, j).value, xs[i + 1]);
    } else {
      assert In(Walk(xs, j).value, xs[0]);
    }
  }

  predicate BlankFrom(r: seq<Desc>, i: nat) {
    |r| == SLOTS && i <= SLOTS && r[i..] == Blank()[i..]
  }

  lemma {:induction false} LastWalk(r: seq<Desc>, i: nat, t: nat)
    requires i < SLOTS && BlankFrom(r, i + 1)
    ensures var u := t - Sum(r[..i]);
            Walk(r, t) == if u < 0 then Walk(r[..i], t) else if u < r[i].count then Some(r[i].start + u) else None
  {
    var a, c := r[..i], r[i..];
    assert r == a + c;
    WalkConcat(a, c, t);
    assert c[1..] == Blank()[i + 1..];
    var u := t - Sum(a);
    BlankWalk(i + 1, if u < c[0].count then 0 else u - c[0].count);
  }

  /** Writing an extent that does not cover `v` never makes a record yield `v`. */
  lemma {:induction false} WriteWalk(r: seq<Desc>, i: nat, d: Desc, x: Desc, t: nat, v: nat)
    requires i < SLOTS && BlankFrom(r, i + 1) && !In(v, x) && Walk(r, t) != Some(v)
    requires (r[i].count == 0 && d == x) || (r[i].start + r[i].count == x.start && d == Desc(r[i].start, r[i].count + x.count))
    ensures Walk(r[i := d], t) != Some(v)
  {
    assert r[i := d][i + 1..] == r[i + 1..] && r[i := d][..i] == r[..i];
    LastWalk(r, i, t);
    LastWalk(r[i := d], i, t);
    hide Walk, Sum, BlankFrom;
  }

  /** The loop has gone past the full catalog record and gone on lengthening its last descriptor: the
      overflow record opened at `b` is empty and `b` lies inside that descriptor. */
  predicate Stuck(f: Fork, d: seq<Desc>, b: nat) {
    && |d| == SLOTS && b < Sum(d)
    && f == Fork(map[Catalog := d, Over(b) := Blank()], Over(b), 0, Sum(d), Slot(Catalog, SLOTS - 1))
  }

  /** Block `j` is looked up in the record keyed `b`, which does not yield `v` for it; and no later
      round can correct that. */
  ghost predicate Misread(f: Fork, j: nat, v: nat, b: nat) {
    && Settled(f)
    && Over(b) in f.records && b <= j < f.blk
    && (forall k: nat :: Over(k) in f.records ==> k <= b || k > j)
    && Walk(f.records[Catalog], j) == None
    && Walk(f.records[Over(b)], j - b) != Some(v)
  }

  predicate Settled(f: Fork) {
    && f.Valid() && f.desc.Over? && f.last.Slot? && f.last.loc.Over?
    && BlankFrom(f.records[f.desc], f.extentNo) && BlankFrom(f.records[f.last.loc], f.last.i + 1)
    && (f.desc == f.last.loc ==> f.last.i < f.extentNo)
  }

  lemma {:induction false} StuckBegins(d: seq<Desc>, x: Desc)
    requires Positive(d) && |d| == SLOTS && Contiguous(d, x) && x.count > 0
    ensures Stuck(Layout(d).Next(x), Joined(d, x), Sum(d))
  {
    var f, e := Layout(d), Joined(d, x);
    assert Padded(d) == d;
    assert e == d[7 := e[7]];
    JoinedWalk(d, x, 0);
    hide Sum;
    assert f.Opened() == Fork(map[Catalog := d, Over(Sum(d)) := Blank()], Over(Sum(d)), 0, Sum(d), f.last);
  }

  lemma {:induction false} StuckContinues(f: Fork, d: seq<Desc>, b: nat, x: Desc)
    requires Stuck(f, d, b) && Contiguous(d, x)
    ensures f.Valid() && Stuck(f.Next(x), Joined(d, x), b)
  {
    var e := Joined(d, x);
    assert e == d[7 := e[7]];
    JoinedWalk(d, x, 0);
    hide Sum, Joined;
    ExtendedIs(f, x);
  }

  /** The next extent that is not contiguous goes to the head of the record keyed `b`, though it
      starts at a later block. */
  lemma {:induction false} StuckBreaks(f: Fork, d: seq<Desc>, b: nat, x: Desc)
    requires Stuck(f, d, b) && !Contiguous(d, x) && x.count > 0
    ensures f.Valid() && Misread(f.Next(x), Sum(d), x.start, b) && KeysBelow(f.Next(x).records, f.Next(x).blk)
  {
    PushedIs(f, x);
    WalkConcat(d, [], Sum(d));
    assert d + [] == d;
    var r, t := Blank()[0 := x], Sum(d) - b;
    assert r == [x] + Blank()[1..];
    WalkConcat([x], Blank()[1..], t);
    BlankWalk(1, if t < x.count then 0 else t - x.count);
    assert Sum([x]) == x.count;
    hide Walk, Sum;
    assert BlankFrom(r, 1);
  }

  /** A full overflow record met by a contiguous extent: the new record hides that extent. */
  lemma {:induction false} FullBreaks(d: seq<Desc>, x: Desc)
    requires Positive(d) && Full(|d|) && |d| > SLOTS && Contiguous(d, x) && x.count > 0
    ensures Layout(d).Valid() && var f := Layout(d).Next(x);
            Misread(f, Sum(d), x.start, Sum(d)) && KeysBelow(f.records, f.blk)
  {
    hide Contiguous;
    LayoutValid(d);
    RecordsFacts(d);
    BaseStep(|d|);
    var f, n, h := Layout(d), Sum(d), d[..SLOTS];
    assert d == h + d[SLOTS..];
    WalkConcat(h, d[SLOTS..], n);
    PaddedWalk(h, n);
    BlankWalk(0, 0);
    assert BlankFrom(Blank(), 0);
    hide Full, Base, Padded, Records, Walk, Sum, Positive;
    assert f.Continues(x);
    assert Over(n) !in f.records;
    var o := f.Opened();
    assert o == Fork(f.records[Over(n) := Blank()], Over(n), 0, n, f.last);
    hide Blank;
    assert o.Continues(x);
    assert f.last.i == SLOTS - 1;
  }

  lemma {:induction false} MisreadOpens(f: Fork, j: nat, v: nat, b: nat)
    requires f.Valid() && Misread(f, j, v, b) && KeysBelow(f.records, f.blk)
    ensures Misread(f.Opened(), j, v, b) && KeysBelow(f.Opened().records, f.blk + 1)
  {
    assert BlankFrom(Blank(), 0);
    hide Blank, Walk;
  }

  lemma {:induction false} MisreadExtends(o: Fork, j: nat, v: nat, b: nat, x: Desc)
    requires o.Valid() && Misread(o, j, v, b) && o.Continues(x) && !In(v, x)
    ensures Misread(o.Extended(x), j, v, b)
  {
    hide Walk, Blank, In, Fork.Next;
    var l, i := o.last.loc, o.last.i;
    var r: seq<Desc> := o.records[l];
    var d := Desc(r[i].start, r[i].count + x.count);
    if l == Over(b) { WriteWalk(r, i, d, x, j - b, v); }
    assert o.Extended(x) == o.(records := o.records[l := r[i := d]], blk := o.blk + x.count);
    hide Fork.Extended, Fork.Continues, Fork.Opened;
    assert BlankFrom(r[i := d], i + 1) by { assert r[i := d][i + 1..] == r[i + 1..]; }
    assert l == o.desc ==> r[i := d][o.extentNo..] == r[o.extentNo..];
    assert l == o.desc ==> BlankFrom(r[i := d], o.extentNo);
    hide BlankFrom;
  }

  lemma {:induction false} BlankPushed(r: seq<Desc>, i: nat, x: Desc)
    requires BlankFrom(r, i) && i < SLOTS
    ensures r[i].count == 0 && BlankFrom(r, i + 1) && BlankFrom(r[i := x], i + 1)
  {
    assert r[i] == Blank()[i] by { assert r[i..][0] == Blank()[i..][0]; }
    assert Blank()[i] == Desc(0, 0);
    hide Blank;
    assert r[i + 1..] == r[i..][1..] == Blank()[i..][1..];
    assert r[i := x][i + 1..] == r[i + 1..];
  }

  lemma {:induction false} MisreadPushes(o: Fork, j: nat, v: nat, b: nat, x: Desc)
    requires o.Valid() && Misread(o, j, v, b) && o.extentNo < SLOTS && !In(v, x)
    ensures Misread(o.Pushed(x), j, v, b)
  {
    hide Walk, Blank, In, BlankFrom, Fork.Next, Fork.Opened, Fork.Continues, Fork.Extended;
    var l, i := o.desc, o.extentNo;
    var r: seq<Desc> := o.records[l];
    BlankPushed(r, i, x);
    if l == Over(b) { WriteWalk(r, i, x, x, j - b, v); }
  }

  /** Once a block is misread it stays so. */
  lemma {:induction false} MisreadStays(f: Fork, j: nat, v: nat, b: nat, x: Desc)
    requires f.Valid() && Misread(f, j, v, b) && KeysBelow(f.records, f.blk) && x.count > 0 && !In(v, x)
    ensures Misread(f.Next(x), j, v, b) && KeysBelow(f.Next(x).records, f.Next(x).blk)
  {
    MisreadOpens(f, j, v, b);
    if f.Opened().Continues(x) {
      MisreadExtends(f.Opened(), j, v, b, x);
    } else {
      MisreadPushes(f.Opened(), j, v, b, x);
    }
    hide Misread, In;
  }

  /** The loop loses an extent of `xs`. */
  ghost predicate Loses(xs: seq<Desc>, j: nat, v: nat, b: nat) {
    Misread(Packed(xs), j, v, b) && KeysBelow(Packed(xs).records, Packed(xs).blk) && Walk(xs, j) == Some(v)
  }

  lemma {:induction false} LosesStays(xs: seq<Desc>, x: Desc, j: nat, v: nat, b: nat)
    requires Loses(xs, j, v, b) && Apart(xs + [x]) && x.count > 0
    ensures Loses(xs + [x], j, v, b)
  {
    assert (xs + [x])[..|xs|] == xs;
    WalkIn(xs, j);
    var i :| 0 <= i < |xs| && In(v, xs[i]);
    assert (xs + [x])[i] == xs[i] && (xs + [x])[|xs|] == x;
    assert !In(v, x);
    MisreadStays(Packed(xs), j, v, b, x);
    WalkConcat(xs, [x], j);
    hide Misread, KeysBelow;
  }

  predicate Whole(xs: seq<Desc>) {
    |Coalesced(xs)| <= SLOTS || Clean(xs)
  }

  lemma {:induction false} Unfolded(init: seq<Desc>, x: Desc)
    ensures var xs := init + [x];
            && Coalesced(xs) == Joined(Coalesced(init), x) && Packed(xs) == Packed(init).Next(x)
            && (Clean(xs) <==> Clean(init) && (Full(|Coalesced(init)|) ==> !Contiguous(Coalesced(init), x)))
  {
    var xs := init + [x];
    assert xs[..|xs| - 1] == init && xs[|xs| - 1] == x;
    hide Full, Joined, Contiguous, Fork.Next;
  }

  lemma {:induction false} NextBlock(init: seq<Desc>, x: Desc)
    requires x.count > 0
    ensures Sum(Coalesced(init)) == Sum(init) && Walk(init + [x], Sum(init)) == Some(x.start)
  {
    assert Walk([x], 0) == Some(x.start);
    hide Sum, Walk;
    CoalescedWalk(init, 0);
    WalkConcat(init, [x], Sum(init));
  }

  lemma {:induction false} Appended(init: seq<Desc>, x: Desc)
    requires Positive(init + [x])
    ensures var xs := init + [x];
            && Positive(init) && x.count > 0
            && Coalesced(xs) == Joined(Coalesced(init), x) && Packed(xs) == Packed(init).Next(x)
            && (Clean(xs) <==> Clean(init) && (Full(|Coalesced(init)|) ==> !Contiguous(Coalesced(init), x)))
            && Sum(Coalesced(init)) == Sum(init) && Walk(xs, Sum(init)) == Some(x.start)
    ensures |Joined(Coalesced(init), x)| == if Contiguous(Coalesced(init), x) then |Coalesced(init)| else |Coalesced(init)| + 1
  {
    var xs := init + [x];
    assert xs[..|init|] == init && xs[|init|] == x;
    assert Positive(init) && x.count > 0;
    hide Positive, Sum, Walk, Full, Coalesced, Packed, Clean;
    Unfolded(init, x);
    NextBlock(init, x);
    hide Fork.Next;
  }

  lemma {:induction false} LosesAt(xs: seq<Desc>, f: Fork, j: nat, v: nat, b: nat)
    requires f == Packed(xs) && Misread(f, j, v, b) && KeysBelow(f.records, f.blk) && Walk(xs, j) == Some(v)
    ensures Loses(xs, j, v, b)
  {
  }

  /** Reading the stuck state. */
  lemma {:induction false} ReadStuck(f: Fork, d: seq<Desc>, b: nat, j: nat)
    requires Stuck(f, d, b)
    ensures Read(f.records, j) == Walk(d, j)
  {
    FloorBelow(f.records, j, j + 1, []);
    assert Blank()[0..] == Blank();
    if j >= b { BlankWalk(0, j - b); FloorIs(f.records, j, b); }
  }

  /** A run that is not clean but fits the catalog record leaves the loop stuck in an empty overflow
      record. */
  lemma {:induction false} FittingSticks(xs: seq<Desc>)
    requires Positive(xs) && !Clean(xs) && |Coalesced(xs)| <= SLOTS
    ensures exists b: nat :: Stuck(Packed(xs), Coalesced(xs), b)
  {
    var init, x := xs[..|xs| - 1], xs[|xs| - 1];
    var d := Coalesced(init);
    assert xs == init + [x];
    Appended(init, x);
    CoalescedPositive(init);
    hide Coalesced, Packed, Positive, Stuck, Layout, Full, Clean, Joined;
    if Clean(init) {
      CleanPacks(init);
      FullFirst(|d|);
      StuckBegins(d, x);
      assert Stuck(Packed(xs), Coalesced(xs), Sum(d));
    } else {
      FittingSticks(init);
      var b: nat :| Stuck(Packed(init), d, b);
      StuckStays(init, x, b);
    }
  }

  lemma {:induction false} FullFirst(n: nat)
    ensures Full(n) && n <= SLOTS ==> n == SLOTS
  {
  }

  lemma {:induction false} StuckStays(init: seq<Desc>, x: Desc, b: nat)
    requires Positive(init + [x]) && Stuck(Packed(init), Coalesced(init), b) && |Coalesced(init + [x])| <= SLOTS
    ensures Stuck(Packed(init + [x]), Coalesced(init + [x]), b)
  {
    Appended(init, x);
    var d := Coalesced(init);
    assert |d| == SLOTS;
    hide Coalesced, Packed, Joined, Positive, Stuck, Contiguous, Fork.Next;
    StuckContinues(Packed(init), d, b, x);
  }

  lemma {:induction false} LastApart(xs: seq<Desc>)
    requires Apart(xs) && !Clean(xs)
    ensures xs != [] && xs == xs[..|xs| - 1] + [xs[|xs| - 1]] && Apart(xs[..|xs| - 1])
  {
    hide Coalesced, Contiguous, Full;
  }

  lemma {:induction false} FullOrNot(n: nat)
    requires Full(n)
    ensures n == SLOTS || n > SLOTS
  {
  }

  /** A run that is neither clean nor fits the catalog record loses a block: the one where the loop met
      a full record and went on, or the first behind the catalog record. */
  lemma {:induction false} OverflowingLoses(xs: seq<Desc>)
    requires Positive(xs) && Apart(xs) && !Whole(xs)
    ensures exists j: nat, v: nat, b: nat :: Loses(xs, j, v, b)
  {
    var init, x := xs[..|xs| - 1], xs[|xs| - 1];
    var d := Coalesced(init);
    hide Coalesced, Packed, Positive, Apart, Stuck, Loses, Layout, Full, Clean, Joined, Contiguous, Walk, Sum, Misread, KeysBelow, Fork.Next, Fork.Valid;
    LastApart(xs);
    Appended(init, x);
    CoalescedPositive(init);
    if Clean(init) {
      FullOrNot(|d|);
      CleanPacks(init);
      FullBreaks(d, x);
      LosesAt(xs, Layout(d).Next(x), Sum(d), x.start, Sum(d));
    } else if |d| <= SLOTS {
      FittingSticks(init);
      var b: nat :| Stuck(Packed(init), d, b);
      StuckBreaks(Packed(init), d, b, x);
      LosesAt(xs, Packed(init).Next(x), Sum(d), x.start, b);
    } else {
      OverflowingLoses(init);
      var j: nat, v: nat, b: nat :| Loses(init, j, v, b);
      LosesStays(init, x, j, v, b);
    }
  }

  /** A host reads every block of a file where the extent list puts it when the joined extents fit the
      catalog record, or no extent that meets a full record is contiguous with the one before it;
      extents may be listed more than once. */
  lemma {:induction false} WholeReads(xs: seq<Desc>, j: nat)
    requires Positive(xs) && Whole(xs)
    ensures Read(Packed(xs).records, j) == Walk(xs, j)
  {
    CoalescedWalk(xs, j);
    CoalescedPositive(xs);
    hide Read, Walk, Packed, Coalesced, Stuck, Positive;
    if Clean(xs) {
      CleanPacks(xs);
      LayoutRecords(Coalesced(xs));
      ReadRecords(Coalesced(xs), j);
    } else {
      FittingSticks(xs);
      var b: nat :| Stuck(Packed(xs), Coalesced(xs), b);
      ReadStuck(Packed(xs), Coalesced(xs), b, j);
    }
  }

  /** The block map a host reads is the one the extent list walks, for every file block, whenever a run
      is whole; for extents that share no block exactly then. */
  lemma {:induction false} BlockMap(xs: seq<Desc>)
    requires Positive(xs)
    ensures Whole(xs) ==> forall j: nat :: Read(Packed(xs).records, j) == Walk(xs, j)
    ensures Apart(xs) && (forall j: nat :: Read(Packed(xs).records, j) == Walk(xs, j)) ==> Whole(xs)
  {
    if Whole(xs) {
      forall j: nat ensures Read(Packed(xs).records, j) == Walk(xs, j) { WholeReads(xs, j); }
    } else if Apart(xs) {
      OverflowingLoses(xs);
      var j: nat, v: nat, b: nat :| Loses(xs, j, v, b);
      FloorIs(Packed(xs).records, j, b);
      assert Read(Packed(xs).records, j) != Walk(xs, j);
    }
  }

  lemma {:induction false} LayoutRecords(d: seq<Desc>)
    requires Positive(d)
    ensures Layout(d).records == Records(d) && Catalog in Records(d)
  {
    RecordsFacts(d);
    if d == [] { assert Padded(d) == Blank(); }
  }

  /** The extents of record `m`. */
  function Part(d: seq<Desc>, m: nat): seq<Desc>
    requires SLOTS * m < |d|
  {
    if SLOTS * (m + 1) <= |d| then d[SLOTS * m..SLOTS * (m + 1)] else d[SLOTS * m..]
  }

  /** Each overflow record is keyed by the number of blocks in all extents before its own. */
  lemma {:induction false} OverflowKeys(xs: seq<Desc>, m: nat)
    requires Positive(xs) && Clean(xs)
    requires 0 < m && SLOTS * m < |Coalesced(xs)|
    ensures var d := Coalesced(xs);
            var k := Over(Sum(d[..SLOTS * m]));
            k in Packed(xs).records && Packed(xs).records[k] == Padded(Part(d, m))
  {
    CleanPacks(xs);
    CoalescedPositive(xs);
    RecordsKeys(Coalesced(xs), m);
    LayoutRecords(Coalesced(xs));
  }

  lemma {:induction false} RecordsKeys(d: seq<Desc>, m: nat)
    requires Positive(d) && 0 < m && SLOTS * m < |d|
    ensures var k := Over(Sum(d[..SLOTS * m])); k in Records(d) && Records(d)[k] == Padded(Part(d, m))
  {
    var n := Base(|d|);
    var a := d[..n];
    if SLOTS * m < n {
      assert SLOTS * (m + 1) <= n;
      assert a[..SLOTS * m] == d[..SLOTS * m] && Part(a, m) == Part(d, m);
      assert |d| > SLOTS && Positive(a);
      RecordsKeys(a, m);
      RecordsFacts(a);
      hide Part, Base, Padded, Sum, Positive;
    } else {
      assert SLOTS * m == n && d[n..] == Part(d, m);
      hide Part, Base, Padded, Sum, Positive;
    }
  }

  /** Extents of which no two neighbours are contiguous. */
  predicate Gapped(d: seq<Desc>) {
    forall i :: 0 < i < |d| ==> GapAt(d, i)
  }

  predicate GapAt(d: seq<Desc>, i: nat)
    requires 0 < i < |d|
  {
    d[i - 1].start + d[i - 1].count != d[i].start
  }

  lemma {:induction false} GappedInit(d: seq<Desc>)
    requires Gapped(d) && d != []
    ensures Gapped(d[..|d| - 1]) && !Contiguous(d[..|d| - 1], d[|d| - 1])
  {
    var init := d[..|d| - 1];
    forall i | 0 < i < |init| ensures GapAt(init, i) { assert GapAt(d, i); }
    if init != [] { assert GapAt(d, |d| - 1); }
  }

  lemma {:induction false} GappedIsClean(d: seq<Desc>)
    requires Gapped(d)
    ensures Coalesced(d) == d && Clean(d)
  {
    if d != [] {
      var init, x := d[..|d| - 1], d[|d| - 1];
      GappedInit(d);
      hide Gapped, Contiguous, Full;
      GappedIsClean(init);
      assert d == init + [x];
    }
  }

  function Tens(at: nat, n: nat): (d: seq<Desc>)
    ensures |d| == n && forall i: nat :: i < n ==> d[i] == Desc(at + 10 * i, 1)
  {
    if n == 0 then [] else Tens(at, n - 1) + [Desc(at + 10 * (n - 1), 1)]
  }

  /** Anywhere on the target: eight gapped extents, a ninth that continues the eighth, and a tenth. The
      ninth lengthens the eighth's descriptor after the overflow record has been opened, so the tenth
      is filed two blocks early. */
  lemma {:induction false} PackingLosesBlocks(at: nat)
    ensures var xs := Tens(at, 8) + [Desc(at + 71, 2)] + [Desc(at + 90, 5)];
            Positive(xs) && Apart(xs) && exists j: nat :: Read(Packed(xs).records, j) != Walk(xs, j)
  {
    hide Tens, Read, Walk, Packed, Clean, Coalesced;
    var d, y, z := Tens(at, 8), Desc(at + 71, 2), Desc(at + 90, 5);
    var e := d + [y];
    var xs := e + [z];
    assert Positive(xs) && Apart(xs) && Gapped(d);
    assert Positive(e) && Contiguous(d, y) && Full(|d|);
    hide Positive, Apart, Gapped, Full;
    GappedIsClean(d);
    Appended(d, y);
    assert Coalesced(e)[7] == Desc(at + 70, 3);
    Appended(e, z);
    assert |Coalesced(xs)| == 9 && !Clean(xs);
    hide Contiguous;
    BlockMap(xs);
  }
}
