/** The ISO 9660 path table: folders numbered breadth first by inserting children into the ordered map
    that is being walked (`CD9660Out::plan`). */
module CdPathTable {
  import opened Lexical
  import Folders
  import Words

  /** Folder 0 is the root; every other folder comes after its parent. */
  datatype Dirs = Dirs(parent: seq<nat>, name: seq<Key>)
  {
    ghost predicate Valid() {
      && 0 < |parent| == |name|
      && (forall c :: 0 < c < |parent| ==> parent[c] < c)
      && (forall a, b :: 0 < a < b < |parent| && parent[a] == parent[b] ==> name[a] != name[b])
    }

    function Level(c: nat): nat
      requires Valid() && c < |parent|
    {
      if c == 0 then 1 else Level(parent[c]) + 1
    }
  }

  /** The folders of a path list. */
  function DirsOf(rows: seq<Folders.Row>): (d: Dirs)
    ensures |d.parent| == |d.name| == |rows|
    ensures forall i :: 0 <= i < |rows| ==> d.parent[i] == rows[i].parent && d.name[i] == rows[i].name
  {
    if rows == [] then Dirs([], []) else
    var d := DirsOf(rows[..|rows| - 1]);
    Dirs(d.parent + [rows[|rows| - 1].parent], d.name + [rows[|rows| - 1].name])
  }

  /** Every source tree gives folders that can be numbered. */
  lemma {:induction false} TreeValid(tree: Folders.Dir)
    requires Folders.Named(tree)
    ensures DirsOf(Folders.Rows(tree, 0, 0)).Valid()
  {
    Folders.PathList(tree);
    hide Folders.Rows;
  }

  /** The table stops short of this many folders. */
  const CAP := 0x1_0000

  /** An entry of the map. */
  datatype Slot = Slot(key: Key, dir: nat)

  ghost predicate Sorted(t: seq<Slot>) {
    forall i, j :: 0 <= i < j < |t| ==> Less(t[i].key, t[j].key)
  }

  function Rank(t: seq<Slot>, key: Key): (r: nat)
    ensures r <= |t|
  {
    if t == [] || !Less(t[0].key, key) then 0 else 1 + Rank(t[1..], key)
  }

  /** `operator[]` and assignment. */
  function Put(t: seq<Slot>, s: Slot): seq<Slot> {
    var r := Rank(t, s.key);
    if r < |t| && t[r].key == s.key then t[r := s] else t[..r] + [s] + t[r..]
  }

  lemma {:induction false} RankIs(t: seq<Slot>, key: Key)
    requires Sorted(t)
    ensures forall i :: 0 <= i < Rank(t, key) ==> Less(t[i].key, key)
    ensures forall i :: Rank(t, key) <= i < |t| ==> !Less(t[i].key, key)
  {
    if t != [] {
      if Less(t[0].key, key) {
        RankIs(t[1..], key);
        assert forall i :: 0 < i < |t| ==> t[i] == t[1..][i - 1];
      } else {
        forall i | 0 <= i < |t| ensures !Less(t[i].key, key) {
          if i > 0 && Less(t[i].key, key) { Transitive(t[0].key, t[i].key, key); }
        }
      }
    }
  }

  /** Insertion of a new key keeps the order, and puts it after every smaller key. */
  lemma {:induction false} PutSorted(t: seq<Slot>, s: Slot)
    requires Sorted(t) && forall i :: 0 <= i < |t| ==> t[i].key != s.key
    ensures var r := Rank(t, s.key); Put(t, s) == t[..r] + [s] + t[r..] && Sorted(Put(t, s))
  {
    var r := Rank(t, s.key);
    RankIs(t, s.key);
    forall i | r <= i < |t| ensures Less(s.key, t[i].key) { Trichotomy(s.key, t[i].key); }
    hide Rank, Less;
  }

  // ----- the state of the walk -----

  /** The children below `m` of folder number `k` are in the map, and all children of earlier ones.
      Position `k` is the folder being listed; a folder's number is its position plus one. */
  ghost predicate Placed(d: Dirs, t: seq<Slot>, k: nat, m: nat, i: nat)
    requires d.Valid() && i < |t|
  {
    var s := t[i];
    && s.dir < |d.parent|
    && (i == 0 ==> s == Slot([1, 1, 0], 0))
    && (i > 0 ==>
          && s.dir > 0 && |s.key| >= 2
          && var p := s.key[1] - 1;
          && 0 <= p < i && (p < k || (p == k && s.dir < m))
          && t[p].key != [] && t[p].dir == d.parent[s.dir]
          && s.key == [t[p].key[0] + 1, p + 1] + d.name[s.dir])
  }

  ghost predicate Member(t: seq<Slot>, dir: nat) {
    exists i :: 0 <= i < |t| && t[i].dir == dir
  }

  ghost predicate Distinct(t: seq<Slot>) {
    forall i, j :: 0 <= i < j < |t| ==> t[i].dir != t[j].dir
  }

  ghost predicate Complete(d: Dirs, t: seq<Slot>, k: nat, m: nat)
    requires d.Valid()
  {
    && (forall c, p :: 0 < c < |d.parent| && 0 <= p < k && p < |t| && t[p].dir == d.parent[c] ==> Member(t, c))
    && (forall c :: 0 < c < m && c < |d.parent| && k < |t| && t[k].dir == d.parent[c] ==> Member(t, c))
  }

  ghost predicate AllPlaced(d: Dirs, t: seq<Slot>, k: nat, m: nat)
    requires d.Valid()
  {
    forall i :: 0 <= i < |t| ==> Placed(d, t, k, m, i)
  }

  ghost predicate Inv(d: Dirs, t: seq<Slot>, k: nat, m: nat)
    requires d.Valid()
  {
    t != [] && Sorted(t) && Distinct(t) && AllPlaced(d, t, k, m) && Complete(d, t, k, m)
  }

  function ChildKey(d: Dirs, t: seq<Slot>, k: nat, c: nat): Key
    requires d.Valid() && k < |t| && t[k].key != [] && c < |d.name|
  {
    [t[k].key[0] + 1, k + 1] + d.name[c]
  }

  /** The children of the folder listed are new to the map and come after it. */
  lemma {:induction false} ChildIsNew(d: Dirs, t: seq<Slot>, k: nat, c: nat)
    requires d.Valid() && Inv(d, t, k, c) && k < |t| && 0 < c < |d.parent| && d.parent[c] == t[k].dir
    ensures t[k].key != []
    ensures var key := ChildKey(d, t, k, c);
            && (forall i :: 0 <= i < |t| ==> t[i].key != key && t[i].dir != c)
            && Rank(t, key) > k
  {
    assert Placed(d, t, k, c, k);
    var key := ChildKey(d, t, k, c);
    forall i | 0 <= i < |t| ensures t[i].key != key && t[i].dir != c {
      assert Placed(d, t, k, c, i);
      if i > 0 {
        var p := t[i].key[1] - 1;
        assert Placed(d, t, k, c, p);
        assert t[i].key[2..] == d.name[t[i].dir] && key[2..] == d.name[c];
        assert t[i].key == key ==> p == k;
        assert t[i].dir == c ==> p == k;
      } else {
        assert key[0] != 1 by { LevelPositive(d, t, k, c, k); }
      }
    }
    RankIs(t, key);
    assert Less(t[k].key, key);
  }

  lemma {:induction false} LevelPositive(d: Dirs, t: seq<Slot>, k: nat, m: nat, i: nat)
    requires d.Valid() && i < |t|
    requires AllPlaced(d, t, k, m)
    ensures t[i].key != [] && t[i].dir < |d.parent| && t[i].key[0] == d.Level(t[i].dir) >= 1
  {
    assert Placed(d, t, k, m, i);
    if i > 0 { LevelPositive(d, t, k, m, t[i].key[1] - 1); }
  }

  lemma {:induction false} InsertPlaced(d: Dirs, t: seq<Slot>, k: nat, c: nat, r: nat, s: Slot)
    requires d.Valid() && AllPlaced(d, t, k, c) && k < r <= |t| && 0 < c < |d.parent| && d.parent[c] == t[k].dir
    requires t[k].key != [] && s == Slot(ChildKey(d, t, k, c), c)
    ensures AllPlaced(d, t[..r] + [s] + t[r..], k, c + 1)
  {
    var u, n := t[..r] + [s] + t[r..], c + 1;
    assert forall i :: 0 <= i < r ==> u[i] == t[i];
    assert forall i :: r < i < |u| ==> u[i] == t[i - 1];
    forall i | 0 <= i < |u| ensures Placed(d, u, k, n, i) {
      if i < r {
        assert Placed(d, t, k, c, i);
      } else if i > r {
        assert Placed(d, t, k, c, i - 1);
      }
    }
  }

  lemma {:induction false} InsertComplete(d: Dirs, t: seq<Slot>, k: nat, c: nat, r: nat, s: Slot)
    requires d.Valid() && Complete(d, t, k, c) && k < r <= |t| && s.dir == c
    ensures Complete(d, t[..r] + [s] + t[r..], k, c + 1)
  {
    var u := t[..r] + [s] + t[r..];
    InsertMembers(t, s, r);
    hide Member;
    assert forall i :: 0 <= i < r ==> u[i] == t[i];
  }

  lemma {:induction false} InsertChild(d: Dirs, t: seq<Slot>, k: nat, c: nat)
    requires d.Valid() && Inv(d, t, k, c) && k < |t| && 0 < c < |d.parent| && d.parent[c] == t[k].dir
    ensures t[k].key != []
    ensures var u := Put(t, Slot(ChildKey(d, t, k, c), c));
            Inv(d, u, k, c + 1) && |u| == |t| + 1 && u[..k + 1] == t[..k + 1]
  {
    ChildIsNew(d, t, k, c);
    var s := Slot(ChildKey(d, t, k, c), c);
    PutSorted(t, s);
    var r := Rank(t, s.key);
    InsertPlaced(d, t, k, c, r, s);
    InsertComplete(d, t, k, c, r, s);
    hide Put, Rank, Less, AllPlaced, Complete, Sorted;
  }

  lemma {:induction false} InsertMembers(t: seq<Slot>, s: Slot, r: nat)
    requires r <= |t|
    ensures var u := t[..r] + [s] + t[r..];
            Member(u, s.dir) && forall c :: Member(t, c) ==> Member(u, c)
  {
    var u := t[..r] + [s] + t[r..];
    assert u[r] == s;
    forall c | Member(t, c) ensures Member(u, c) {
      var i :| 0 <= i < |t| && t[i].dir == c;
      assert u[if i < r then i else i + 1] == t[i];
    }
  }

  lemma {:induction false} SkipChild(d: Dirs, t: seq<Slot>, k: nat, c: nat)
    requires d.Valid() && Inv(d, t, k, c) && k < |t| && c < |d.parent| && (c == 0 || d.parent[c] != t[k].dir)
    ensures Inv(d, t, k, c + 1)
  {
    var n := c + 1;
    forall i | 0 <= i < |t| ensures Placed(d, t, k, n, i) { assert Placed(d, t, k, c, i); }
  }

  lemma {:induction false} NextFolder(d: Dirs, t: seq<Slot>, k: nat)
    requires d.Valid() && Inv(d, t, k, |d.parent|) && k < |t|
    ensures Inv(d, t, k + 1, 0)
  {
    var n := k + 1;
    forall i | 0 <= i < |t| ensures Placed(d, t, n, 0, i) { assert Placed(d, t, k, |d.parent|, i); }
  }

  // ----- what the table is -----

  /** `dirs[i]` is the folder numbered `i + 1`; `up[i]` the number recorded as its parent's. */
  datatype Table = Table(dirs: seq<nat>, up: seq<nat>)

  ghost function SortKey(d: Dirs, t: Table, i: nat): Key
    requires d.Valid() && i < |t.dirs| == |t.up| && ParentRight(d, t, i)
  {
    if i == 0 then [1, 1, 0] else [d.Level(t.dirs[i]), t.up[i]] + d.name[t.dirs[i]]
  }

  /** The root comes first and is its own parent; every other parent number is the number of the real
      parent, given earlier. */
  ghost predicate ParentsRight(d: Dirs, t: Table)
    requires d.Valid()
  {
    && |t.dirs| == |t.up| > 0 && t.dirs[0] == 0 && t.up[0] == 1
    && (forall i :: 0 <= i < |t.dirs| ==> ParentRight(d, t, i))
  }

  ghost predicate ParentRight(d: Dirs, t: Table, i: nat)
    requires d.Valid() && i < |t.dirs| == |t.up|
  {
    && t.dirs[i] < |d.parent|
    && (i > 0 ==> t.dirs[i] > 0 && 1 <= t.up[i] <= i && t.dirs[t.up[i] - 1] == d.parent[t.dirs[i]])
  }

  /** The order of section 6.9.1 of ECMA-119: by level, then by the number of the parent, then by name. */
  ghost predicate Ordered(d: Dirs, t: Table)
    requires d.Valid() && ParentsRight(d, t)
  {
    forall i, j :: 0 <= i < j < |t.dirs| ==> Less(SortKey(d, t, i), SortKey(d, t, j))
  }

  ghost predicate Once(dirs: seq<nat>) {
    forall i, j :: 0 <= i < j < |dirs| ==> dirs[i] != dirs[j]
  }

  ghost predicate Has(dirs: seq<nat>, c: nat) {
    exists i :: 0 <= i < |dirs| && dirs[i] == c
  }

  ghost predicate IsPathTable(d: Dirs, t: Table)
    requires d.Valid()
  {
    ParentsRight(d, t) && Ordered(d, t) && Once(t.dirs)
  }

  ghost predicate Covers(d: Dirs, dirs: seq<nat>) {
    forall c: nat :: c < |d.parent| ==> Has(dirs, c)
  }

  predicate Emits(p: seq<Slot>, k: nat, t: Table) {
    |t.dirs| == |t.up| == k <= |p| && forall i :: 0 <= i < k ==> |p[i].key| >= 2 && t.dirs[i] == p[i].dir && t.up[i] == p[i].key[1]
  }

  lemma {:induction false} EmittedRight(d: Dirs, p: seq<Slot>, k: nat, t: Table)
    requires d.Valid() && Inv(d, p, k, 0) && 0 < k <= |p| && Emits(p, k, t)
    ensures IsPathTable(d, t)
  {
    forall i | 0 <= i < k ensures ParentRight(d, t, i) {
      assert Placed(d, p, k, 0, i);
    }
    assert Placed(d, p, k, 0, 0);
    assert ParentsRight(d, t);
    forall i | 0 <= i < k ensures SortKey(d, t, i) == p[i].key {
      assert Placed(d, p, k, 0, i);
      LevelPositive(d, p, k, 0, i);
      if i > 0 { LevelPositive(d, p, k, 0, p[i].key[1] - 1); }
    }
  }

  /** A folder's parent comes before it, so a walk that reached the end reached every folder. */
  lemma {:induction false} AllReached(d: Dirs, p: seq<Slot>, c: nat)
    requires d.Valid() && Inv(d, p, |p|, 0) && c < |d.parent|
    ensures Member(p, c)
  {
    if c == 0 {
      assert Placed(d, p, |p|, 0, 0);
      assert p[0].dir == 0;
    } else {
      AllReached(d, p, d.parent[c]);
      var i :| 0 <= i < |p| && p[i].dir == d.parent[c];
    }
  }

  lemma {:induction false} Pigeons(s: seq<nat>, n: nat)
    requires Once(s) && forall i :: 0 <= i < |s| ==> s[i] < n
    ensures |s| <= n && ((forall c: nat :: c < n ==> Has(s, c)) ==> |s| == n)
  {
    BelowSize(n);
    ElemsAre(s);
    SubsetSize(Elems(s), Words.Below(n));
    if forall c: nat :: c < n ==> Has(s, c) { assert Elems(s) == Words.Below(n); }
  }

  function Elems(s: seq<nat>): set<nat> {
    if s == [] then {} else Elems(s[..|s| - 1]) + {s[|s| - 1]}
  }

  lemma {:induction false} BelowSize(n: nat)
    ensures |Words.Below(n)| == n && forall c: nat :: c in Words.Below(n) <==> c < n
  {
    if n > 0 { BelowSize(n - 1); }
  }

  lemma {:induction false} ElemsAre(s: seq<nat>)
    requires Once(s)
    ensures |Elems(s)| == |s| && forall c: nat :: c in Elems(s) <==> Has(s, c)
  {
    if s != [] {
      var init, x := s[..|s| - 1], s[|s| - 1];
      ElemsAre(init);
      assert s == init + [x];
      HasMore(init, x);
      assert !Has(init, x);
      hide Has;
    }
  }

  lemma {:induction false} HasMore(s: seq<nat>, x: nat)
    ensures forall c: nat :: Has(s + [x], c) <==> Has(s, c) || c == x
  {
    forall c: nat ensures Has(s + [x], c) <==> Has(s, c) || c == x {
      if i :| 0 <= i < |s| && s[i] == c { assert (s + [x])[i] == c; }
      assert (s + [x])[|s|] == x;
    }
  }

  lemma {:induction false} SubsetSize(a: set<nat>, b: set<nat>)
    requires a <= b
    ensures |a| <= |b|
  {
    if a != {} {
      var x :| x in a;
      SubsetSize(a - {x}, b - {x});
    }
  }

  /** What the walk has written when it stops. */
  lemma {:induction false} Emitted(d: Dirs, p: seq<Slot>, k: nat, t: Table)
    requires d.Valid() && Inv(d, p, k, 0) && 0 < k <= |p| && Emits(p, k, t) && k < CAP && (k == |p| || k == CAP - 1)
    ensures IsPathTable(d, t)
    ensures |t.dirs| == if |d.parent| < CAP then |d.parent| else CAP - 1
    ensures |d.parent| < CAP ==> Covers(d, t.dirs)
  {
    EmittedRight(d, p, k, t);
    forall i | 0 <= i < k ensures t.dirs[i] < |d.parent| { assert ParentRight(d, t, i); }
    Pigeons(t.dirs, |d.parent|);
    if k == |p| {
      forall c: nat | c < |d.parent| ensures Has(t.dirs, c) {
        AllReached(d, p, c);
        var i :| 0 <= i < |p| && p[i].dir == c;
        assert t.dirs[i] == c;
      }
      assert Covers(d, t.dirs);
    } else if |d.parent| < CAP {
      FullCovers(t.dirs, |d.parent|);
    }
  }

  lemma {:induction false} FullCovers(s: seq<nat>, n: nat)
    requires Once(s) && |s| == n && forall i :: 0 <= i < |s| ==> s[i] < n
    ensures forall c: nat :: c < n ==> Has(s, c)
  {
    forall c: nat | c < n ensures Has(s, c) {
      if !Has(s, c) {
        Pigeons(s + [c], n);
      }
    }
  }

  /** Inserts the children of the folder at position `itd`; everything up to it stays. */
  method ListChildren(d: Dirs, table: seq<Slot>, itd: nat) returns (pTab: seq<Slot>)
    requires d.Valid() && Inv(d, table, itd, 0) && itd < |table|
    ensures Inv(d, pTab, itd + 1, 0) && itd + 1 <= |pTab| && pTab[..itd + 1] == table[..itd + 1]
  {
    pTab := table;
    ghost var kept := table[..itd + 1];
    hide Inv, Put, Dirs.Valid, AllPlaced, Placed, Sorted, Distinct, Complete, Rank, Less, Member;
    for c := 0 to |d.parent|
      invariant Inv(d, pTab, itd, c) && itd < |pTab| && pTab[..itd + 1] == kept
    {
      if c > 0 && d.parent[c] == pTab[itd].dir {
        InsertChild(d, pTab, itd, c);
        pTab := Put(pTab, Slot([pTab[itd].key[0] + 1, itd + 1] + d.name[c], c));
      } else {
        SkipChild(d, pTab, itd, c);
      }
    }
    NextFolder(d, pTab, itd);
  }

  lemma {:induction false} FirstFolder(d: Dirs)
    requires d.Valid()
    ensures Inv(d, Put([], Slot([1, 1, 0], 0)), 0, 0)
  {
    var t := Put([], Slot([1, 1, 0], 0));
    assert Placed(d, t, 0, 0, 0);
  }

  lemma {:induction false} Listed(d: Dirs, p: seq<Slot>, k: nat, q: seq<Slot>, t: Table, u: Table)
    requires d.Valid() && AllPlaced(d, p, k, 0) && k < |p| && k + 1 <= |q| && q[..k + 1] == p[..k + 1] && Emits(p, k, t)
    requires |p[k].key| >= 2 && u.dirs == t.dirs + [p[k].dir] && u.up == t.up + [p[k].key[1]]
    ensures Emits(q, k + 1, u)
  {
    assert Placed(d, p, k, 0, k);
    forall i | 0 <= i < k + 1 ensures q[i] == p[i] { assert q[i] == q[..k + 1][i] && p[i] == p[..k + 1][i]; }
  }

  /** The walk. Returns the records in the order they are written: each folder and the number of its
      parent. */
  method WalkFolders(d: Dirs) returns (t: Table)
    requires d.Valid()
    ensures IsPathTable(d, t)
    ensures |t.dirs| == if |d.parent| < CAP then |d.parent| else CAP - 1
    ensures |d.parent| < CAP ==> Covers(d, t.dirs)
  {
    var pTab := Put([], Slot([1, 1, 0], 0));
    FirstFolder(d);
    var itd: nat, daddy: nat := 0, 1;
    t := Table([], []);
    while itd < |pTab| && daddy < CAP
      invariant daddy == itd + 1 <= CAP && itd <= |pTab| && Inv(d, pTab, itd, 0) && |pTab| > 0
      invariant Emits(pTab, itd, t)
      decreases CAP - daddy
    {
      assert Placed(d, pTab, itd, 0, itd);
      var slot := pTab[itd];
      ghost var was := t;
      t := Table(t.dirs + [slot.dir], t.up + [slot.key[1]]);
      ghost var before := pTab;
      hide Placed, Complete, Sorted, Distinct;
      pTab := ListChildren(d, pTab, itd);
      Listed(d, before, itd, pTab, was, t);
      itd, daddy := itd + 1, daddy + 1;
    }
    Emitted(d, pTab, itd, t);
  }

  // ----- the table is determined by its order -----

  lemma {:induction false} Asymmetric(a: Key, b: Key)
    ensures !(Less(a, b) && Less(b, a))
  {
    Trichotomy(a, b);
  }

  /** Two tables that agree before position `i` give a folder with the parent's number below `i` the same number. */
  lemma {:induction false} SameKey(d: Dirs, t: Table, u: Table, i: nat, j: nat)
    requires d.Valid() && IsPathTable(d, t) && IsPathTable(d, u) && 0 < i < |t.dirs| && 0 < j < |u.dirs|
    requires i <= |u.dirs| && t.dirs[..i] == u.dirs[..i] && t.dirs[i] == u.dirs[j]
    ensures ParentRight(d, t, i) && ParentRight(d, u, j) && SortKey(d, t, i) == SortKey(d, u, j)
  {
    assert ParentRight(d, t, i) && ParentRight(d, u, j);
    var p, q := t.up[i] - 1, u.up[j] - 1;
    assert t.dirs[p] == t.dirs[..i][p] == u.dirs[..i][p] == u.dirs[p];
    assert u.dirs[p] == u.dirs[q];
    assert p == q;
  }

  /** There is one path table of a folder tree: the order and the parent numbers determine it. */
  lemma {:induction false} TableUnique(d: Dirs, t: Table, u: Table, n: nat)
    requires d.Valid() && IsPathTable(d, t) && IsPathTable(d, u) && Covers(d, t.dirs) && Covers(d, u.dirs)
    requires n <= |t.dirs| && n <= |u.dirs|
    ensures t.dirs[..n] == u.dirs[..n]
  {
    if n == 0 {
      assert t.dirs[..0] == u.dirs[..0];
    } else {
      var i: nat := n - 1;
      TableUnique(d, t, u, i);
      SameNext(d, t, u, i);
      assert t.dirs[..n] == t.dirs[..i] + [t.dirs[i]] && u.dirs[..n] == u.dirs[..i] + [u.dirs[i]];
    }
  }

  lemma {:induction false} SameNext(d: Dirs, t: Table, u: Table, i: nat)
    requires d.Valid() && IsPathTable(d, t) && IsPathTable(d, u) && Covers(d, t.dirs) && Covers(d, u.dirs)
    requires i < |t.dirs| && i < |u.dirs| && t.dirs[..i] == u.dirs[..i]
    ensures t.dirs[i] == u.dirs[i]
  {
    assert ParentRight(d, t, i) && ParentRight(d, u, i);
    if i > 0 && t.dirs[i] != u.dirs[i] {
      assert Has(u.dirs, t.dirs[i]) && Has(t.dirs, u.dirs[i]);
      var j :| 0 <= j < |u.dirs| && u.dirs[j] == t.dirs[i];
      var k :| 0 <= k < |t.dirs| && t.dirs[k] == u.dirs[i];
      SameKey(d, t, u, i, j);
      SameKey(d, u, t, i, k);
      Asymmetric(SortKey(d, t, i), SortKey(d, u, i));
    }
  }
}
