/** File names compared segment by segment (`Unicomp`), the order in which a CD folder is listed. */
module Unique {
  import opened Lexical

  /** A name and the positions of the separators in it. */
  datatype Name = Name(conv: Key, seps: seq<nat>)
  {
    /** Separators come in increasing order, within the name or at its end. */
    predicate Valid() {
      && (forall i, j :: 0 <= i < j < |seps| ==> seps[i] < seps[j])
      && (forall i :: 0 <= i < |seps| ==> seps[i] <= |conv|)
    }

    function Sep(step: nat): nat {
      if step < |seps| then seps[step] else |conv|
    }

    /** Where segment `step` begins: after the separator before it. */
    function Begin(step: nat): nat {
      if step == 0 then 0 else Sep(step - 1) + 1
    }

    /** Segment `step`; there are no characters in segments past the last. */
    function Segment(step: nat): Key
      requires Valid()
    {
      if Begin(step) < Sep(step) then conv[Begin(step)..Sep(step)] else []
    }
  }

  /** `wcsncmp`, by its sign. */
  function Compare(l: Key, r: Key, n: nat): int
    requires n <= |l| && n <= |r|
  {
    if n == 0 then 0
    else if l[0] != r[0] then (if l[0] < r[0] then -1 else 1)
    else if l[0] == 0 then 0
    else Compare(l[1..], r[1..], n - 1)
  }

  /** `cmpp`. */
  method CompareParts(left: Key, lastLeft: nat, nextLeft: nat, right: Key, lastRight: nat, nextRight: nat) returns (c: int)
    requires nextLeft <= |left| && nextRight <= |right|
    ensures c == Parts(if lastLeft < nextLeft then left[lastLeft..nextLeft] else [],
                       if lastRight < nextRight then right[lastRight..nextRight] else [])
  {
    if nextLeft <= lastLeft { return if nextRight <= lastRight then 0 else -1; }
    if nextRight <= lastRight { return 1; }
    var leftCount, rightCount := nextLeft - lastLeft, nextRight - lastRight;
    var n := if leftCount < rightCount then leftCount else rightCount;
    var lexic := Compare(left[lastLeft..nextLeft], right[lastRight..nextRight], n);
    c := if lexic != 0 then lexic else leftCount - rightCount;
  }

  function Parts(l: Key, r: Key): int {
    if l == [] then (if r == [] then 0 else -1)
    else if r == [] then 1
    else
      var lexic := Compare(l, r, if |l| < |r| then |l| else |r|);
      if lexic != 0 then lexic else |l| - |r|
  }

  /** What `wcsncmp` looks at: a part up to its first NUL, and the NUL itself. */
  function Seen(k: Key): Key {
    if k == [] then [] else if k[0] == 0 then [0] else [k[0]] + Seen(k[1..])
  }

  /** Parts in order: by what is looked at, and then by length. */
  predicate Lower(l: Key, r: Key) {
    Less(Seen(l), Seen(r)) || (Seen(l) == Seen(r) && |l| < |r|)
  }

  predicate Alike(l: Key, r: Key) {
    Seen(l) == Seen(r) && |l| == |r|
  }

  /** The sign of `cmpp`, for any parts: two of them compare equal exactly when they have the same
      length and differ only behind a NUL. */
  lemma {:induction false} PartsSign(l: Key, r: Key)
    ensures Parts(l, r) < 0 <==> Lower(l, r)
    ensures Parts(l, r) > 0 <==> Lower(r, l)
    ensures Parts(l, r) == 0 <==> Alike(l, r)
  {
    Trichotomy(Seen(l), Seen(r));
    Irreflexive(Seen(l));
    if l != [] && r != [] && l[0] == r[0] != 0 {
      PartsSign(l[1..], r[1..]);
      var n := if |l| < |r| then |l| else |r|;
      assert Compare(l, r, n) == Compare(l[1..], r[1..], n - 1);
      SeenStep(l, r);
    }
  }

  lemma {:induction false} SeenStep(l: Key, r: Key)
    requires l != [] && r != [] && l[0] == r[0] != 0
    ensures Lower(l, r) <==> Lower(l[1..], r[1..])
    ensures Lower(r, l) <==> Lower(r[1..], l[1..])
    ensures Alike(l, r) <==> Alike(l[1..], r[1..])
  {
    assert Seen(l)[1..] == Seen(l[1..]) && Seen(r)[1..] == Seen(r[1..]);
    assert Seen(l) == Seen(r) <==> Seen(l[1..]) == Seen(r[1..]);
  }

  predicate NulFree(k: Key) {
    forall i :: 0 <= i < |k| ==> k[i] != 0
  }

  /** Without NUL this is the lexicographic order, and equality. */
  lemma {:induction false} PlainParts(l: Key, r: Key)
    requires NulFree(l) && NulFree(r)
    ensures Lower(l, r) <==> Less(l, r)
    ensures Alike(l, r) <==> l == r
  {
    SeenPlain(l);
    SeenPlain(r);
  }

  lemma {:induction false} SeenPlain(k: Key)
    requires NulFree(k)
    ensures Seen(k) == k
  {
    if k != [] { SeenPlain(k[1..]); }
  }

  /** The order of parts. */
  lemma {:induction false} LowerOrder(a: Key, b: Key)
    ensures Lower(a, b) || Lower(b, a) || Alike(a, b)
    ensures !(Lower(a, b) && Lower(b, a)) && !(Alike(a, b) && Lower(a, b))
  {
    Trichotomy(Seen(a), Seen(b));
    Irreflexive(Seen(a));
  }

  lemma {:induction false} LowerTransitive(a: Key, b: Key, c: Key)
    requires Lower(a, b) && Lower(b, c)
    ensures Lower(a, c)
  {
    if Less(Seen(a), Seen(b)) && Less(Seen(b), Seen(c)) { Transitive(Seen(a), Seen(b), Seen(c)); }
  }

  // ----- whole names -----

  /** The names agree before segment `s`. */
  ghost predicate Agree(a: Name, b: Name, s: nat)
    requires a.Valid() && b.Valid()
  {
    forall t: nat :: t < s ==> Alike(a.Segment(t), b.Segment(t))
  }

  /** The order of the segment lists, the shorter one filled up with empty segments: the first segment
      that differs decides. */
  ghost predicate Before(a: Name, b: Name)
    requires a.Valid() && b.Valid()
  {
    exists s: nat :: Agree(a, b, s) && Lower(a.Segment(s), b.Segment(s))
  }

  ghost predicate Same(a: Name, b: Name)
    requires a.Valid() && b.Valid()
  {
    forall t: nat :: Alike(a.Segment(t), b.Segment(t))
  }

  /** `cmp` decides that order. */
  method Cmp(a: Name, b: Name) returns (c: int)
    requires a.Valid() && b.Valid()
    ensures c < 0 <==> Before(a, b)
    ensures c > 0 <==> Before(b, a)
    ensures c == 0 <==> Same(a, b)
  {
    hide Alike, Lower, Parts, Before, Same;
    var steps := (if |a.seps| > |b.seps| then |a.seps| else |b.seps|) + 1;
    var lastLeft, lastRight := 0, 0;
    for step := 0 to steps
      invariant lastLeft == a.Begin(step) && lastRight == b.Begin(step)
      invariant Agree(a, b, step)
    {
      var nextLeft, nextRight := a.Sep(step), b.Sep(step);
      c := CompareParts(a.conv, lastLeft, nextLeft, b.conv, lastRight, nextRight);
      assert c == Parts(a.Segment(step), b.Segment(step));
      Decided(a, b, step);
      if c != 0 { return; }
      lastLeft, lastRight := nextLeft + 1, nextRight + 1;
    }
    c := 0;
    EmptyAlike();
    forall t: nat ensures Alike(a.Segment(t), b.Segment(t)) { }
    AllAlike(a, b);
  }

  lemma {:induction false} EmptyAlike()
    ensures Alike([], [])
  {
  }

  lemma {:induction false} AllAlike(a: Name, b: Name)
    requires a.Valid() && b.Valid() && forall t: nat :: Alike(a.Segment(t), b.Segment(t))
    ensures Same(a, b) && !Before(a, b) && !Before(b, a)
  {
    forall s: nat ensures !Lower(a.Segment(s), b.Segment(s)) && !Lower(b.Segment(s), a.Segment(s)) {
      LowerOrder(a.Segment(s), b.Segment(s));
    }
    hide Lower, Agree, Name.Segment;
  }

  lemma {:induction false} AgreeSame(a: Name, b: Name, s: nat)
    requires a.Valid() && b.Valid()
    ensures Agree(a, b, s) <==> Agree(b, a, s)
  {
    hide Name.Segment, Name.Valid;
    assert forall t: nat :: Alike(a.Segment(t), b.Segment(t)) <==> Alike(b.Segment(t), a.Segment(t));
  }

  /** Where a lower segment decides, nothing else does. */
  lemma {:induction false} Decides(a: Name, b: Name, s: nat)
    requires a.Valid() && b.Valid() && Agree(a, b, s) && Lower(a.Segment(s), b.Segment(s))
    ensures Before(a, b) && !Before(b, a) && !Same(a, b)
  {
    hide Name.Segment, Name.Valid;
    forall t: nat ensures !(Agree(b, a, t) && Lower(b.Segment(t), a.Segment(t))) {
      AgreeSame(a, b, t);
      LowerOrder(a.Segment(s), b.Segment(s));
      LowerOrder(a.Segment(t), b.Segment(t));
      LowerOrder(b.Segment(t), a.Segment(t));
      hide Lower;
    }
    LowerOrder(a.Segment(s), b.Segment(s));
    hide Lower, Alike, Agree;
  }

  /** The first difference decides the order, both ways. */
  lemma {:induction false} Decided(a: Name, b: Name, s: nat)
    requires a.Valid() && b.Valid() && Agree(a, b, s)
    ensures var c := Parts(a.Segment(s), b.Segment(s));
            && (c < 0 ==> Before(a, b) && !Before(b, a) && !Same(a, b))
            && (c > 0 ==> Before(b, a) && !Before(a, b) && !Same(a, b))
            && (c == 0 ==> Agree(a, b, s + 1))
  {
    PartsSign(a.Segment(s), b.Segment(s));
    hide Parts, Name.Segment, Before, Same, Name.Valid, Lower, Alike;
    AgreeSame(a, b, s);
    if Lower(a.Segment(s), b.Segment(s)) { Decides(a, b, s); }
    if Lower(b.Segment(s), a.Segment(s)) {
      Decides(b, a, s);
      SameSame(a, b);
    }
  }

  lemma {:induction false} SameSame(a: Name, b: Name)
    requires a.Valid() && b.Valid()
    ensures Same(a, b) <==> Same(b, a)
  {
    hide Name.Segment, Name.Valid;
    assert forall t: nat :: Alike(a.Segment(t), b.Segment(t)) <==> Alike(b.Segment(t), a.Segment(t));
  }

  /** A first difference, or none: it is in one of the segments up to the last of either name. */
  lemma {:induction false} FirstDifference(a: Name, b: Name, n: nat) returns (s: nat)
    requires a.Valid() && b.Valid() && !Agree(a, b, n)
    ensures s < n && Agree(a, b, s) && !Alike(a.Segment(s), b.Segment(s))
  {
    hide Alike, Name.Segment, Name.Valid;
    if n > 0 && Agree(a, b, n - 1) {
      s := n - 1;
    } else {
      s := FirstDifference(a, b, n - 1);
    }
  }

  /** Names have exactly one of three relations. */
  lemma {:induction false} Total(a: Name, b: Name)
    requires a.Valid() && b.Valid()
    ensures Before(a, b) || Before(b, a) || Same(a, b)
    ensures !(Before(a, b) && Before(b, a)) && !(Before(a, b) && Same(a, b))
  {
    if Same(a, b) {
      AllAlike(a, b);
    } else {
      var s := Differ(a, b);
      Decided(a, b, s);
      PartsSign(a.Segment(s), b.Segment(s));
      LowerOrder(a.Segment(s), b.Segment(s));
      hide Lower, Alike, Parts, Agree, Before, Same, Name.Segment;
    }
  }

  lemma {:induction false} Differ(a: Name, b: Name) returns (s: nat)
    requires a.Valid() && b.Valid() && !Same(a, b)
    ensures Agree(a, b, s) && !Alike(a.Segment(s), b.Segment(s))
  {
    hide Alike, Name.Segment, Name.Valid;
    var t: nat :| !Alike(a.Segment(t), b.Segment(t));
    assert !Agree(a, b, t + 1);
    s := FirstDifference(a, b, t + 1);
  }

  lemma {:induction false} AgreeTransitive(a: Name, b: Name, c: Name, s: nat, t: nat, m: nat)
    requires a.Valid() && b.Valid() && c.Valid() && Agree(a, b, s) && Agree(b, c, t) && m <= s && m <= t
    ensures Agree(a, c, m)
  {
    forall u: nat | u < m ensures Alike(a.Segment(u), c.Segment(u)) {
      assert Alike(a.Segment(u), b.Segment(u)) && Alike(b.Segment(u), c.Segment(u));
    }
  }

  /** The order is transitive. */
  lemma {:induction false} BeforeTransitive(a: Name, b: Name, c: Name)
    requires a.Valid() && b.Valid() && c.Valid() && Before(a, b) && Before(b, c)
    ensures Before(a, c)
  {
    hide Name.Segment, Name.Valid;
    var s: nat :| Agree(a, b, s) && Lower(a.Segment(s), b.Segment(s));
    var t: nat :| Agree(b, c, t) && Lower(b.Segment(t), c.Segment(t));
    var m := if s < t then s else t;
    AgreeTransitive(a, b, c, s, t, m);
    if s == t {
      LowerTransitive(a.Segment(s), b.Segment(s), c.Segment(s));
    } else if s < t {
      assert Alike(b.Segment(s), c.Segment(s));
    } else {
      assert Alike(a.Segment(t), b.Segment(t));
    }
    assert Lower(a.Segment(m), c.Segment(m));
  }

  /** Names with the same segments are interchangeable in the order. */
  lemma {:induction false} SameInOrder(a: Name, b: Name, c: Name)
    requires a.Valid() && b.Valid() && c.Valid() && Same(a, b)
    ensures (Before(a, c) <==> Before(b, c)) && (Before(c, a) <==> Before(c, b))
  {
    hide Name.Segment, Name.Valid;
    assert forall s: nat :: Alike(a.Segment(s), b.Segment(s));
    forall s: nat ensures (Agree(a, c, s) <==> Agree(b, c, s)) && (Agree(c, a, s) <==> Agree(c, b, s)) { }
    hide Agree;
  }

  /** Names without NUL compare equal exactly when their segments are the same. */
  lemma {:induction false} PlainNames(a: Name, b: Name)
    requires a.Valid() && b.Valid() && NulFree(a.conv) && NulFree(b.conv)
    ensures Same(a, b) <==> forall t: nat :: a.Segment(t) == b.Segment(t)
    ensures Before(a, b) <==> exists s: nat :: (forall t: nat :: t < s ==> a.Segment(t) == b.Segment(t)) && Less(a.Segment(s), b.Segment(s))
  {
    forall t: nat
      ensures Alike(a.Segment(t), b.Segment(t)) <==> a.Segment(t) == b.Segment(t)
      ensures Lower(a.Segment(t), b.Segment(t)) <==> Less(a.Segment(t), b.Segment(t))
    {
      PlainParts(a.Segment(t), b.Segment(t));
    }
    hide Alike, Lower, Less, Name.Segment;
    if Before(a, b) {
      var s: nat :| Agree(a, b, s) && Lower(a.Segment(s), b.Segment(s));
      assert (forall t: nat :: t < s ==> a.Segment(t) == b.Segment(t)) && Less(a.Segment(s), b.Segment(s));
    }
    if s: nat :| (forall t: nat :: t < s ==> a.Segment(t) == b.Segment(t)) && Less(a.Segment(s), b.Segment(s)) {
      assert Agree(a, b, s);
    }
  }
}
