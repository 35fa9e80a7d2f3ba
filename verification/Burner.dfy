/** Extents of media, the `Planner` that lists them, and the burner they are written to. */
module Burner {
  import opened Bytes
  import opened Blocks

  /** Where the bytes of an extent come from; nowhere means zeros. */
  datatype Medium = Zero | Medium(id: nat)

  datatype Extent = Extent(offset: nat, length: int, medium: Medium)

  /** The contents of all media: the byte at an offset of a medium. */
  type Media = (nat, nat) -> byte

  function Content(media: Media, xt: Extent): (b: Bytes)
    ensures |b| == if xt.length > 0 then xt.length else 0
  {
    if xt.length <= 0 then [] else
    match xt.medium
    case Zero => Zeros(xt.length)
    case Medium(id) => seq(xt.length, i requires 0 <= i => media(id, xt.offset + i))
  }

  /** The bytes a list of extents stands for. */
  function Burnt(media: Media, list: seq<Extent>): Bytes {
    if list == [] then [] else Burnt(media, list[..|list| - 1]) + Content(media, list[|list| - 1])
  }

  function Length(list: seq<Extent>): int {
    if list == [] then 0 else Length(list[..|list| - 1]) + list[|list| - 1].length
  }

  predicate Positive(list: seq<Extent>) {
    forall i :: 0 <= i < |list| ==> list[i].length > 0
  }

  lemma {:induction false} BurntLength(media: Media, list: seq<Extent>)
    requires Positive(list)
    ensures |Burnt(media, list)| == Length(list)
  {
    if list != [] { BurntLength(media, list[..|list| - 1]); }
  }

  lemma {:induction false} BurntNone(media: Media)
    ensures Burnt(media, []) == []
  {
  }

  lemma {:induction false} BurntLast(media: Media, list: seq<Extent>)
    requires list != []
    ensures Burnt(media, list) == Burnt(media, list[..|list| - 1]) + Content(media, list[|list| - 1])
  {
    hide Content;
  }

  lemma {:induction false} BurntConcat(media: Media, a: seq<Extent>, b: seq<Extent>)
    ensures Burnt(media, a + b) == Burnt(media, a) + Burnt(media, b)
  {
    hide Content, Burnt;
    if b == [] {
      assert a + b == a;
      BurntNone(media);
    } else {
      BurntConcat(media, a, b[..|b| - 1]);
      BurntLast(media, a + b);
      BurntLast(media, b);
      assert (a + b)[..|a + b| - 1] == a + b[..|b| - 1];
    }
  }

  lemma {:induction false} LengthConcat(a: seq<Extent>, b: seq<Extent>)
    ensures Length(a + b) == Length(a) + Length(b)
  {
    if b == [] {
      assert a + b == a;
    } else {
      LengthConcat(a, b[..|b| - 1]);
      assert (a + b)[..|a + b| - 1] == a + b[..|b| - 1];
    }
  }

  /** A list with one more extent, left out when it is empty. */
  lemma {:induction false} BurntPush(media: Media, list: seq<Extent>, xt: Extent)
    ensures Burnt(media, if xt.length > 0 then list + [xt] else list) == Burnt(media, list) + Content(media, xt)
  {
    if xt.length > 0 { assert (list + [xt])[..|list|] == list; }
  }

  /** Bytes are in the target from a place on. */
  predicate Located(target: Bytes, at: int, bytes: Bytes) {
    0 <= at && at + |bytes| <= |target| && target[at..at + |bytes|] == bytes
  }

  /** An extent in the middle of a list. */
  lemma {:induction false} BurntAt(media: Media, a: seq<Extent>, x: Extent, b: seq<Extent>)
    ensures Located(Burnt(media, a + [x] + b), |Burnt(media, a)|, Content(media, x))
  {
    BurntConcat(media, a + [x], b);
    assert (a + [x])[..|a|] == a;
    assert Burnt(media, a + [x]) == Burnt(media, a) + Content(media, x);
    hide Burnt, Content;
  }

  /** The extent padding is made of, if any. */
  function Pads(n: nat): seq<Extent> {
    if n == 0 then [] else [Extent(0, n, Zero)]
  }

  lemma {:induction false} BurntPads(media: Media, list: seq<Extent>, n: nat)
    ensures Burnt(media, list + Pads(n)) == Burnt(media, list) + Content(media, Extent(0, n, Zero))
  {
    if n > 0 {
      BurntPush(media, list, Extent(0, n, Zero));
    } else {
      assert list + Pads(0) == list;
    }
  }

  class VectBurner {
    var bytes: Bytes

    constructor ()
      ensures bytes == []
    {
      bytes := [];
    }

    /** Copies the extent's bytes, or zeros where it has no medium. */
    method Append(media: Media, xt: Extent)
      modifies this
      ensures bytes == old(bytes) + Content(media, xt)
    {
      bytes := bytes + Content(media, xt);
    }
  }

  class Planner {
    const burnerBlock: nat
    var extlist: seq<Extent>
    var offset: nat
    var clientSz: nat

    ghost predicate Valid()
      reads this
    {
      burnerBlock > 0 && clientSz > 0 && Positive(extlist) && offset == Length(extlist)
    }

    constructor (burnerBlock: nat)
      requires burnerBlock > 0
      ensures Valid() && extlist == [] && offset == 0 && BlockSize() == burnerBlock && this.burnerBlock == burnerBlock
    {
      this.burnerBlock := burnerBlock;
      extlist, offset, clientSz := [], 0, 1;
    }

    function BlockSize(): nat
      reads this`clientSz
    {
      if clientSz > burnerBlock then clientSz else burnerBlock
    }

    lemma {:induction false} BlockPositive()
      requires Valid()
      ensures BlockSize() > 0
    {
      hide Length, Positive;
    }

    /** What is listed has the length of the offset. */
    lemma {:induction false} ListedLength(media: Media)
      requires Valid()
      ensures |Burnt(media, extlist)| == offset
    {
      BurntLength(media, extlist);
    }

    method RequestBlockSize(sz: nat)
      requires Valid()
      modifies this`clientSz
      ensures Valid()
      ensures BlockSize() == if sz > old(BlockSize()) then sz else old(BlockSize())
    {
      if clientSz < sz { clientSz := sz; }
    }

    /** Lists an extent and returns where it will be. Fails, as the original aborts, on a negative length. */
    method Append(xt: Extent) returns (ok: bool, cur: nat)
      requires Valid()
      modifies this`extlist, this`offset
      ensures Valid() && ok == (xt.length >= 0) && cur == old(offset)
      ensures extlist == if xt.length > 0 then old(extlist) + [xt] else old(extlist)
      ensures offset == if ok then old(offset) + xt.length else old(offset)
    {
      cur := offset;
      if xt.length < 0 { return false, cur; }
      if xt.length > 0 {
        assert (extlist + [xt])[..|extlist|] == extlist;
        extlist := extlist + [xt];
      }
      offset := offset + xt.length;
      ok := true;
    }

    /** Appends zeros up to the next block. */
    method PadTo(blkSz: nat) returns (pad: nat)
      requires Valid() && blkSz > 0
      modifies this`extlist, this`offset
      ensures Valid() && pad == Padding(old(offset), blkSz) && offset == RoundUp(old(offset), blkSz)
      ensures offset == old(offset) + pad && extlist == old(extlist) + Pads(pad)
    {
      pad := Padding(offset, blkSz);
      RoundUpBounds(offset, blkSz);
      var _, _ := Append(Extent(0, pad, Zero));
    }

    /** What was listed since an offset, padded, as an extent of the burner. */
    method WrapToGo(since: nat, burner: Medium) returns (xt: Extent)
      requires Valid() && since <= offset
      modifies this`extlist, this`offset
      ensures Valid() && old(extlist) <= extlist
      ensures offset == RoundUp(old(offset), BlockSize())
      ensures offset == old(offset) ==> extlist == old(extlist)
      ensures xt == Extent(since, offset - since, burner)
    {
      var pad := PadTo(BlockSize());
      xt := Extent(since, offset - since, burner);
    }

    /** Writes everything listed, in order. */
    method Commit(burner: VectBurner, media: Media)
      requires Valid()
      modifies this`extlist, burner
      ensures extlist == []
      ensures burner.bytes == old(burner.bytes) + Burnt(media, old(extlist))
    {
      for i := 0 to |extlist|
        invariant extlist == old(extlist) && Valid()
        invariant burner.bytes == old(burner.bytes) + Burnt(media, extlist[..i])
      {
        assert extlist[..i + 1][..i] == extlist[..i];
        burner.Append(media, extlist[i]);
      }
      assert extlist[..|extlist|] == extlist;
      extlist := [];
    }
  }

  /** `copad`: pads both planners to the larger of their blocks. */
  method Copad(left: Planner, right: Planner) returns (common: nat)
    requires left.Valid() && right.Valid() && left != right
    modifies left`extlist, left`offset, right`extlist, right`offset
    ensures left.Valid() && right.Valid()
    ensures common == if left.BlockSize() > right.BlockSize() then left.BlockSize() else right.BlockSize()
    ensures left.offset == RoundUp(old(left.offset), common) && right.offset == RoundUp(old(right.offset), common)
    ensures left.offset >= old(left.offset) && left.extlist == old(left.extlist) + Pads(left.offset - old(left.offset))
    ensures right.offset >= old(right.offset) && right.extlist == old(right.extlist) + Pads(right.offset - old(right.offset))
  {
    hide RoundUp, Padding, Planner.Valid, Pads;
    left.BlockPositive();
    common := if left.BlockSize() > right.BlockSize() then left.BlockSize() else right.BlockSize();
    var _ := left.PadTo(common);
    var _ := right.PadTo(common);
  }
}
