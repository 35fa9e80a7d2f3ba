/** Files read back from a target block by block, as a host does that has found out which blocks a file
    takes. */
module Reading {
  import opened Bytes
  import opened Blocks

  /** Up to `n` bytes of an image from a position on. */
  function ReadAt(image: Bytes, from: nat, n: nat): Bytes {
    if from >= |image| then [] else if from + n <= |image| then image[from..from + n] else image[from..]
  }

  function AddressOf(block: nat, blkSz: nat): nat {
    block * blkSz
  }

  function ReadBlocks(image: Bytes, blocks: seq<nat>, blkSz: nat): Bytes {
    if blocks == [] then [] else ReadAt(image, AddressOf(blocks[0], blkSz), blkSz) + ReadBlocks(image, blocks[1..], blkSz)
  }

  /** `count` blocks in a row. */
  function Row(start: nat, count: nat): (r: seq<nat>)
    ensures |r| == count && forall i :: 0 <= i < count ==> r[i] == start + i
    decreases count
  {
    if count == 0 then [] else [start] + Row(start + 1, count - 1)
  }

  function CountOf(length: nat, blkSz: nat): nat
    requires blkSz > 0
  {
    RoundUp(length, blkSz) / blkSz
  }

  function Concat(parts: seq<Bytes>): Bytes {
    if parts == [] then [] else parts[0] + Concat(parts[1..])
  }

  /** The blocks of parts of a file at given addresses. */
  function BlocksOf(ats: seq<nat>, parts: seq<Bytes>, blkSz: nat): seq<nat>
    requires |ats| == |parts| && blkSz > 0
  {
    if parts == [] then [] else Row(ats[0] / blkSz, CountOf(|parts[0]|, blkSz)) + BlocksOf(ats[1..], parts[1..], blkSz)
  }

  /** A part of a file stands on a block boundary of the image. */
  predicate Stands(image: Bytes, at: nat, part: Bytes, blkSz: nat)
    requires blkSz > 0
  {
    Divides(blkSz, at) && at + |part| <= |image| && image[at..at + |part|] == part
  }

  lemma {:induction false} BlocksConcat(image: Bytes, a: seq<nat>, b: seq<nat>, blkSz: nat)
    ensures ReadBlocks(image, a + b, blkSz) == ReadBlocks(image, a, blkSz) + ReadBlocks(image, b, blkSz)
  {
    if a == [] {
      assert a + b == b;
    } else {
      assert (a + b)[1..] == a[1..] + b;
      BlocksConcat(image, a[1..], b, blkSz);
    }
  }

  lemma {:induction false} Products(k: nat, m: nat, d: nat)
    ensures AddressOf(k + 1, d) == AddressOf(k, d) + d && AddressOf(k + m, d) == AddressOf(k, d) + AddressOf(m, d)
    ensures m > 0 ==> AddressOf(m, d) == AddressOf(m - 1, d) + d
  {
  }

  lemma {:induction false} RowNone(image: Bytes, k: nat, blkSz: nat)
    ensures ReadBlocks(image, Row(k, 0), blkSz) == []
  {
  }

  /** Blocks in a row, of which all but the last are within the image, are one piece of it. */
  lemma {:induction false} ReadRow(image: Bytes, k: nat, m: nat, blkSz: nat)
    requires m > 0 ==> AddressOf(k + m, blkSz) <= |image| + blkSz
    ensures ReadBlocks(image, Row(k, m), blkSz) == if m == 0 then [] else ReadAt(image, AddressOf(k, blkSz), AddressOf(m, blkSz))
    decreases m
  {
    hide *;
    if m > 0 {
      Products(k, m, blkSz);
      Products(k, 1, blkSz);
      NoBlocks(blkSz);
      Products(k + 1, m - 1, blkSz);
      RowFirst(image, k, m, blkSz);
      ReadRow(image, k + 1, m - 1, blkSz);
      if m > 1 {
        ReadOn(image, AddressOf(k, blkSz), blkSz, AddressOf(m - 1, blkSz));
      }
    } else {
      RowNone(image, k, blkSz);
    }
  }

  lemma {:induction false} RowFirst(image: Bytes, k: nat, m: nat, blkSz: nat)
    requires m > 0
    ensures ReadBlocks(image, Row(k, m), blkSz) == ReadAt(image, AddressOf(k, blkSz), blkSz) + ReadBlocks(image, Row(k + 1, m - 1), blkSz)
  {
    hide ReadAt, AddressOf;
    assert Row(k, m)[1..] == Row(k + 1, m - 1);
  }

  lemma {:induction false} NoBlocks(d: nat)
    ensures AddressOf(0, d) == 0
  {
  }

  lemma {:induction false} ReadOn(image: Bytes, from: nat, a: nat, b: nat)
    requires from + a <= |image|
    ensures ReadAt(image, from, a) + ReadAt(image, from + a, b) == ReadAt(image, from, a + b)
  {
  }

  /** The blocks of a part begin with the part, and hold no more when it ends on a block. */
  lemma {:induction false} ReadPart(image: Bytes, at: nat, part: Bytes, blkSz: nat)
    requires blkSz > 0 && Stands(image, at, part, blkSz)
    ensures var b := ReadBlocks(image, Row(at / blkSz, CountOf(|part|, blkSz)), blkSz);
            part <= b && (Divides(blkSz, |part|) ==> b == part)
  {
    var k, m := at / blkSz, CountOf(|part|, blkSz);
    PartBlocks(at, |part|, blkSz);
    hide AddressOf, CountOf, RoundUp, ReadBlocks, Row;
    ReadRow(image, k, m, blkSz);
    if m == 0 { assert part == []; }
    hide Divides;
  }

  lemma {:induction false} PartBlocks(at: nat, length: nat, blkSz: nat)
    requires Divides(blkSz, at)
    ensures var k, m := at / blkSz, CountOf(length, blkSz);
            && AddressOf(k, blkSz) == at && AddressOf(m, blkSz) < length + blkSz && length <= AddressOf(m, blkSz)
            && AddressOf(k + m, blkSz) == at + AddressOf(m, blkSz)
            && (m == 0 <==> length == 0) && (Divides(blkSz, length) ==> AddressOf(m, blkSz) == length)
  {
    RoundUpBounds(length, blkSz);
    RoundUpAligned(length, blkSz);
    QuotientSum(at, 0, blkSz);
    QuotientSum(RoundUp(length, blkSz), 0, blkSz);
    Products(at / blkSz, CountOf(length, blkSz), blkSz);
    hide RoundUp;
  }

  /** The blocks of a file, one part after another, begin with the bytes of the file, if every part but
      the last ends on a block. */
  lemma {:induction false} ReadParts(image: Bytes, ats: seq<nat>, parts: seq<Bytes>, blkSz: nat)
    requires blkSz > 0 && |ats| == |parts| && forall i :: 0 <= i < |parts| ==> Stands(image, ats[i], parts[i], blkSz)
    requires forall i :: 0 <= i < |parts| - 1 ==> Divides(blkSz, |parts[i]|)
    ensures Concat(parts) <= ReadBlocks(image, BlocksOf(ats, parts, blkSz), blkSz)
  {
    if parts != [] {
      var row, rest := Row(ats[0] / blkSz, CountOf(|parts[0]|, blkSz)), BlocksOf(ats[1..], parts[1..], blkSz);
      assert Stands(image, ats[0], parts[0], blkSz);
      forall i | 0 <= i < |parts| - 1 ensures Stands(image, ats[1..][i], parts[1..][i], blkSz) {
        assert Stands(image, ats[i + 1], parts[i + 1], blkSz);
      }
      ReadParts(image, ats[1..], parts[1..], blkSz);
      ReadPart(image, ats[0], parts[0], blkSz);
      BlocksConcat(image, row, rest, blkSz);
      if |parts| == 1 { assert Concat(parts[1..]) == []; }
      hide Row, CountOf, ReadBlocks, Stands, Divides;
    }
  }
}
