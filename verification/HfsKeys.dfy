/** The orders of the B-tree keys (`operator<` of the catalog and the extents overflow keys) are the
    lexicographic order of the composite keys. */
module HfsKeys {
  import opened Lexical

  datatype CatalogKey = CatalogKey(parentID: nat, name: seq<int>)
  {
    /** The parent first; names only among children of one parent. */
    predicate Below(other: CatalogKey) {
      parentID < other.parentID || (parentID == other.parentID && Less(name, other.name))
    }

    function ToKey(): Key {
      [parentID] + name
    }
  }

  datatype ExtentKey = ExtentKey(fileID: nat, forkType: nat, startBlock: nat)
  {
    predicate Below(other: ExtentKey) {
      || fileID < other.fileID
      || (fileID == other.fileID && forkType < other.forkType)
      || (fileID == other.fileID && forkType == other.forkType && startBlock < other.startBlock)
    }

    function ToKey(): Key {
      [fileID, forkType, startBlock]
    }
  }

  lemma {:induction false} CatalogOrder(a: CatalogKey, b: CatalogKey)
    ensures a.Below(b) <==> Less(a.ToKey(), b.ToKey())
    ensures a == b <==> a.ToKey() == b.ToKey()
  {
    assert a.ToKey()[1..] == a.name && b.ToKey()[1..] == b.name;
    assert a.ToKey()[0] == a.parentID && b.ToKey()[0] == b.parentID;
  }

  lemma {:induction false} ExtentOrder(a: ExtentKey, b: ExtentKey)
    ensures a.Below(b) <==> Less(a.ToKey(), b.ToKey())
    ensures a == b <==> a.ToKey() == b.ToKey()
  {
    var p, q := a.ToKey(), b.ToKey();
    assert p[1..] == [a.forkType, a.startBlock] && q[1..] == [b.forkType, b.startBlock];
    assert p[1..][1..] == [a.startBlock] && q[1..][1..] == [b.startBlock];
    assert Less([a.startBlock], [b.startBlock]) <==> a.startBlock < b.startBlock;
    assert Less(p[1..], q[1..]) <==> a.forkType < b.forkType || (a.forkType == b.forkType && a.startBlock < b.startBlock);
    assert p[0] == a.fileID && p[1] == a.forkType && p[2] == a.startBlock;
    assert q[0] == b.fileID && q[1] == b.forkType && q[2] == b.startBlock;
  }
}
