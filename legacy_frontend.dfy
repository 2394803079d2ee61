/** The older `hefoki-backend/frontend.js`: the same merge on the keys its test
    uses (non-negative numbers), the worked example that test pins down, and the
    older flag computation, whose `&&`/`||` precedence differs from the later one. */
module LegacyFrontend {
  import opened Js
  import opened IndexedMerge
  import opened Pagination
  import Increment

  /** `<` on non-negative numbers; `n < null` is `n < 0`, false, as the merge assumes. */
  function NatLess(x: nat, y: nat): bool {
    x < y
  }

  lemma NatLessIsStrictTotalOrder()
    ensures StrictTotalOrder(NatLess)
  {
    forall x: nat, y: nat, z: nat
      ensures TransitiveAt(NatLess, x, y, z)
    {
    }
  }

  /** The five entries the test expects from merging `[1,2,3]` with `[0,2,3,4]`
      without value lists (so each value is the key itself). */
  function ExpectedMerge(): seq<Entry<nat, nat>> {
    [ Entry(0, None, Some(1), Unlinked(), SideLink(Some(0), None, Some(2))),
      Entry(1, Some(0), Some(2), SideLink(Some(1), None, Some(2)), Unlinked()),
      Entry(2, Some(1), Some(3), SideLink(Some(2), Some(1), Some(3)), SideLink(Some(2), Some(0), Some(3))),
      Entry(3, Some(2), Some(4), SideLink(Some(3), Some(2), None), SideLink(Some(3), Some(2), Some(4))),
      Entry(4, Some(3), None, Unlinked(), SideLink(Some(4), Some(3), None)) ]
  }

  /** The expected entries satisfy the merge's specification. */
  lemma ExpectedIsMerge()
    ensures MergeOf(ExpectedMerge(), [1, 2, 3], [0, 2, 3, 4], KeysAsValues([1, 2, 3]), KeysAsValues([0, 2, 3, 4]), NatLess)
  {
    var r := ExpectedMerge();
    assert Indices(r) == [0, 1, 2, 3, 4];
    assert StrictlySorted(Indices(r), NatLess) by {
      forall i, j | 0 <= i < j < 5
        ensures NatLess(Indices(r)[i], Indices(r)[j])
      {
        assert Indices(r)[i] == i && Indices(r)[j] == j;
      }
    }
    assert Chained(r) by {
      forall k | 0 <= k < 5
        ensures r[k].prev == (if k == 0 then None else Some(r[k - 1].index))
        ensures r[k].next == (if k + 1 < 5 then Some(r[k + 1].index) else None)
      {
        assert r[k].index == k;
      }
    }
    ExpectedSideA();
    ExpectedSideB();
  }

  lemma ExpectedSideA()
    ensures SideLinked(ExpectedMerge(), SideA, [1, 2, 3], KeysAsValues([1, 2, 3]))
  {
    var r, a := ExpectedMerge(), [1, 2, 3];
    assert KeysAsValues(a) == [Some(1), Some(2), Some(3)];
    assert a[..2] == [1, 2] && a[..1] == [1] && a[..0] == [];
    assert Position(a, 0) == -1 && Position(a, 4) == -1;
    assert Position(a, 1) == 0 && Position(a, 2) == 1 && Position(a, 3) == 2;
  }

  lemma ExpectedSideB()
    ensures SideLinked(ExpectedMerge(), SideB, [0, 2, 3, 4], KeysAsValues([0, 2, 3, 4]))
  {
    var r, b := ExpectedMerge(), [0, 2, 3, 4];
    assert KeysAsValues(b) == [Some(0), Some(2), Some(3), Some(4)];
    assert b[..3] == [0, 2, 3] && b[..2] == [0, 2] && b[..1] == [0] && b[..0] == [];
    assert Position(b, 1) == -1;
    assert Position(b, 0) == 0 && Position(b, 2) == 1 && Position(b, 3) == 2 && Position(b, 4) == 3;
  }

  /** The test of the merge: `mergeIndexedArrays([1,2,3], [0,2,3,4])` returns
      exactly the five expected entries. */
  method MergeExample() returns (merged: seq<Entry<nat, nat>>)
    ensures merged == ExpectedMerge()
  {
    NatLessIsStrictTotalOrder();
    merged := MergeIndexedKeys([1, 2, 3], [0, 2, 3, 4], NatLess);
    ExpectedIsMerge();
    MergeUnique(merged, ExpectedMerge(), [1, 2, 3], [0, 2, 3, 4], KeysAsValues([1, 2, 3]), KeysAsValues([0, 2, 3, 4]), NatLess);
  }

  /** The older flag loop. `x && p !== q || r !== s` groups as `(x && p !== q) || r !== s`,
      so a side's next-field is compared even when that side has no page.
      `oldHash` is the published object's ETag hash, `newHash` the built file's. */
  function LegacyClassify<K(==), V>(e: Entry<K, V>, oldHash: V -> string, newHash: V -> string): (f: Increment.Flags)
    ensures Increment.Consistent(f)
    ensures f.isNewPage <==> e.sideA.value.None? && e.sideB.value.Some?
    ensures f.isHashUpdate <==> e.sideA.value.Some? && e.sideB.value.Some?
                                && oldHash(e.sideA.value.value) != newHash(e.sideB.value.value)
    ensures f.isPaginationUpdate <==> f.isBPaginationUpdate || (f.isAPaginationUpdate && !f.isHashUpdate)
  {
    var a := e.sideA.value.Some?;
    var b := e.sideB.value.Some?;
    var isHashUpdate := a && b && oldHash(e.sideA.value.value) != newHash(e.sideB.value.value);
    var isA := (a && e.sideA.prev != e.prev) || e.sideA.next != e.next;
    var isB := (b && e.sideB.prev != e.prev) || e.sideB.next != e.next;
    var isPagination := isB || (isA && !isHashUpdate);
    var isContent := isHashUpdate || isPagination;
    Increment.Flags((!a && b) || isContent, isContent, isPagination, !a && b, isHashUpdate, isA, isB)
  }

  /** The older flags against the newer ones (`Increment.Classify`), with the
      same hash on both sides: they agree on the new-page and hash flags; a
      side with a page gets the same pagination flag; a side without a page,
      which the newer code never flags, is flagged exactly when its `next`
      differs from the chain's. With both pages present all flags agree. */
  lemma LegacyVersusNewer(e: Increment.DayEntry, digest: Page -> string)
    ensures var hash := (f: Increment.SiteFile) => digest(f.content);
      var legacy, newer := LegacyClassify(e, hash, hash), Increment.Classify(e, digest);
      && legacy.isNewPage == newer.isNewPage && legacy.isHashUpdate == newer.isHashUpdate
      && (e.sideA.value.Some? ==> legacy.isAPaginationUpdate == newer.isAPaginationUpdate)
      && (e.sideA.value.None? ==> legacy.isAPaginationUpdate == (e.sideA.next != e.next) && !newer.isAPaginationUpdate)
      && (e.sideB.value.Some? ==> legacy.isBPaginationUpdate == newer.isBPaginationUpdate)
      && (e.sideB.value.None? ==> legacy.isBPaginationUpdate == (e.sideB.next != e.next) && !newer.isBPaginationUpdate)
      && (e.sideA.value.Some? && e.sideB.value.Some? ==> legacy == newer)
  {
  }

  /** The older flag loop over the merged entries. */
  method LegacyClassifyAll<K(==), V>(merged: seq<Entry<K, V>>, oldHash: V -> string, newHash: V -> string)
    returns (flags: seq<Increment.Flags>)
    ensures |flags| == |merged|
    ensures forall k :: 0 <= k < |merged| ==> flags[k] == LegacyClassify(merged[k], oldHash, newHash)
  {
    flags := [];
    for k := 0 to |merged|
      invariant |flags| == k
      invariant forall j :: 0 <= j < k ==> flags[j] == LegacyClassify(merged[j], oldHash, newHash)
    {
      flags := flags + [LegacyClassify(merged[k], oldHash, newHash)];
    }
  }

  /** On the test's merge, the entry for key 1 has no new page, yet the older
      flags mark its new side for a pagination update, and so the whole entry
      for an update (its `next` is 2, its absent `b_next` null). */
  lemma LegacyFlagsMarkMissingSide(oldHash: nat -> string, newHash: nat -> string)
    ensures var e := ExpectedMerge()[1];
      var f := LegacyClassify(e, oldHash, newHash);
      && e.sideB.value.None?
      && f.isBPaginationUpdate && f.isPaginationUpdate && f.isUpdate
  {
  }
}
