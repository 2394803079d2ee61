/** `mergeIndexedArrays`: the sorted merge of two key arrays into one chain of
    entries, each recording its neighbours in the combined chain and on each side. */
module IndexedMerge {
  import opened Js

  /** Which input array a field refers to: A (`indexes_a`) or B (`indexes_b`). */
  datatype Which = SideA | SideB

  /** One side's fields of a merge entry: `value_a`, `prev_a`, `next_a` (or the B ones). */
  datatype SideLink<K, V> = SideLink(value: Option<V>, prev: Option<K>, next: Option<K>)

  /** A merge entry: `index`, `prev`, `next` and the A and B side fields. */
  datatype Entry<K, V> = Entry(index: K, prev: Option<K>, next: Option<K>, sideA: SideLink<K, V>, sideB: SideLink<K, V>)
  {
    function Side(w: Which): SideLink<K, V> {
      if w == SideA then sideA else sideB
    }

    /** The entry after `last_x.next_x = key`. */
    function WithSideNext(w: Which, key: K): (e: Entry<K, V>)
      ensures e.index == index && e.prev == prev && e.next == next
      ensures e.Side(w) == Side(w).(next := Some(key))
      ensures forall w' :: w' != w ==> e.Side(w') == Side(w')
    {
      if w == SideA then this.(sideA := sideA.(next := Some(key)))
      else this.(sideB := sideB.(next := Some(key)))
    }
  }

  /** The side fields of an entry whose index is not on that side. */
  function Unlinked<K, V>(): SideLink<K, V> {
    SideLink(None, None, None)
  }

  function Indices<K, V>(r: seq<Entry<K, V>>): (ks: seq<K>)
    ensures |ks| == |r|
    ensures forall k :: 0 <= k < |r| ==> ks[k] == r[k].index
  {
    seq(|r|, k requires 0 <= k < |r| => r[k].index)
  }

  ghost predicate StrictlySorted<K>(s: seq<K>, less: (K, K) -> bool) {
    forall i, j :: 0 <= i < j < |s| ==> less(s[i], s[j])
  }

  /** `prev`/`next` name the neighbouring entries' indices; null at the ends. */
  ghost predicate Chained<K, V>(r: seq<Entry<K, V>>) {
    forall k :: 0 <= k < |r| ==> LinkedAt(r, k)
  }

  /** Entry `k` points back at entry `k - 1` and forward at entry `k + 1`. */
  ghost predicate LinkedAt<K, V>(r: seq<Entry<K, V>>, k: nat)
    requires k < |r|
  {
    && r[k].prev == (if k == 0 then None else Some(r[k - 1].index))
    && r[k].next == (if k + 1 < |r| then Some(r[k + 1].index) else None)
  }

  /** The first position of `x` in `s`, -1 when absent. */
  ghost function Position<K>(s: seq<K>, x: K): (i: int)
    ensures -1 <= i < |s|
    ensures i >= 0 ==> s[i] == x && x !in s[..i]
    ensures i < 0 ==> x !in s
  {
    if |s| == 0 then -1
    else if s[|s| - 1] == x && Position(s[..|s| - 1], x) < 0 then |s| - 1
    else if Position(s[..|s| - 1], x) >= 0 then Position(s[..|s| - 1], x)
    else (assert s == s[..|s| - 1] + [s[|s| - 1]]; -1)
  }

  /** The side fields an entry with index `x` should carry for side `keys`/`vals`:
      the value at `x`'s position and its neighbours there, all null when `x` is
      not on that side. */
  ghost function SideOf<K, V>(keys: seq<K>, vals: seq<Option<V>>, x: K): SideLink<K, V>
    requires |vals| == |keys|
  {
    var i := Position(keys, x);
    if i < 0 then Unlinked()
    else SideLink(vals[i], if i == 0 then None else Some(keys[i - 1]),
                  if i + 1 < |keys| then Some(keys[i + 1]) else None)
  }

  ghost predicate SideLinked<K, V>(r: seq<Entry<K, V>>, w: Which, keys: seq<K>, vals: seq<Option<V>>)
    requires |vals| == |keys|
  {
    forall k :: 0 <= k < |r| ==> r[k].Side(w) == SideOf(keys, vals, r[k].index)
  }

  /** Appending a new key leaves the positions of the others alone. */
  lemma PositionAppend<K>(s: seq<K>, x: K, y: K)
    ensures Position(s + [x], y) == (if y in s then Position(s, y) else if y == x then |s| else -1)
  {
    assert (s + [x])[..|s|] == s;
  }

  /** What `mergeIndexedArrays(a, b)` returns: one entry per key of the sorted
      union of `a` and `b`, chained in order, with both sides' fields. */
  ghost predicate MergeOf<K(!new), V>(r: seq<Entry<K, V>>, a: seq<K>, b: seq<K>,
                                      va: seq<Option<V>>, vb: seq<Option<V>>, less: (K, K) -> bool)
    requires |va| == |a| && |vb| == |b|
  {
    && StrictlySorted(Indices(r), less)
    && (forall x :: x in Indices(r) <==> x in a || x in b)
    && Chained(r)
    && SideLinked(r, SideA, a, va)
    && SideLinked(r, SideB, b, vb)
  }

  /** The loop of `mergeIndexedArrays` ends only when B does not run out while A
      still has keys: A is empty, or A's last key is not after B's last key. */
  predicate Terminates<K>(a: seq<K>, b: seq<K>, less: (K, K) -> bool) {
    |a| == 0 || (|b| > 0 && !less(b[|b| - 1], a[|a| - 1]))
  }

  /** The source's test for an A-only entry, `(a_index < b_index) && (a_index !== null)`.
      A missing B key is `null`, and a date string or a non-negative number is
      never `< null` (the string converts to NaN, null to 0), so that case is false. */
  predicate SourceTakesA<K>(aIndex: Option<K>, bIndex: Option<K>, less: (K, K) -> bool) {
    aIndex.Some? && bIndex.Some? && less(aIndex.value, bIndex.value)
  }

  /** `last_x` is the entry holding the last key consumed from side x. */
  ghost predicate LastOn<K, V>(r: seq<Entry<K, V>>, last: Option<nat>, keys: seq<K>) {
    && (last.Some? <==> |keys| > 0)
    && (last.Some? ==> last.value < |r| && r[last.value].index == keys[|keys| - 1])
  }

  /** Every index emitted so far sorts before the current heads of both arrays. */
  ghost predicate BelowHeads<K, V>(r: seq<Entry<K, V>>, a: seq<K>, ai: nat, b: seq<K>, bi: nat, less: (K, K) -> bool) {
    forall k :: 0 <= k < |r| ==>
      && (ai < |a| ==> less(r[k].index, a[ai]))
      && (bi < |b| ==> less(r[k].index, b[bi]))
  }

  function IndexOf<K, V>(r: seq<Entry<K, V>>, last: Option<nat>): Option<K> {
    if last.Some? && last.value < |r| then Some(r[last.value].index) else None
  }

  /** `mergeIndexedArrays(indexes_a, indexes_b, values_a, values_b)` with the value
      lookups already done: `va[i]` is `values_a[indexes_a[i]] ?? null`. */
  method MergeIndexed<K(==, !new), V>(a: seq<K>, b: seq<K>, va: seq<Option<V>>, vb: seq<Option<V>>,
                                       less: (K, K) -> bool)
    returns (merged: seq<Entry<K, V>>)
    requires StrictTotalOrder(less)
    requires StrictlySorted(a, less) && StrictlySorted(b, less)
    requires |va| == |a| && |vb| == |b|
    requires Terminates(a, b, less)
    ensures MergeOf(merged, a, b, va, vb, less)
  {
    merged := [];
    var lastMerge: Option<nat> := None;
    var lastA: Option<nat> := None;
    var lastB: Option<nat> := None;
    var ai, bi := 0, 0;
    while ai < |a| || bi < |b|
      invariant MergeInvariant(merged, a, b, va, vb, less, ai, bi, lastMerge, lastA, lastB)
      decreases |a| - ai + |b| - bi
    {
      var aIndex := if ai < |a| then Some(a[ai]) else None;
      var bIndex := if bi < |b| then Some(b[bi]) else None;
      if aIndex == bIndex {
        merged, lastA, lastB := TakeBoth(merged, a, b, va, vb, less, ai, bi, lastMerge, lastA, lastB);
        ai, bi := ai + 1, bi + 1;
      } else if SourceTakesA(aIndex, bIndex, less) {
        merged, lastA := TakeA(merged, a, b, va, vb, less, ai, bi, lastMerge, lastA, lastB);
        ai := ai + 1;
      } else {
        merged, lastB := TakeB(merged, a, b, va, vb, less, ai, bi, lastMerge, lastA, lastB);
        bi := bi + 1;
      }
      lastMerge := Some(|merged| - 1);
    }
    assert a[..ai] == a && b[..bi] == b && va[..ai] == va && vb[..bi] == vb;
  }

  /** The loop invariant of `MergeIndexed`: the entries so far are the merge of
      the keys consumed, `last_merge`, `last_a` and `last_b` hold the right
      entries, and every index so far sorts before both heads. */
  ghost predicate MergeInvariant<K(!new), V>(merged: seq<Entry<K, V>>, a: seq<K>, b: seq<K>,
                                             va: seq<Option<V>>, vb: seq<Option<V>>, less: (K, K) -> bool,
                                             ai: nat, bi: nat, lastMerge: Option<nat>, lastA: Option<nat>, lastB: Option<nat>)
  {
    && StrictTotalOrder(less) && StrictlySorted(a, less) && StrictlySorted(b, less)
    && |va| == |a| && |vb| == |b| && Terminates(a, b, less)
    && ai <= |a| && bi <= |b| && (ai < |a| ==> bi < |b|)
    && MergeOf(merged, a[..ai], b[..bi], va[..ai], vb[..bi], less)
    && lastMerge == (if merged == [] then None else Some(|merged| - 1))
    && LastOn(merged, lastA, a[..ai]) && LastOn(merged, lastB, b[..bi])
    && BelowHeads(merged, a, ai, b, bi, less)
  }

  /** The turn for a key on both sides: one entry carries both values, and both
      sides' last entries point at it. */
  method TakeBoth<K(==, !new), V>(merged: seq<Entry<K, V>>, a: seq<K>, b: seq<K>,
                                  va: seq<Option<V>>, vb: seq<Option<V>>, less: (K, K) -> bool,
                                  ai: nat, bi: nat, lastMerge: Option<nat>, lastA: Option<nat>, lastB: Option<nat>)
    returns (merged': seq<Entry<K, V>>, lastA': Option<nat>, lastB': Option<nat>)
    requires MergeInvariant(merged, a, b, va, vb, less, ai, bi, lastMerge, lastA, lastB)
    requires ai < |a| && bi < |b| && a[ai] == b[bi]
    ensures |merged'| == |merged| + 1
    ensures MergeInvariant(merged', a, b, va, vb, less, ai + 1, bi + 1, Some(|merged|), lastA', lastB')
  {
    var x := a[ai];
    var entry := Entry(x, IndexOf(merged, lastMerge), None, SideLink(va[ai], IndexOf(merged, lastA), None),
                                                            SideLink(vb[bi], IndexOf(merged, lastB), None));
    merged' := Push(SetSideNext(SetSideNext(merged, lastA, SideA, x), lastB, SideB, x), entry);
    lastA', lastB' := Some(|merged|), Some(|merged|);
    Step(merged, merged', entry, a, b, va, vb, ai, bi, ai + 1, bi + 1, lastA, lastB, less);
  }

  /** The turn for an A-only key: `(a_index < b_index) && (a_index !== null)`. */
  method TakeA<K(==, !new), V>(merged: seq<Entry<K, V>>, a: seq<K>, b: seq<K>,
                               va: seq<Option<V>>, vb: seq<Option<V>>, less: (K, K) -> bool,
                               ai: nat, bi: nat, lastMerge: Option<nat>, lastA: Option<nat>, lastB: Option<nat>)
    returns (merged': seq<Entry<K, V>>, lastA': Option<nat>)
    requires MergeInvariant(merged, a, b, va, vb, less, ai, bi, lastMerge, lastA, lastB)
    requires ai < |a| && bi < |b| && less(a[ai], b[bi])
    ensures |merged'| == |merged| + 1
    ensures MergeInvariant(merged', a, b, va, vb, less, ai + 1, bi, Some(|merged|), lastA', lastB)
  {
    var x := a[ai];
    var entry := Entry(x, IndexOf(merged, lastMerge), None, SideLink(va[ai], IndexOf(merged, lastA), None), Unlinked());
    merged' := Push(SetSideNext(merged, lastA, SideA, x), entry);
    lastA' := Some(|merged|);
    assert SetSideNext(SetSideNext(merged, lastA, SideA, x), None, SideB, x) == SetSideNext(merged, lastA, SideA, x);
    Step(merged, merged', entry, a, b, va, vb, ai, bi, ai + 1, bi, lastA, lastB, less);
  }

  /** The turn for a B key: every other case, A being exhausted or its head
      sorting after B's. */
  method TakeB<K(==, !new), V>(merged: seq<Entry<K, V>>, a: seq<K>, b: seq<K>,
                               va: seq<Option<V>>, vb: seq<Option<V>>, less: (K, K) -> bool,
                               ai: nat, bi: nat, lastMerge: Option<nat>, lastA: Option<nat>, lastB: Option<nat>)
    returns (merged': seq<Entry<K, V>>, lastB': Option<nat>)
    requires MergeInvariant(merged, a, b, va, vb, less, ai, bi, lastMerge, lastA, lastB)
    requires bi < |b| && (ai < |a| ==> a[ai] != b[bi] && !less(a[ai], b[bi]))
    ensures |merged'| == |merged| + 1
    ensures MergeInvariant(merged', a, b, va, vb, less, ai, bi + 1, Some(|merged|), lastA, lastB')
  {
    var x := b[bi];
    var entry := Entry(x, IndexOf(merged, lastMerge), None, Unlinked(), SideLink(vb[bi], IndexOf(merged, lastB), None));
    merged' := Push(SetSideNext(merged, lastB, SideB, x), entry);
    lastB' := Some(|merged|);
    assert SetSideNext(merged, None, SideA, x) == merged;
    Step(merged, merged', entry, a, b, va, vb, ai, bi, ai, bi + 1, lastA, lastB, less);
  }

  function Other(w: Which): Which {
    if w == SideA then SideB else SideA
  }

  /** `last_x.next_x = key` when side x has a last entry; the chain unchanged otherwise. */
  function SetSideNext<K, V>(r: seq<Entry<K, V>>, last: Option<nat>, w: Which, key: K): (r': seq<Entry<K, V>>)
    ensures |r'| == |r|
    ensures forall k :: 0 <= k < |r| ==>
      r'[k].index == r[k].index && r'[k].prev == r[k].prev && r'[k].next == r[k].next
    ensures forall k :: 0 <= k < |r| ==> r'[k].Side(Other(w)) == r[k].Side(Other(w))
    ensures forall k :: 0 <= k < |r| && Some(k) != last ==> r'[k].Side(w) == r[k].Side(w)
    ensures last.Some? && last.value < |r| ==>
      r'[last.value].Side(w) == r[last.value].Side(w).(next := Some(key))
  {
    if last.Some? && last.value < |r| then r[last.value := r[last.value].WithSideNext(w, key)] else r
  }

  /** `merged.push(entry)` followed by `last_merge.next = entry.index`. */
  function Push<K, V>(r: seq<Entry<K, V>>, e: Entry<K, V>): (r': seq<Entry<K, V>>)
    ensures |r'| == |r| + 1 && r'[|r|] == e
    ensures forall k :: 0 <= k < |r| ==>
      r'[k].index == r[k].index && r'[k].prev == r[k].prev && r'[k].sideA == r[k].sideA && r'[k].sideB == r[k].sideB
    ensures forall k :: 0 <= k < |r| - 1 ==> r'[k].next == r[k].next
    ensures |r| > 0 ==> r'[|r| - 1].next == Some(e.index)
  {
    if |r| == 0 then [e] else r[|r| - 1 := r[|r| - 1].(next := Some(e.index))] + [e]
  }

  /** One turn of the loop: `r` is the chain before the turn, at cursors `ai0`,
      `bi0`, and `r'` the chain after it, at cursors `ai`, `bi`. */
  ghost predicate TurnOf<K(!new), V>(r: seq<Entry<K, V>>, r': seq<Entry<K, V>>, e: Entry<K, V>, a: seq<K>, b: seq<K>,
                                     va: seq<Option<V>>, vb: seq<Option<V>>,
                                     ai0: nat, bi0: nat, ai: nat, bi: nat,
                                     lastA: Option<nat>, lastB: Option<nat>, less: (K, K) -> bool)
  {
    && StrictTotalOrder(less)
    && StrictlySorted(a, less) && StrictlySorted(b, less)
    && |va| == |a| && |vb| == |b| && Terminates(a, b, less)
    && ai0 <= |a| && bi0 <= |b| && (ai0 < |a| ==> bi0 < |b|)
    && MergeOf(r, a[..ai0], b[..bi0], va[..ai0], vb[..bi0], less)
    && BelowHeads(r, a, ai0, b, bi0, less)
    && LastOn(r, lastA, a[..ai0]) && LastOn(r, lastB, b[..bi0])
    && (ai == ai0 + 1 || ai == ai0)
    && (bi == bi0 + 1 || bi == bi0)
    && (ai == ai0 + 1 ==> ai0 < |a|)
    && (bi == bi0 + 1 ==> bi0 < |b|)
    // which branch ran: the key consumed is the smaller head, both heads if equal
    && (ai == ai0 + 1 && bi == bi0 + 1 ==> a[ai0] == b[bi0])
    && (ai == ai0 + 1 && bi == bi0 ==> bi0 < |b| && less(a[ai0], b[bi0]))
    && (ai == ai0 && bi == bi0 + 1 ==> ai0 < |a| ==> less(b[bi0], a[ai0]))
    && ai + bi > ai0 + bi0
    // the chain after the turn: the earlier last entries of the consumed sides
    // point at the new entry, which is appended after the previous last entry
    && e.index == (if ai == ai0 + 1 then a[ai0] else b[bi0])
    && e.prev == IndexOf(r, if |r| == 0 then None else Some(|r| - 1)) && e.next == None
    && e.sideA == (if ai == ai0 + 1 then SideLink(va[ai0], IndexOf(r, lastA), None) else Unlinked())
    && e.sideB == (if bi == bi0 + 1 then SideLink(vb[bi0], IndexOf(r, lastB), None) else Unlinked())
    && r' == Push(SetSideNext(SetSideNext(r, if ai == ai0 + 1 then lastA else None, SideA, e.index),
                              if bi == bi0 + 1 then lastB else None, SideB, e.index), e)
  }

  /** One turn of the loop keeps its invariant. */
  lemma Step<K(!new), V>(r: seq<Entry<K, V>>, r': seq<Entry<K, V>>, e: Entry<K, V>, a: seq<K>, b: seq<K>,
                         va: seq<Option<V>>, vb: seq<Option<V>>,
                         ai0: nat, bi0: nat, ai: nat, bi: nat,
                         lastA: Option<nat>, lastB: Option<nat>, less: (K, K) -> bool)
    requires TurnOf(r, r', e, a, b, va, vb, ai0, bi0, ai, bi, lastA, lastB, less)
    ensures ai < |a| ==> bi < |b|
    ensures MergeOf(r', a[..ai], b[..bi], va[..ai], vb[..bi], less)
    ensures LastOn(r', if ai == ai0 then lastA else Some(|r|), a[..ai])
    ensures LastOn(r', if bi == bi0 then lastB else Some(|r|), b[..bi])
    ensures BelowHeads(r', a, ai, b, bi, less)
  {
    StepOrder(r, r', e, a, b, va, vb, ai0, bi0, ai, bi, lastA, lastB, less);
    StepSides(r, r', e, a, b, va, vb, ai0, bi0, ai, bi, lastA, lastB, less);
  }

  /** A turn keeps the chain sorted, linked and made of the keys consumed, and
      below both heads. */
  lemma StepOrder<K(!new), V>(r: seq<Entry<K, V>>, r': seq<Entry<K, V>>, e: Entry<K, V>, a: seq<K>, b: seq<K>,
                              va: seq<Option<V>>, vb: seq<Option<V>>,
                              ai0: nat, bi0: nat, ai: nat, bi: nat,
                              lastA: Option<nat>, lastB: Option<nat>, less: (K, K) -> bool)
    requires TurnOf(r, r', e, a, b, va, vb, ai0, bi0, ai, bi, lastA, lastB, less)
    ensures ai < |a| ==> bi < |b|
    ensures StrictlySorted(Indices(r'), less)
    ensures forall x :: x in Indices(r') <==> x in a[..ai] || x in b[..bi]
    ensures Chained(r')
    ensures BelowHeads(r', a, ai, b, bi, less)
  {
    StepChain(r, r', e, a, b, va, vb, ai0, bi0, ai, bi, lastA, lastB, less);
    MembersAfterStep(Indices(r), e.index, a, b, ai0, bi0, ai, bi);
    StepBelow(r, r', e, a, b, va, vb, ai0, bi0, ai, bi, lastA, lastB, less);
    if bi == |b| {
      assert b[..bi] == b;
      Balanced(Indices(r'), a, b, ai, less);
    }
  }

  /** The new entry goes at the end of the chain, after every earlier index. */
  lemma StepChain<K(!new), V>(r: seq<Entry<K, V>>, r': seq<Entry<K, V>>, e: Entry<K, V>, a: seq<K>, b: seq<K>,
                              va: seq<Option<V>>, vb: seq<Option<V>>,
                              ai0: nat, bi0: nat, ai: nat, bi: nat,
                              lastA: Option<nat>, lastB: Option<nat>, less: (K, K) -> bool)
    requires TurnOf(r, r', e, a, b, va, vb, ai0, bi0, ai, bi, lastA, lastB, less)
    ensures Indices(r') == Indices(r) + [e.index]
    ensures StrictlySorted(Indices(r'), less)
    ensures Chained(r')
  {
    var x := e.index;
    TurnShape(r, r', e, if ai == ai0 + 1 then lastA else None, if bi == bi0 + 1 then lastB else None);
    assert forall k :: 0 <= k < |r| ==> less(r[k].index, x);
    ChainAppend(r, r', x);
    SortedAppend(Indices(r), x, less);
  }

  /** Every index so far still sorts before both heads after the turn. */
  lemma StepBelow<K(!new), V>(r: seq<Entry<K, V>>, r': seq<Entry<K, V>>, e: Entry<K, V>, a: seq<K>, b: seq<K>,
                              va: seq<Option<V>>, vb: seq<Option<V>>,
                              ai0: nat, bi0: nat, ai: nat, bi: nat,
                              lastA: Option<nat>, lastB: Option<nat>, less: (K, K) -> bool)
    requires TurnOf(r, r', e, a, b, va, vb, ai0, bi0, ai, bi, lastA, lastB, less)
    ensures BelowHeads(r', a, ai, b, bi, less)
  {
    TurnShape(r, r', e, if ai == ai0 + 1 then lastA else None, if bi == bi0 + 1 then lastB else None);
    BelowAfterStep(r, r', a, b, ai0, bi0, ai, bi, less);
  }

  /** A turn keeps both sides' fields and last entries right. */
  lemma StepSides<K(!new), V>(r: seq<Entry<K, V>>, r': seq<Entry<K, V>>, e: Entry<K, V>, a: seq<K>, b: seq<K>,
                              va: seq<Option<V>>, vb: seq<Option<V>>,
                              ai0: nat, bi0: nat, ai: nat, bi: nat,
                              lastA: Option<nat>, lastB: Option<nat>, less: (K, K) -> bool)
    requires TurnOf(r, r', e, a, b, va, vb, ai0, bi0, ai, bi, lastA, lastB, less)
    ensures SideLinked(r', SideA, a[..ai], va[..ai]) && SideLinked(r', SideB, b[..bi], vb[..bi])
    ensures LastOn(r', if ai == ai0 then lastA else Some(|r|), a[..ai])
    ensures LastOn(r', if bi == bi0 then lastB else Some(|r|), b[..bi])
  {
    var x := e.index;
    var lA := if ai == ai0 + 1 then lastA else None;
    var lB := if bi == bi0 + 1 then lastB else None;
    TurnShape(r, r', e, lA, lB);
    assert forall k :: 0 <= k < |r| ==> less(r[k].index, x);
    StepSide(r, r', e, SideA, a, va, ai0, ai, lastA, less);
    StepSide(r, r', e, SideB, b, vb, bi0, bi, lastB, less);
  }

  lemma SortedAppend<K>(s: seq<K>, x: K, less: (K, K) -> bool)
    requires StrictlySorted(s, less)
    requires forall k :: 0 <= k < |s| ==> less(s[k], x)
    ensures StrictlySorted(s + [x], less)
  {
  }

  lemma MembersAfterStep<K>(s: seq<K>, x: K, a: seq<K>, b: seq<K>, ai0: nat, bi0: nat, ai: nat, bi: nat)
    requires ai0 <= ai <= |a| && bi0 <= bi <= |b|
    requires forall y :: y in s <==> y in a[..ai0] || y in b[..bi0]
    requires ai == ai0 + 1 || ai == ai0
    requires bi == bi0 + 1 || bi == bi0
    requires ai == ai0 + 1 ==> a[ai0] == x
    requires bi == bi0 + 1 ==> b[bi0] == x
    requires ai + bi > ai0 + bi0
    ensures forall y :: y in s + [x] <==> y in a[..ai] || y in b[..bi]
  {
    assert ai == ai0 + 1 ==> a[..ai] == a[..ai0] + [x];
    assert bi == bi0 + 1 ==> b[..bi] == b[..bi0] + [x];
  }

  /** When B's keys are all emitted, A's keys are too: otherwise B's last key would
      sort before A's head and so before A's last key, against `Terminates`. */
  lemma Balanced<K(!new)>(s: seq<K>, a: seq<K>, b: seq<K>, ai: nat, less: (K, K) -> bool)
    requires StrictTotalOrder(less) && StrictlySorted(a, less)
    requires Terminates(a, b, less)
    requires ai <= |a|
    requires forall y :: y in b ==> y in s
    requires ai < |a| ==> forall k :: 0 <= k < |s| ==> less(s[k], a[ai])
    ensures ai == |a|
  {
    if ai < |a| {
      assert b[|b| - 1] in s;
      assert less(b[|b| - 1], a[ai]);
      if ai < |a| - 1 {
        Transitive(less, b[|b| - 1], a[ai], a[|a| - 1]);
      }
    }
  }

  /** What the back-fills and the push of one turn change, entry by entry. */
  lemma TurnShape<K, V>(r: seq<Entry<K, V>>, r': seq<Entry<K, V>>, e: Entry<K, V>,
                        lA: Option<nat>, lB: Option<nat>)
    requires r' == Push(SetSideNext(SetSideNext(r, lA, SideA, e.index), lB, SideB, e.index), e)
    ensures |r'| == |r| + 1 && r'[|r|] == e
    ensures forall k :: 0 <= k < |r| ==> r'[k].index == r[k].index && r'[k].prev == r[k].prev
    ensures forall k :: 0 <= k < |r| - 1 ==> r'[k].next == r[k].next
    ensures |r| > 0 ==> r'[|r| - 1].next == Some(e.index)
    ensures forall k :: 0 <= k < |r| && Some(k) != lA ==> r'[k].Side(SideA) == r[k].Side(SideA)
    ensures forall k :: 0 <= k < |r| && Some(k) != lB ==> r'[k].Side(SideB) == r[k].Side(SideB)
    ensures lA.Some? && lA.value < |r| ==> r'[lA.value].Side(SideA) == r[lA.value].Side(SideA).(next := Some(e.index))
    ensures lB.Some? && lB.value < |r| ==> r'[lB.value].Side(SideB) == r[lB.value].Side(SideB).(next := Some(e.index))
  {
    assert Other(SideA) == SideB && Other(SideB) == SideA;
  }

  /** One side's fields after a turn that consumed its head (`i == i0 + 1`) or not. */
  lemma StepSide<K(!new), V>(r: seq<Entry<K, V>>, r': seq<Entry<K, V>>, e: Entry<K, V>, w: Which,
                             keys: seq<K>, vals: seq<Option<V>>, i0: nat, i: nat, last: Option<nat>,
                             less: (K, K) -> bool)
    requires StrictTotalOrder(less)
    requires StrictlySorted(keys, less) && |vals| == |keys| && i0 <= |keys|
    requires i == i0 || (i == i0 + 1 && i0 < |keys| && keys[i0] == e.index)
    requires StrictlySorted(Indices(r), less)
    requires SideLinked(r, w, keys[..i0], vals[..i0]) && LastOn(r, last, keys[..i0])
    requires forall y :: y in keys[..i0] ==> y in Indices(r)
    requires forall k :: 0 <= k < |r| ==> less(r[k].index, e.index)
    requires e.Side(w) == if i == i0 + 1 then SideLink(vals[i0], IndexOf(r, last), None) else Unlinked()
    requires |r'| == |r| + 1 && r'[|r|] == e
    requires forall k :: 0 <= k < |r| ==> r'[k].index == r[k].index
    requires forall k :: 0 <= k < |r| && (i == i0 || Some(k) != last) ==> r'[k].Side(w) == r[k].Side(w)
    requires i == i0 + 1 && last.Some? ==> r'[last.value].Side(w) == r[last.value].Side(w).(next := Some(e.index))
    ensures SideLinked(r', w, keys[..i], vals[..i])
    ensures LastOn(r', if i == i0 then last else Some(|r|), keys[..i])
  {
    var x := e.index;
    if i == i0 + 1 {
      assert keys[..i] == keys[..i0] + [x] && vals[..i] == vals[..i0] + [vals[i0]];
      assert StrictlySorted(keys[..i0], less);
      SideAppend(r, r', w, keys[..i0], vals[..i0], x, vals[i0], last, less);
    } else {
      BelowAll(r, keys[..i0], x, less);
      SideKeep(r, r', w, keys[..i0], vals[..i0], x);
    }
  }

  lemma BelowAfterStep<K(!new), V>(r: seq<Entry<K, V>>, r': seq<Entry<K, V>>, a: seq<K>, b: seq<K>,
                                   ai0: nat, bi0: nat, ai: nat, bi: nat, less: (K, K) -> bool)
    requires StrictTotalOrder(less)
    requires StrictlySorted(a, less) && StrictlySorted(b, less)
    requires ai0 <= ai <= ai0 + 1 && bi0 <= bi <= bi0 + 1 && ai <= |a| && bi <= |b|
    requires BelowHeads(r, a, ai0, b, bi0, less)
    requires |r'| == |r| + 1
    requires forall k :: 0 <= k < |r| ==> r'[k].index == r[k].index
    requires ai == ai0 + 1 ==> r'[|r|].index == a[ai0]
    requires bi == bi0 + 1 ==> r'[|r|].index == b[bi0]
    requires ai == ai0 ==> ai0 < |a| ==> less(r'[|r|].index, a[ai0])
    requires bi == bi0 ==> bi0 < |b| ==> less(r'[|r|].index, b[bi0])
    ensures BelowHeads(r', a, ai, b, bi, less)
  {
    var x := r'[|r|].index;
    forall k | 0 <= k < |r'|
      ensures ai < |a| ==> less(r'[k].index, a[ai])
      ensures bi < |b| ==> less(r'[k].index, b[bi])
    {
      if k < |r| {
        if ai < |a| && ai == ai0 + 1 {
          assert TransitiveAt(less, r[k].index, x, a[ai]);
        }
        if bi < |b| && bi == bi0 + 1 {
          assert TransitiveAt(less, r[k].index, x, b[bi]);
        }
      }
    }
  }

  lemma ChainedAt<K, V>(r: seq<Entry<K, V>>, k: nat)
    requires Chained(r) && k < |r|
    ensures r[k].prev == (if k == 0 then None else Some(r[k - 1].index))
    ensures r[k].next == (if k + 1 < |r| then Some(r[k + 1].index) else None)
  {
    assert LinkedAt(r, k);
  }

  /** Appending an entry keeps the combined chain linked. */
  lemma ChainAppend<K(!new), V>(r: seq<Entry<K, V>>, r': seq<Entry<K, V>>, x: K)
    requires Chained(r)
    requires |r'| == |r| + 1 && r'[|r|].index == x && r'[|r|].next == None
    requires r'[|r|].prev == (if |r| == 0 then None else Some(r[|r| - 1].index))
    requires forall k :: 0 <= k < |r| ==> r'[k].index == r[k].index && r'[k].prev == r[k].prev
    requires forall k :: 0 <= k < |r| - 1 ==> r'[k].next == r[k].next
    requires |r| > 0 ==> r'[|r| - 1].next == Some(x)
    ensures Chained(r')
    ensures Indices(r') == Indices(r) + [x]
  {
    forall k | 0 <= k < |r'|
      ensures r'[k].prev == (if k == 0 then None else Some(r'[k - 1].index))
    {
      if k < |r| {
        ChainedAt(r, k);
      }
      if k > 0 {
        assert r'[k - 1].index == r[k - 1].index;
      }
    }
    forall k | 0 <= k < |r'|
      ensures r'[k].next == (if k + 1 < |r'| then Some(r'[k + 1].index) else None)
    {
      if k < |r| - 1 {
        ChainedAt(r, k);
      }
    }
  }

  /** Consuming key `x` from side `w` links it after that side's previous last key. */
  lemma SideAppend<K(!new), V>(r: seq<Entry<K, V>>, r': seq<Entry<K, V>>, w: Which, keys: seq<K>,
                               vals: seq<Option<V>>, x: K, v: Option<V>, last: Option<nat>,
                               less: (K, K) -> bool)
    requires StrictTotalOrder(less)
    requires |vals| == |keys| && SideLinked(r, w, keys, vals)
    requires StrictlySorted(Indices(r), less) && StrictlySorted(keys, less)
    requires forall i :: 0 <= i < |keys| ==> keys[i] in Indices(r)
    requires forall k :: 0 <= k < |r| ==> less(r[k].index, x)
    requires LastOn(r, last, keys)
    requires |r'| == |r| + 1 && r'[|r|].index == x
    requires r'[|r|].Side(w) == SideLink(v, IndexOf(r, last), None)
    requires forall k :: 0 <= k < |r| ==> r'[k].index == r[k].index
    requires forall k :: 0 <= k < |r| && Some(k) != last ==> r'[k].Side(w) == r[k].Side(w)
    requires last.Some? ==> r'[last.value].Side(w) == r[last.value].Side(w).(next := Some(x))
    ensures SideLinked(r', w, keys + [x], vals + [v])
  {
    var keys', vals' := keys + [x], vals + [v];
    forall k | 0 <= k < |r'|
      ensures r'[k].Side(w) == SideOf(keys', vals', r'[k].index)
    {
      if k == |r| {
        SideAppendNew(r, r', w, keys, vals, x, v, last, less);
      } else {
        SideAppendOld(r, r', w, keys, vals, x, v, last, less, k);
      }
    }
  }

  /** The appended entry's side fields: its value, the side's previous last key,
      and no next key. */
  lemma SideAppendNew<K(!new), V>(r: seq<Entry<K, V>>, r': seq<Entry<K, V>>, w: Which, keys: seq<K>,
                                  vals: seq<Option<V>>, x: K, v: Option<V>, last: Option<nat>,
                                  less: (K, K) -> bool)
    requires StrictTotalOrder(less)
    requires |vals| == |keys|
    requires forall i :: 0 <= i < |keys| ==> keys[i] in Indices(r)
    requires forall k :: 0 <= k < |r| ==> less(r[k].index, x)
    requires LastOn(r, last, keys)
    requires |r'| == |r| + 1 && r'[|r|].index == x
    requires r'[|r|].Side(w) == SideLink(v, IndexOf(r, last), None)
    ensures r'[|r|].Side(w) == SideOf(keys + [x], vals + [v], x)
  {
    PositionAppend(keys, x, x);
    BelowAll(r, keys, x, less);
  }

  /** An earlier entry's side fields: unchanged, except that the side's last
      entry now points at the appended key. */
  lemma SideAppendOld<K(!new), V>(r: seq<Entry<K, V>>, r': seq<Entry<K, V>>, w: Which, keys: seq<K>,
                                  vals: seq<Option<V>>, x: K, v: Option<V>, last: Option<nat>,
                                  less: (K, K) -> bool, k: nat)
    requires StrictTotalOrder(less)
    requires |vals| == |keys| && SideLinked(r, w, keys, vals)
    requires StrictlySorted(Indices(r), less) && StrictlySorted(keys, less)
    requires forall k :: 0 <= k < |r| ==> less(r[k].index, x)
    requires LastOn(r, last, keys)
    requires k < |r| && |r'| == |r| + 1
    requires r'[k].index == r[k].index
    requires Some(k) != last ==> r'[k].Side(w) == r[k].Side(w)
    requires last.Some? ==> r'[last.value].Side(w) == r[last.value].Side(w).(next := Some(x))
    ensures r'[k].Side(w) == SideOf(keys + [x], vals + [v], r'[k].index)
  {
    var y := r'[k].index;
    PositionAppend(keys, x, y);
    assert y == r[k].index && less(y, x) && y != x;
    assert r[k].Side(w) == SideOf(keys, vals, y);
    if y in keys {
      var i := Position(keys, y);
      if Some(k) == last {
        SortedDistinct(keys, i, |keys| - 1, less);
      }
      if i == |keys| - 1 {
        SortedDistinct(Indices(r), k, last.value, less);
      }
    }
  }

  lemma Transitive<K(!new)>(less: (K, K) -> bool, x: K, y: K, z: K)
    requires StrictTotalOrder(less) && less(x, y) && less(y, z)
    ensures less(x, z)
  {
    assert TransitiveAt(less, x, y, z);
  }

  /** Equal elements of a strictly sorted sequence sit at the same position. */
  lemma SortedDistinct<K(!new)>(s: seq<K>, i: nat, j: nat, less: (K, K) -> bool)
    requires StrictTotalOrder(less) && StrictlySorted(s, less)
    requires i < |s| && j < |s| && s[i] == s[j]
    ensures i == j
  {
  }

  /** A key above every emitted index is not among keys already emitted. */
  lemma BelowAll<K(!new), V>(r: seq<Entry<K, V>>, keys: seq<K>, x: K, less: (K, K) -> bool)
    requires StrictTotalOrder(less)
    requires forall y :: y in keys ==> y in Indices(r)
    requires forall k :: 0 <= k < |r| ==> less(r[k].index, x)
    ensures x !in keys
  {
    forall j | 0 <= j < |keys|
      ensures less(keys[j], x)
    {
      assert keys[j] in Indices(r);
      var k :| 0 <= k < |r| && Indices(r)[k] == keys[j];
    }
  }

  /** An entry for a key not on side `w` leaves that side's links as they were. */
  lemma SideKeep<K, V>(r: seq<Entry<K, V>>, r': seq<Entry<K, V>>, w: Which, keys: seq<K>,
                       vals: seq<Option<V>>, x: K)
    requires |vals| == |keys| && SideLinked(r, w, keys, vals)
    requires x !in keys
    requires |r'| == |r| + 1 && r'[|r|].index == x && r'[|r|].Side(w) == Unlinked()
    requires forall k :: 0 <= k < |r| ==> r'[k].index == r[k].index && r'[k].Side(w) == r[k].Side(w)
    ensures SideLinked(r', w, keys, vals)
  {
  }

  /** The values used when no value lookup is passed: each key stands for itself. */
  function KeysAsValues<K>(keys: seq<K>): (vs: seq<Option<K>>)
    ensures |vs| == |keys| && forall i :: 0 <= i < |keys| ==> vs[i] == Some(keys[i])
  {
    seq(|keys|, i requires 0 <= i < |keys| => Some(keys[i]))
  }

  /** `indexes.map(i => values[i])` followed by `?? null` at each use. */
  function LookUp<K, V>(keys: seq<K>, values: map<K, V>): (vs: seq<Option<V>>)
    ensures |vs| == |keys|
    ensures forall i :: 0 <= i < |keys| ==>
      vs[i] == if keys[i] in values then Some(values[keys[i]]) else None
  {
    seq(|keys|, i requires 0 <= i < |keys| => if keys[i] in values then Some(values[keys[i]]) else None)
  }

  /** `mergeIndexedArrays(indexes_a, indexes_b)` with no value lookups. */
  method MergeIndexedKeys<K(==, !new)>(a: seq<K>, b: seq<K>, less: (K, K) -> bool)
    returns (merged: seq<Entry<K, K>>)
    requires StrictTotalOrder(less)
    requires StrictlySorted(a, less) && StrictlySorted(b, less)
    requires Terminates(a, b, less)
    ensures MergeOf(merged, a, b, KeysAsValues(a), KeysAsValues(b), less)
    ensures forall k :: 0 <= k < |merged| ==>
      && (merged[k].index in a ==> merged[k].sideA.value == Some(merged[k].index))
      && (merged[k].index in b ==> merged[k].sideB.value == Some(merged[k].index))
  {
    merged := MergeIndexed(a, b, KeysAsValues(a), KeysAsValues(b), less);
    forall k | 0 <= k < |merged|
      ensures merged[k].index in a ==> merged[k].sideA.value == Some(merged[k].index)
      ensures merged[k].index in b ==> merged[k].sideB.value == Some(merged[k].index)
    {
      assert merged[k].Side(SideA) == SideOf(a, KeysAsValues(a), merged[k].index);
      assert merged[k].Side(SideB) == SideOf(b, KeysAsValues(b), merged[k].index);
    }
  }

  /** `mergeIndexedArrays(indexes_a, indexes_b, values_a, values_b)` with value
      lookup objects. */
  method MergeIndexedLookUp<K(==, !new), V>(a: seq<K>, b: seq<K>, valuesA: map<K, V>, valuesB: map<K, V>,
                                             less: (K, K) -> bool)
    returns (merged: seq<Entry<K, V>>)
    requires StrictTotalOrder(less)
    requires StrictlySorted(a, less) && StrictlySorted(b, less)
    requires Terminates(a, b, less)
    ensures MergeOf(merged, a, b, LookUp(a, valuesA), LookUp(b, valuesB), less)
  {
    merged := MergeIndexed(a, b, LookUp(a, valuesA), LookUp(b, valuesB), less);
  }

  /** Two strictly sorted sequences holding the same elements are equal. */
  lemma {:induction false} SortedUnique<K(!new)>(s: seq<K>, t: seq<K>, less: (K, K) -> bool)
    requires StrictTotalOrder(less)
    requires StrictlySorted(s, less) && StrictlySorted(t, less)
    requires forall x :: x in s <==> x in t
    ensures s == t
    decreases |s|
  {
    if s != [] && t != [] {
      LastsAgree(s, t, less);
      var s', t' := s[..|s| - 1], t[..|t| - 1];
      DropLastSameMembers(s, t, s', t', less);
      SortedUnique(s', t', less);
      assert s == s' + [s[|s| - 1]] && t == t' + [t[|t| - 1]];
    } else {
      if s != [] {
        HasMember(s);
      }
      if t != [] {
        HasMember(t);
      }
    }
  }

  /** The last element of a strictly sorted sequence is its greatest, so two
      holding the same elements end alike. */
  lemma LastsAgree<K(!new)>(s: seq<K>, t: seq<K>, less: (K, K) -> bool)
    requires StrictTotalOrder(less)
    requires StrictlySorted(s, less) && StrictlySorted(t, less)
    requires forall x :: x in s <==> x in t
    requires s != [] && t != []
    ensures s[|s| - 1] == t[|t| - 1]
  {
    var x, y := s[|s| - 1], t[|t| - 1];
    if x != y {
      assert x in t && y in s;
      var i :| 0 <= i < |t| && t[i] == x;
      var j :| 0 <= j < |s| && s[j] == y;
      assert i < |t| - 1 && j < |s| - 1;
      Transitive(less, x, y, x);
    }
  }

  /** Without their common last element, they still hold the same elements. */
  lemma DropLastSameMembers<K(!new)>(s: seq<K>, t: seq<K>, s': seq<K>, t': seq<K>, less: (K, K) -> bool)
    requires StrictTotalOrder(less)
    requires StrictlySorted(s, less) && StrictlySorted(t, less)
    requires forall x :: x in s <==> x in t
    requires s != [] && t != [] && s[|s| - 1] == t[|t| - 1]
    requires s' == s[..|s| - 1] && t' == t[..|t| - 1]
    ensures forall z :: z in s' <==> z in t'
  {
    InitMembersIn(s, t, s', t', less);
    InitMembersIn(t, s, t', s', less);
  }

  /** An element before the last of a strictly sorted `s` is not that last
      element, so it stays among `t`'s elements before the same last one. */
  lemma InitMembersIn<K>(s: seq<K>, t: seq<K>, s': seq<K>, t': seq<K>, less: (K, K) -> bool)
    requires forall y :: !less(y, y)
    requires StrictlySorted(s, less)
    requires forall x :: x in s ==> x in t
    requires s != [] && t != [] && s[|s| - 1] == t[|t| - 1]
    requires s' == s[..|s| - 1] && t' == t[..|t| - 1]
    ensures forall z :: z in s' ==> z in t'
  {
    var x := s[|s| - 1];
    assert t == t' + [x];
    forall z | z in s'
      ensures z in t'
    {
      var i :| 0 <= i < |s'| && s'[i] == z;
      assert less(s[i], x);
      assert z in t;
    }
  }

  /** When one side holds every key of the merge, its neighbour fields are the
      chain's own `prev`/`next` on every entry. */
  lemma SideFollowsChain<K(!new), V>(r: seq<Entry<K, V>>, w: Which, a: seq<K>, b: seq<K>,
                                     va: seq<Option<V>>, vb: seq<Option<V>>, less: (K, K) -> bool)
    requires StrictTotalOrder(less) && |va| == |a| && |vb| == |b|
    requires StrictlySorted(a, less) && StrictlySorted(b, less)
    requires MergeOf(r, a, b, va, vb, less)
    requires w == SideA ==> forall x :: x in b ==> x in a
    requires w == SideB ==> forall x :: x in a ==> x in b
    ensures forall k :: 0 <= k < |r| ==> r[k].Side(w).prev == r[k].prev && r[k].Side(w).next == r[k].next
  {
    if w == SideA {
      SortedUnique(Indices(r), a, less);
      SideFollowsChainOn(r, w, a, va, less);
    } else {
      SortedUnique(Indices(r), b, less);
      SideFollowsChainOn(r, w, b, vb, less);
    }
  }

  lemma SideFollowsChainOn<K(!new), V>(r: seq<Entry<K, V>>, w: Which, keys: seq<K>, vals: seq<Option<V>>,
                                       less: (K, K) -> bool)
    requires StrictTotalOrder(less) && |vals| == |keys| && StrictlySorted(keys, less)
    requires Indices(r) == keys && Chained(r) && SideLinked(r, w, keys, vals)
    ensures forall k :: 0 <= k < |r| ==> r[k].Side(w).prev == r[k].prev && r[k].Side(w).next == r[k].next
  {
    forall k | 0 <= k < |r|
      ensures r[k].Side(w).prev == r[k].prev && r[k].Side(w).next == r[k].next
    {
      PositionInSorted(keys, k, less);
      ChainedAt(r, k);
      assert r[k].index == keys[k];
      assert k > 0 ==> r[k - 1].index == keys[k - 1];
      assert k + 1 < |r| ==> r[k + 1].index == keys[k + 1];
      assert r[k].Side(w) == SideOf(keys, vals, r[k].index);
      SideFollowsChainAt(r[k], w, keys, vals, k);
    }
  }

  /** The entry at position `k` of the side's keys, linked to that side's
      neighbours, has side links equal to its own. */
  lemma SideFollowsChainAt<K, V>(e: Entry<K, V>, w: Which, keys: seq<K>, vals: seq<Option<V>>, k: nat)
    requires |vals| == |keys| && k < |keys|
    requires Position(keys, keys[k]) == k && e.index == keys[k]
    requires e.Side(w) == SideOf(keys, vals, e.index)
    requires e.prev == (if k == 0 then None else Some(keys[k - 1]))
    requires e.next == (if k + 1 < |keys| then Some(keys[k + 1]) else None)
    ensures e.Side(w).prev == e.prev && e.Side(w).next == e.next
  {
  }

  /** In a strictly sorted sequence an element's first position is its only one. */
  lemma PositionInSorted<K(!new)>(keys: seq<K>, k: nat, less: (K, K) -> bool)
    requires StrictTotalOrder(less) && StrictlySorted(keys, less) && k < |keys|
    ensures Position(keys, keys[k]) == k
  {
    SortedDistinct(keys, Position(keys, keys[k]), k, less);
  }

  /** In a strictly sorted sequence, a smaller element sits at an earlier position. */
  lemma SortedOrder<K(!new)>(s: seq<K>, i: nat, j: nat, less: (K, K) -> bool)
    requires StrictTotalOrder(less) && StrictlySorted(s, less)
    requires i < |s| && j < |s| && less(s[i], s[j])
    ensures i < j
  {
    if j < i {
      Transitive(less, s[i], s[j], s[i]);
    }
  }

  /** The side fields of an entry whose key is on that side follow the chain
      exactly where the chain's neighbour is on that side too: a side's `next`
      equals the chain's `next` iff the chain has no next entry or its key is
      one of the side's keys, and likewise for `prev`. */
  lemma SideNeighboursAgree<K(!new), V>(r: seq<Entry<K, V>>, w: Which, keys: seq<K>, vals: seq<Option<V>>,
                                        k: nat, less: (K, K) -> bool)
    requires StrictTotalOrder(less) && |vals| == |keys| && StrictlySorted(keys, less)
    requires StrictlySorted(Indices(r), less) && Chained(r)
    requires forall x :: x in keys ==> x in Indices(r)
    requires k < |r| && r[k].index in keys && r[k].Side(w) == SideOf(keys, vals, r[k].index)
    ensures r[k].Side(w).next == r[k].next <==> r[k].next.None? || r[k].next.value in keys
    ensures r[k].Side(w).prev == r[k].prev <==> r[k].prev.None? || r[k].prev.value in keys
  {
    ChainedAt(r, k);
    SideNextAgrees(Indices(r), keys, k, Position(keys, r[k].index), less);
    SidePrevAgrees(Indices(r), keys, k, Position(keys, r[k].index), less);
  }

  /** `SideNeighboursAgree` for `next`, on the chain's keys `s` and the side's `keys`. */
  lemma SideNextAgrees<K(!new)>(s: seq<K>, keys: seq<K>, k: nat, i: nat, less: (K, K) -> bool)
    requires StrictTotalOrder(less) && StrictlySorted(keys, less) && StrictlySorted(s, less)
    requires forall x :: x in keys ==> x in s
    requires k < |s| && i < |keys| && keys[i] == s[k]
    ensures var side := if i + 1 < |keys| then Some(keys[i + 1]) else None;
      var chain := if k + 1 < |s| then Some(s[k + 1]) else None;
      side == chain <==> chain.None? || chain.value in keys
  {
    if i + 1 < |keys| {
      var z := keys[i + 1];
      assert z in s;
      var m :| 0 <= m < |s| && s[m] == z;
      SortedOrder(s, k, m, less);
      var y := s[k + 1];
      if y in keys {
        var j :| 0 <= j < |keys| && keys[j] == y;
        SortedOrder(keys, i, j, less);
        if i + 1 < j {
          SortedOrder(s, m, k + 1, less);
        }
      }
    } else if k + 1 < |s| {
      var y := s[k + 1];
      if y in keys {
        var j :| 0 <= j < |keys| && keys[j] == y;
        SortedOrder(keys, i, j, less);
      }
    }
  }

  /** `SideNeighboursAgree` for `prev`. */
  lemma SidePrevAgrees<K(!new)>(s: seq<K>, keys: seq<K>, k: nat, i: nat, less: (K, K) -> bool)
    requires StrictTotalOrder(less) && StrictlySorted(keys, less) && StrictlySorted(s, less)
    requires forall x :: x in keys ==> x in s
    requires k < |s| && i < |keys| && keys[i] == s[k]
    ensures var side := if i == 0 then None else Some(keys[i - 1]);
      var chain := if k == 0 then None else Some(s[k - 1]);
      side == chain <==> chain.None? || chain.value in keys
  {
    if i > 0 {
      var z := keys[i - 1];
      assert z in s;
      var m :| 0 <= m < |s| && s[m] == z;
      SortedOrder(s, m, k, less);
      var y := s[k - 1];
      if y in keys {
        var j :| 0 <= j < |keys| && keys[j] == y;
        SortedOrder(keys, j, i, less);
        if j < i - 1 {
          SortedOrder(s, k - 1, m, less);
        }
      }
    } else if k > 0 {
      var y := s[k - 1];
      if y in keys {
        var j :| 0 <= j < |keys| && keys[j] == y;
        SortedOrder(keys, j, i, less);
      }
    }
  }

  lemma HasMember<K>(s: seq<K>)
    requires s != []
    ensures exists x :: x in s
  {
    assert s[0] in s;
  }

  /** `MergeOf` pins the merge down completely: there is one result for given inputs. */
  lemma MergeUnique<K(!new), V>(r: seq<Entry<K, V>>, r': seq<Entry<K, V>>, a: seq<K>, b: seq<K>,
                                va: seq<Option<V>>, vb: seq<Option<V>>, less: (K, K) -> bool)
    requires StrictTotalOrder(less) && |va| == |a| && |vb| == |b|
    requires MergeOf(r, a, b, va, vb, less) && MergeOf(r', a, b, va, vb, less)
    ensures r == r'
  {
    SortedUnique(Indices(r), Indices(r'), less);
    forall k | 0 <= k < |r|
      ensures r[k] == r'[k]
    {
      assert r[k].index == Indices(r)[k] == Indices(r')[k] == r'[k].index;
      ChainedAt(r, k);
      ChainedAt(r', k);
      if k > 0 {
        assert Indices(r)[k - 1] == Indices(r')[k - 1];
      }
      if k + 1 < |r| {
        assert Indices(r)[k + 1] == Indices(r')[k + 1];
      }
      assert r[k].Side(SideA) == r'[k].Side(SideA);
      assert r[k].Side(SideB) == r'[k].Side(SideB);
    }
  }

  /** The cursors `(a_i, b_i)` after one turn of the loop as written, whatever
      they are: equal heads advance both, an A head below the B head advances A,
      and anything else, a missing B head included, advances B. */
  function SourceTurn<K(==)>(a: seq<K>, b: seq<K>, ai: nat, bi: nat, less: (K, K) -> bool): (nat, nat) {
    var aIndex := if ai < |a| then Some(a[ai]) else None;
    var bIndex := if bi < |b| then Some(b[bi]) else None;
    if aIndex == bIndex then (ai + 1, bi + 1)
    else if SourceTakesA(aIndex, bIndex, less) then (ai + 1, bi)
    else (ai, bi + 1)
  }

  /** The cursors after `n` turns from `(0, 0)`. */
  function SourceCursors<K(==)>(a: seq<K>, b: seq<K>, n: nat, less: (K, K) -> bool): (nat, nat) {
    if n == 0 then (0, 0)
    else
      var c := SourceCursors(a, b, n - 1, less);
      SourceTurn(a, b, c.0, c.1, less)
  }

  /** When A's last key sorts after every key of B, a turn never consumes A's
      last key. */
  lemma TurnKeepsAPending<K(!new)>(a: seq<K>, b: seq<K>, ai: nat, bi: nat, less: (K, K) -> bool)
    requires StrictTotalOrder(less) && StrictlySorted(a, less) && StrictlySorted(b, less)
    requires !Terminates(a, b, less)
    requires ai < |a|
    ensures SourceTurn(a, b, ai, bi, less).0 < |a|
  {
    if bi < |b| && (a[ai] == b[bi] || less(a[ai], b[bi])) {
      var x, bl, al := a[ai], b[|b| - 1], a[|a| - 1];
      // the A head is at most the B head, which is at most B's last key, below A's last key
      if bi < |b| - 1 {
        if x == b[bi] {
          Transitive(less, x, bl, al);
        } else {
          Transitive(less, x, b[bi], bl);
          Transitive(less, x, bl, al);
        }
      } else if x != bl {
        Transitive(less, x, bl, al);
      }
      assert less(x, al);
    }
  }

  /** Without `Terminates` the loop condition `a_i < indexes_a.length || ...` holds
      after every number of turns: once B runs out the loop keeps taking the
      `else` branch and pushing entries whose index is `null`. */
  lemma {:induction false} SourceDiverges<K(!new)>(a: seq<K>, b: seq<K>, n: nat, less: (K, K) -> bool)
    requires StrictTotalOrder(less) && StrictlySorted(a, less) && StrictlySorted(b, less)
    requires !Terminates(a, b, less)
    ensures SourceCursors(a, b, n, less).0 < |a|
  {
    if n > 0 {
      SourceDiverges(a, b, n - 1, less);
      var c := SourceCursors(a, b, n - 1, less);
      TurnKeepsAPending(a, b, c.0, c.1, less);
    }
  }
}
