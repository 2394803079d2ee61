/** Headline records and the diff between two scrapes
    (`hefoki-backend/src/logic/headlines.js`): grouping by date, the greedy
    first-fit matchers, the matcher pipeline, per-day diffs and the folds that
    turn diffs back into headline days. */
module HeadlineDiff {
  import opened Js

  /** A headline as the scraper emits it. */
  datatype Headline = Headline(date: Option<string>, text: Option<string>, tags: seq<string>, externalLinks: Option<seq<string>>)

  /** The property key a headline's date becomes. JS object keys are strings,
      so a null date files under "null". */
  function DateKey(h: Headline): string {
    match h.date
    case Some(d) => d
    case None => "null"
  }

  /** `d[k] ?? []`. */
  function ListOn<T>(d: Dict<seq<T>>, k: string): seq<T> {
    match Get(d, k)
    case Some(v) => v
    case None => []
  }

  /** `Object.values(d)` concatenated in key order. */
  function Flatten<T(!new)>(d: Dict<seq<T>>): (r: seq<T>)
    ensures forall x :: x in r <==> exists i :: 0 <= i < |d| && x in d[i].1
  {
    if d == [] then []
    else
      var rest := Flatten(d[1..]);
      assert forall i :: 0 < i < |d| ==> d[i] == d[1..][i - 1];
      d[0].1 + rest
  }

  // ---------------------------------------------------------------------------
  // Grouping by date

  /** `(days[key] = days[key] || []).push(h)`: `h` joins the list of its date,
      or opens a new list after all existing ones. */
  function Push(days: Dict<seq<Headline>>, h: Headline): Dict<seq<Headline>> {
    if days == [] then [(DateKey(h), [h])]
    else if days[0].0 == DateKey(h) then [(days[0].0, days[0].1 + [h])] + days[1..]
    else [days[0]] + Push(days[1..], h)
  }

  /** The headline days built from `hs`, one push at a time. */
  function Grouped(hs: seq<Headline>): Dict<seq<Headline>>
    decreases |hs|
  {
    if hs == [] then [] else Push(Grouped(hs[..|hs| - 1]), hs[|hs| - 1])
  }

  /** The headlines of `hs` filed under key `k`, in input order. */
  function OnDate(hs: seq<Headline>, k: string): seq<Headline>
    decreases |hs|
  {
    if hs == [] then []
    else OnDate(hs[..|hs| - 1], k) + (if DateKey(hs[|hs| - 1]) == k then [hs[|hs| - 1]] else [])
  }

  lemma {:induction false} PushGet(days: Dict<seq<Headline>>, h: Headline, k: string)
    ensures Get(Push(days, h), k) == if k == DateKey(h) then Some(ListOn(days, k) + [h]) else Get(days, k)
  {
    var p := Push(days, h);
    if days == [] {
      assert p == [(DateKey(h), [h])] && ListOn(days, k) == [];
      assert p[1..] == [];
      assert Get(p, k) == if k == DateKey(h) then Some([h]) else None;
      assert Get(days, k) == None;
      if k == DateKey(h) {
        assert ListOn(days, k) + [h] == [h];
        assert Get(p, k) == Some(ListOn(days, k) + [h]);
      } else {
        assert Get(p, k) == Get(days, k);
      }
    } else if days[0].0 == DateKey(h) {
      assert p[1..] == days[1..];
    } else {
      assert p[1..] == Push(days[1..], h);
      if days[0].0 != k {
        PushGet(days[1..], h, k);
      }
    }
  }

  lemma {:induction false} PushDistinct(days: Dict<seq<Headline>>, h: Headline)
    requires DistinctKeys(days)
    ensures DistinctKeys(Push(days, h))
  {
    if days != [] && days[0].0 != DateKey(h) {
      PushGet(days[1..], h, days[0].0);
      PushDistinct(days[1..], h);
    }
  }

  lemma {:induction false} PushFlatten(days: Dict<seq<Headline>>, h: Headline)
    ensures multiset(Flatten(Push(days, h))) == multiset(Flatten(days)) + multiset{h}
  {
    if days != [] && days[0].0 != DateKey(h) {
      PushFlatten(days[1..], h);
    }
  }

  /** Every headline is in the list for its date, in input order, and a date
      has a list exactly when some headline carries it. */
  lemma {:induction false} GroupedLookup(hs: seq<Headline>, k: string)
    ensures Get(Grouped(hs), k) == if OnDate(hs, k) == [] then None else Some(OnDate(hs, k))
    decreases |hs|
  {
    if hs != [] {
      var init, h := hs[..|hs| - 1], hs[|hs| - 1];
      GroupedLookup(init, k);
      PushGet(Grouped(init), h, k);
      assert ListOn(Grouped(init), k) == OnDate(init, k);
      assert OnDate(hs, k) == OnDate(init, k) + (if DateKey(h) == k then [h] else []);
      assert Grouped(hs) == Push(Grouped(init), h);
      if k == DateKey(h) {
        assert Get(Grouped(hs), k) == Some(OnDate(hs, k));
      } else {
        assert OnDate(hs, k) == OnDate(init, k);
      }
    }
  }

  lemma {:induction false} GroupedDistinct(hs: seq<Headline>)
    ensures DistinctKeys(Grouped(hs))
    decreases |hs|
  {
    if hs != [] {
      GroupedDistinct(hs[..|hs| - 1]);
      PushDistinct(Grouped(hs[..|hs| - 1]), hs[|hs| - 1]);
    }
  }

  /** Flattening the grouped days gives back the input, reordered. */
  lemma {:induction false} GroupedPermutation(hs: seq<Headline>)
    ensures multiset(Flatten(Grouped(hs))) == multiset(hs)
    decreases |hs|
  {
    if hs != [] {
      var init, h := hs[..|hs| - 1], hs[|hs| - 1];
      GroupedPermutation(init);
      PushFlatten(Grouped(init), h);
      assert hs == init + [h];
    }
  }

  /** `headlineArrayToHeadlineDays`. */
  method HeadlineArrayToHeadlineDays(hs: seq<Headline>) returns (days: Dict<seq<Headline>>)
    ensures days == Grouped(hs)
    ensures DistinctKeys(days) && multiset(Flatten(days)) == multiset(hs)
  {
    days := [];
    for i := 0 to |hs|
      invariant days == Grouped(hs[..i])
    {
      assert hs[..i + 1][..i] == hs[..i];
      days := Push(days, hs[i]);
    }
    assert hs[..|hs|] == hs;
    GroupedDistinct(hs);
    GroupedPermutation(hs);
  }

  // ---------------------------------------------------------------------------
  // Sequence relations used by the matcher contracts

  function Firsts<H(==)>(ps: seq<(H, H)>): seq<H> {
    if ps == [] then [] else [ps[0].0] + Firsts(ps[1..])
  }

  function Seconds<H(==)>(ps: seq<(H, H)>): seq<H> {
    if ps == [] then [] else [ps[0].1] + Seconds(ps[1..])
  }

  /** `z` is `x` and `y` interleaved, each keeping its order. */
  predicate Interleaves<H(==)>(x: seq<H>, y: seq<H>, z: seq<H>)
    decreases |z|
  {
    if z == [] then x == [] && y == []
    else
      || (x != [] && x[0] == z[0] && Interleaves(x[1..], y, z[1..]))
      || (y != [] && y[0] == z[0] && Interleaves(x, y[1..], z[1..]))
  }

  /** `x` is `y` with some elements dropped. */
  predicate IsSubsequence<H(==)>(x: seq<H>, y: seq<H>)
    decreases |y|
  {
    x == [] || (y != [] && ((x[0] == y[0] && IsSubsequence(x[1..], y[1..])) || IsSubsequence(x, y[1..])))
  }

  lemma {:induction false} InterleavesMultiset<H>(x: seq<H>, y: seq<H>, z: seq<H>)
    requires Interleaves(x, y, z)
    ensures multiset(x) + multiset(y) == multiset(z)
    ensures |x| + |y| == |z|
    decreases |z|
  {
    if z != [] {
      if x != [] && x[0] == z[0] && Interleaves(x[1..], y, z[1..]) {
        InterleavesMultiset(x[1..], y, z[1..]);
        assert x == [x[0]] + x[1..] && z == [z[0]] + z[1..];
      } else {
        InterleavesMultiset(x, y[1..], z[1..]);
        assert y == [y[0]] + y[1..] && z == [z[0]] + z[1..];
      }
    }
  }

  lemma {:induction false} SubsequenceRefl<H>(x: seq<H>)
    ensures IsSubsequence(x, x)
    decreases |x|
  {
    if x != [] {
      SubsequenceRefl(x[1..]);
    }
  }

  lemma {:induction false} SubsequenceTrans<H>(x: seq<H>, y: seq<H>, z: seq<H>)
    requires IsSubsequence(x, y) && IsSubsequence(y, z)
    ensures IsSubsequence(x, z)
    decreases |z|
  {
    if x != [] {
      if y[0] == z[0] && IsSubsequence(y[1..], z[1..]) {
        if x[0] == y[0] && IsSubsequence(x[1..], y[1..]) {
          SubsequenceTrans(x[1..], y[1..], z[1..]);
        } else {
          SubsequenceTrans(x, y[1..], z[1..]);
        }
      } else {
        SubsequenceTrans(x, y, z[1..]);
      }
    }
  }

  /** `delete s[i]` followed by `Object.values`: the array without its `i`th element. */
  function Remove<H(==)>(s: seq<H>, i: nat): (r: seq<H>)
    requires i < |s|
    ensures |r| == |s| - 1
  {
    s[..i] + s[i + 1..]
  }

  lemma RemoveMultiset<H>(s: seq<H>, i: nat)
    requires i < |s|
    ensures multiset(Remove(s, i)) + multiset{s[i]} == multiset(s)
  {
    assert s == s[..i] + [s[i]] + s[i + 1..];
  }

  lemma {:induction false} RemoveSubsequence<H>(s: seq<H>, i: nat)
    requires i < |s|
    ensures IsSubsequence(Remove(s, i), s)
    decreases i
  {
    var r := Remove(s, i);
    if i == 0 {
      assert r == s[1..];
      SubsequenceRefl(s[1..]);
    } else {
      RemoveSubsequence(s[1..], i - 1);
      assert r[0] == s[0] && r[1..] == Remove(s[1..], i - 1);
    }
  }

  // ---------------------------------------------------------------------------
  // First-fit matching

  /** What a matcher returns: the matched `[a, b]` pairs and what is left on each side. */
  datatype Match<H> = Match(matched: seq<(H, H)>, unmatchedA: seq<H>, unmatchedB: seq<H>)

  /** The first remaining `a` that `b` matches: the inner loop over `headlines_a`. */
  function FirstFitIndex<H(==)>(xs: seq<H>, b: H, p: (H, H) -> bool): (r: Option<nat>)
    ensures r.Some? ==> r.value < |xs| && p(xs[r.value], b)
    ensures r.Some? ==> forall j :: 0 <= j < r.value ==> !p(xs[j], b)
    ensures r.None? ==> forall j :: 0 <= j < |xs| ==> !p(xs[j], b)
    decreases |xs|
  {
    if xs == [] then None
    else if p(xs[0], b) then Some(0)
    else match FirstFitIndex(xs[1..], b, p)
      case Some(i) => Some(i + 1)
      case None => None
  }

  /** Each `b` in turn takes the first remaining `a` it matches, which is then
      deleted; a `b` that matches none is unmatched. */
  function FirstFit<H(==)>(xs: seq<H>, ys: seq<H>, p: (H, H) -> bool): Match<H>
    decreases |ys|
  {
    if ys == [] then Match([], xs, [])
    else match FirstFitIndex(xs, ys[0], p)
      case Some(i) =>
        var r := FirstFit(Remove(xs, i), ys[1..], p);
        Match([(xs[i], ys[0])] + r.matched, r.unmatchedA, r.unmatchedB)
      case None =>
        var r := FirstFit(xs, ys[1..], p);
        Match(r.matched, r.unmatchedA, [ys[0]] + r.unmatchedB)
  }

  /** Every `b` lands in exactly one of `matched` (as the second of its pair) and
      `unmatched_b`, each in B's order. */
  lemma {:induction false} FirstFitPartitionsB<H>(xs: seq<H>, ys: seq<H>, p: (H, H) -> bool)
    ensures Interleaves(Seconds(FirstFit(xs, ys, p).matched), FirstFit(xs, ys, p).unmatchedB, ys)
    decreases |ys|
  {
    if ys != [] {
      match FirstFitIndex(xs, ys[0], p)
      case Some(i) => FirstFitPartitionsB(Remove(xs, i), ys[1..], p);
      case None => FirstFitPartitionsB(xs, ys[1..], p);
    }
  }

  /** Every `a` is matched at most once: the matched `a`s and `unmatched_a`
      together are A, and `unmatched_a` keeps A's order. */
  lemma {:induction false} FirstFitPartitionsA<H>(xs: seq<H>, ys: seq<H>, p: (H, H) -> bool)
    ensures multiset(Firsts(FirstFit(xs, ys, p).matched)) + multiset(FirstFit(xs, ys, p).unmatchedA) == multiset(xs)
    ensures IsSubsequence(FirstFit(xs, ys, p).unmatchedA, xs)
    decreases |ys|
  {
    if ys == [] {
      SubsequenceRefl(xs);
    } else {
      match FirstFitIndex(xs, ys[0], p)
      case Some(i) =>
        FirstFitPartitionsA(Remove(xs, i), ys[1..], p);
        RemoveMultiset(xs, i);
        RemoveSubsequence(xs, i);
        SubsequenceTrans(FirstFit(xs, ys, p).unmatchedA, Remove(xs, i), xs);
      case None =>
        FirstFitPartitionsA(xs, ys[1..], p);
    }
  }

  /** Every matched pair satisfies the matcher's predicate. */
  lemma {:induction false} FirstFitSound<H>(xs: seq<H>, ys: seq<H>, p: (H, H) -> bool)
    ensures forall k :: 0 <= k < |FirstFit(xs, ys, p).matched| ==>
      p(FirstFit(xs, ys, p).matched[k].0, FirstFit(xs, ys, p).matched[k].1)
    decreases |ys|
  {
    if ys != [] {
      match FirstFitIndex(xs, ys[0], p)
      case Some(i) => FirstFitSound(Remove(xs, i), ys[1..], p);
      case None => FirstFitSound(xs, ys[1..], p);
    }
  }

  /** Greedy matching leaves no pair behind: no leftover `a` matches any leftover `b`. */
  lemma {:induction false} FirstFitMaximal<H>(xs: seq<H>, ys: seq<H>, p: (H, H) -> bool)
    ensures forall x, y :: x in FirstFit(xs, ys, p).unmatchedA && y in FirstFit(xs, ys, p).unmatchedB ==> !p(x, y)
    decreases |ys|
  {
    if ys != [] {
      match FirstFitIndex(xs, ys[0], p)
      case Some(i) =>
        FirstFitMaximal(Remove(xs, i), ys[1..], p);
      case None =>
        var r := FirstFit(xs, ys[1..], p);
        FirstFitMaximal(xs, ys[1..], p);
        FirstFitPartitionsA(xs, ys[1..], p);
        forall x | x in r.unmatchedA
          ensures !p(x, ys[0])
        {
          assert multiset(xs)[x] > 0;
        }
    }
  }

  /** The inner loop of a matcher: the position of the first remaining `a`
      that `b` matches, or `|xs|` when there is none. */
  method FindFirst<H(==)>(xs: seq<H>, b: H, p: (H, H) -> bool) returns (j: nat)
    ensures j <= |xs|
    ensures FirstFitIndex(xs, b, p) == if j < |xs| then Some(j) else None
  {
    j := 0;
    while j < |xs| && !p(xs[j], b)
      invariant j <= |xs|
      invariant forall k :: 0 <= k < j ==> !p(xs[k], b)
    {
      j := j + 1;
    }
  }

  /** One turn of the outer loop on the specification. */
  lemma FirstFitUnfold<H>(xs: seq<H>, ys: seq<H>, i: nat, p: (H, H) -> bool)
    requires i < |ys|
    ensures FirstFit(xs, ys[i..], p) ==
      match FirstFitIndex(xs, ys[i], p)
      case Some(j) =>
        var r := FirstFit(Remove(xs, j), ys[i + 1..], p);
        Match([(xs[j], ys[i])] + r.matched, r.unmatchedA, r.unmatchedB)
      case None =>
        var r := FirstFit(xs, ys[i + 1..], p);
        Match(r.matched, r.unmatchedA, [ys[i]] + r.unmatchedB)
  {
    assert ys[i..][0] == ys[i] && ys[i..][1..] == ys[i + 1..];
  }

  /** Matching depends on the predicate's values alone. */
  lemma {:induction false} FirstFitSamePredicate<H>(xs: seq<H>, ys: seq<H>, p: (H, H) -> bool, q: (H, H) -> bool)
    requires forall a, b :: p(a, b) == q(a, b)
    ensures FirstFit(xs, ys, p) == FirstFit(xs, ys, q)
    decreases |ys|
  {
    if ys != [] {
      FirstFitIndexSamePredicate(xs, ys[0], p, q);
      match FirstFitIndex(xs, ys[0], p)
      case Some(i) => FirstFitSamePredicate(Remove(xs, i), ys[1..], p, q);
      case None => FirstFitSamePredicate(xs, ys[1..], p, q);
    }
  }

  lemma {:induction false} FirstFitIndexSamePredicate<H>(xs: seq<H>, b: H, p: (H, H) -> bool, q: (H, H) -> bool)
    requires forall a, b :: p(a, b) == q(a, b)
    ensures FirstFitIndex(xs, b, p) == FirstFitIndex(xs, b, q)
    decreases |xs|
  {
    if xs != [] {
      FirstFitIndexSamePredicate(xs[1..], b, p, q);
    }
  }

  /** The nested loops of a matcher: `headlines_a` is copied, a matched `a` is
      deleted from the copy, and each `b` is pushed to one of the two result lists. */
  method MatchFirstFit<H(==)>(xs: seq<H>, ys: seq<H>, p: (H, H) -> bool) returns (m: Match<H>)
    ensures m == FirstFit(xs, ys, p)
  {
    var whole := FirstFit(xs, ys, p);
    var matched: seq<(H, H)> := [];
    var unmatchedB: seq<H> := [];
    var remaining := xs;
    for i := 0 to |ys|
      invariant var r := FirstFit(remaining, ys[i..], p);
        && matched + r.matched == whole.matched
        && r.unmatchedA == whole.unmatchedA
        && unmatchedB + r.unmatchedB == whole.unmatchedB
    {
      FirstFitUnfold(remaining, ys, i, p);
      var j := FindFirst(remaining, ys[i], p);
      if j < |remaining| {
        matched := matched + [(remaining[j], ys[i])];
        remaining := Remove(remaining, j);
      } else {
        unmatchedB := unmatchedB + [ys[i]];
      }
    }
    m := Match(matched, remaining, unmatchedB);
  }

  /** `deepEqual(a, b)`. */
  predicate ExactMatch(a: Headline, b: Headline) {
    a == b
  }

  /** `a.text == b.text`. */
  predicate TextMatch(a: Headline, b: Headline) {
    a.text == b.text
  }

  function LinksOf(h: Headline): seq<string> {
    match h.externalLinks
    case Some(links) => links
    case None => []
  }

  /** The first list is no longer than the second, and one of its links is in the second. */
  predicate LinkListsMatch(la: seq<string>, lb: seq<string>) {
    |la| <= |lb| && exists k :: 0 <= k < |la| && la[k] in lb
  }

  /** The rule looks at the two link lists as multisets: reordering either
      list does not change whether they match. */
  lemma LinkListsMatchReorder(la: seq<string>, lb: seq<string>, la': seq<string>, lb': seq<string>)
    requires multiset(la) == multiset(la') && multiset(lb) == multiset(lb')
    ensures LinkListsMatch(la, lb) == LinkListsMatch(la', lb')
  {
    assert |la| == |multiset(la)| == |la'| && |lb| == |multiset(lb)| == |lb'|;
    if LinkListsMatch(la, lb) {
      var k :| 0 <= k < |la| && la[k] in lb;
      assert la[k] in multiset(la') && la[k] in multiset(lb');
      var k' :| 0 <= k' < |la'| && la'[k'] == la[k];
    }
    if LinkListsMatch(la', lb') {
      var k :| 0 <= k < |la'| && la'[k] in lb';
      assert la'[k] in multiset(la) && la'[k] in multiset(lb);
      var k' :| 0 <= k' < |la| && la[k'] == la'[k];
    }
  }

  /** `headline_a.external_links ?? []` against `headline_b.external_links ?? []`. */
  predicate ExternalLinksMatch(a: Headline, b: Headline) {
    LinkListsMatch(LinksOf(a), LinksOf(b))
  }

  /** `headlinesMatchExact`. */
  method HeadlinesMatchExact(xs: seq<Headline>, ys: seq<Headline>) returns (m: Match<Headline>)
    ensures m == FirstFit(xs, ys, ExactMatch)
  {
    m := MatchFirstFit(xs, ys, ExactMatch);
  }

  /** `headlinesMatchTextExact`. */
  method HeadlinesMatchTextExact(xs: seq<Headline>, ys: seq<Headline>) returns (m: Match<Headline>)
    ensures m == FirstFit(xs, ys, TextMatch)
  {
    m := MatchFirstFit(xs, ys, TextMatch);
  }

  /** `headlinesMatchExternalLinks`. */
  method HeadlinesMatchExternalLinks(xs: seq<Headline>, ys: seq<Headline>) returns (m: Match<Headline>)
    ensures m == FirstFit(xs, ys, ExternalLinksMatch)
  {
    m := MatchFirstFit(xs, ys, ExternalLinksMatch);
  }

  /** A headline without external links is never matched by links, on either side. */
  lemma NoLinksNoLinkMatch(xs: seq<Headline>, ys: seq<Headline>)
    requires forall h :: h in xs ==> LinksOf(h) == []
    ensures FirstFit(xs, ys, ExternalLinksMatch).matched == []
    ensures FirstFit(xs, ys, ExternalLinksMatch).unmatchedB == ys
  {
    FirstFitUnmatchable(xs, ys, ExternalLinksMatch);
  }

  /** When no `a` matches any `b`, nothing is matched. */
  lemma {:induction false} FirstFitUnmatchable<H>(xs: seq<H>, ys: seq<H>, p: (H, H) -> bool)
    requires forall x, y :: x in xs && y in ys ==> !p(x, y)
    ensures FirstFit(xs, ys, p) == Match([], xs, ys)
    decreases |ys|
  {
    if ys != [] {
      assert ys[0] in ys;
      forall i | 0 <= i < |xs|
        ensures !p(xs[i], ys[0])
      {
        assert xs[i] in xs;
      }
      FirstFitUnmatchable(xs, ys[1..], p);
      assert ys == [ys[0]] + ys[1..];
    }
  }

  /** The matched pairs and the two leftover lists together are the two inputs. */
  ghost predicate Conserves<H>(xs: seq<H>, ys: seq<H>, m: Match<H>) {
    && multiset(Firsts(m.matched)) + multiset(m.unmatchedA) == multiset(xs)
    && multiset(Seconds(m.matched)) + multiset(m.unmatchedB) == multiset(ys)
  }

  /** Leftovers come from the inputs, and no leftover `a` matches a leftover `b`. */
  lemma FirstFitLeftovers<H>(xs: seq<H>, ys: seq<H>, p: (H, H) -> bool)
    ensures Conserves(xs, ys, FirstFit(xs, ys, p))
    ensures forall x :: x in FirstFit(xs, ys, p).unmatchedA ==> x in xs
    ensures forall y :: y in FirstFit(xs, ys, p).unmatchedB ==> y in ys
    ensures forall x, y :: x in FirstFit(xs, ys, p).unmatchedA && y in FirstFit(xs, ys, p).unmatchedB ==> !p(x, y)
  {
    var m := FirstFit(xs, ys, p);
    FirstFitPartitionsA(xs, ys, p);
    FirstFitPartitionsB(xs, ys, p);
    InterleavesMultiset(Seconds(m.matched), m.unmatchedB, ys);
    FirstFitMaximal(xs, ys, p);
    forall x | x in m.unmatchedA
      ensures x in xs
    {
      assert multiset(xs)[x] > 0;
    }
    forall y | y in m.unmatchedB
      ensures y in ys
    {
      assert multiset(ys)[y] > 0;
    }
  }

  lemma FirstFitLeftoverPair<H>(xs: seq<H>, ys: seq<H>, p: (H, H) -> bool, x: H, y: H)
    requires x in FirstFit(xs, ys, p).unmatchedA && y in FirstFit(xs, ys, p).unmatchedB
    ensures x in xs && y in ys && !p(x, y)
  {
    FirstFitLeftovers(xs, ys, p);
  }

  // ---------------------------------------------------------------------------
  // The matcher pipeline

  /** A matcher: a function from the two remaining lists to a `Match`. */
  type Matcher<!H> = (seq<H>, seq<H>) -> Match<H>

  datatype Reduced<H> = Reduced(matched: seq<(H, H)>, matchersMatched: seq<seq<(H, H)>>, unmatchedA: seq<H>, unmatchedB: seq<H>)

  function Concat<T>(ss: seq<seq<T>>): seq<T> {
    if ss == [] then [] else ss[0] + Concat(ss[1..])
  }

  /** `reduceHeadlineMatchers`: the unmatched lists are threaded through the
      matchers in order, and `matched` collects what each matcher matched. */
  function Reduce<H>(ms: seq<Matcher<H>>, xs: seq<H>, ys: seq<H>): (r: Reduced<H>)
    ensures |r.matchersMatched| == |ms|
    ensures r.matched == Concat(r.matchersMatched)
    decreases |ms|
  {
    if ms == [] then Reduced([], [], xs, ys)
    else if xs == [] || ys == [] then
      var r := Reduce(ms[1..], xs, ys);
      Reduced(r.matched, [[]] + r.matchersMatched, r.unmatchedA, r.unmatchedB)
    else
      var m := ms[0](xs, ys);
      var r := Reduce(ms[1..], m.unmatchedA, m.unmatchedB);
      Reduced(m.matched + r.matched, [m.matched] + r.matchersMatched, r.unmatchedA, r.unmatchedB)
  }

  /** Once either side is empty no further matcher runs: each records `[]`
      and the lists pass through unchanged. */
  lemma {:induction false} ReduceShortCircuit<H>(ms: seq<Matcher<H>>, xs: seq<H>, ys: seq<H>)
    requires xs == [] || ys == []
    ensures Reduce(ms, xs, ys).matched == []
    ensures forall i :: 0 <= i < |ms| ==> Reduce(ms, xs, ys).matchersMatched[i] == []
    ensures Reduce(ms, xs, ys).unmatchedA == xs && Reduce(ms, xs, ys).unmatchedB == ys
    decreases |ms|
  {
    if ms != [] {
      ReduceShortCircuit(ms[1..], xs, ys);
    }
  }

  /** If every matcher keeps its inputs, so does the pipeline. */
  lemma {:induction false} ReduceConserves<H>(ms: seq<Matcher<H>>, xs: seq<H>, ys: seq<H>)
    requires forall i, a, b :: 0 <= i < |ms| ==> Conserves(a, b, ms[i](a, b))
    ensures var r := Reduce(ms, xs, ys); Conserves(xs, ys, Match(r.matched, r.unmatchedA, r.unmatchedB))
    decreases |ms|
  {
    if ms != [] {
      if xs == [] || ys == [] {
        ReduceConserves(ms[1..], xs, ys);
      } else {
        var m := ms[0](xs, ys);
        var r := Reduce(ms[1..], m.unmatchedA, m.unmatchedB);
        assert Conserves(xs, ys, m);
        ReduceConserves(ms[1..], m.unmatchedA, m.unmatchedB);
        FirstsAppend(m.matched, r.matched);
        SecondsAppend(m.matched, r.matched);
      }
    }
  }

  lemma {:induction false} FirstsAppend<H>(p: seq<(H, H)>, q: seq<(H, H)>)
    ensures Firsts(p + q) == Firsts(p) + Firsts(q)
    decreases |p|
  {
    if p != [] {
      assert (p + q)[1..] == p[1..] + q;
      FirstsAppend(p[1..], q);
    } else {
      assert p + q == q;
    }
  }

  lemma {:induction false} SecondsAppend<H>(p: seq<(H, H)>, q: seq<(H, H)>)
    ensures Seconds(p + q) == Seconds(p) + Seconds(q)
    decreases |p|
  {
    if p != [] {
      assert (p + q)[1..] == p[1..] + q;
      SecondsAppend(p[1..], q);
    } else {
      assert p + q == q;
    }
  }

  /** What the pipeline returns when `matched` and `matchersMatched` were
      collected before the matchers that produced `rest` ran. */
  function Glue<H>(matched: seq<(H, H)>, matchersMatched: seq<seq<(H, H)>>, rest: Reduced<H>): Reduced<H> {
    Reduced(matched + rest.matched, matchersMatched + rest.matchersMatched, rest.unmatchedA, rest.unmatchedB)
  }

  /** A skipped matcher records `[]`. */
  lemma ReduceSkipStep<H>(matched: seq<(H, H)>, mm: seq<seq<(H, H)>>, ms: seq<Matcher<H>>, i: nat, xs: seq<H>, ys: seq<H>)
    requires i < |ms| && (xs == [] || ys == [])
    ensures Glue(matched, mm, Reduce(ms[i..], xs, ys)) == Glue(matched, mm + [[]], Reduce(ms[i + 1..], xs, ys))
  {
    assert ms[i..][0] == ms[i] && ms[i..][1..] == ms[i + 1..];
    var next := Reduce(ms[i + 1..], xs, ys);
    assert mm + ([[]] + next.matchersMatched) == (mm + [[]]) + next.matchersMatched;
  }

  /** A matcher that runs adds its pairs and passes on its leftovers. */
  lemma ReduceRunStep<H>(matched: seq<(H, H)>, mm: seq<seq<(H, H)>>, ms: seq<Matcher<H>>, i: nat, xs: seq<H>, ys: seq<H>)
    requires i < |ms| && xs != [] && ys != []
    ensures var m := ms[i](xs, ys);
      Glue(matched, mm, Reduce(ms[i..], xs, ys)) == Glue(matched + m.matched, mm + [m.matched], Reduce(ms[i + 1..], m.unmatchedA, m.unmatchedB))
  {
    assert ms[i..][0] == ms[i] && ms[i..][1..] == ms[i + 1..];
    var m := ms[i](xs, ys);
    var next := Reduce(ms[i + 1..], m.unmatchedA, m.unmatchedB);
    assert mm + ([m.matched] + next.matchersMatched) == (mm + [m.matched]) + next.matchersMatched;
    assert matched + (m.matched + next.matched) == (matched + m.matched) + next.matched;
  }

  /** The loop of `reduceHeadlineMatchers`. */
  method ReduceHeadlineMatchers<H>(ms: seq<Matcher<H>>, xs: seq<H>, ys: seq<H>) returns (r: Reduced<H>)
    ensures r == Reduce(ms, xs, ys)
  {
    var matched: seq<(H, H)> := [];
    var matchersMatched: seq<seq<(H, H)>> := [];
    var unmatchedA, unmatchedB := xs, ys;
    assert Glue([], [], Reduce(ms, xs, ys)) == Reduce(ms, xs, ys);
    for i := 0 to |ms|
      invariant Glue(matched, matchersMatched, Reduce(ms[i..], unmatchedA, unmatchedB)) == Reduce(ms, xs, ys)
    {
      if |unmatchedA| == 0 || |unmatchedB| == 0 {
        ReduceSkipStep(matched, matchersMatched, ms, i, unmatchedA, unmatchedB);
        matchersMatched := matchersMatched + [[]];
      } else {
        ReduceRunStep(matched, matchersMatched, ms, i, unmatchedA, unmatchedB);
        var m := ms[i](unmatchedA, unmatchedB);
        matchersMatched := matchersMatched + [m.matched];
        matched := matched + m.matched;
        unmatchedA, unmatchedB := m.unmatchedA, m.unmatchedB;
      }
    }
    assert matched + [] == matched && matchersMatched + [] == matchersMatched;
    r := Reduced(matched, matchersMatched, unmatchedA, unmatchedB);
  }

  // ---------------------------------------------------------------------------
  // Diffs

  /** What changed between an old and a new list of headlines. */
  datatype Diff = Diff(unmodified: seq<(Headline, Headline)>, deleted: seq<Headline>, added: seq<Headline>, updated: seq<(Headline, Headline)>)

  /** The matchers `diffHeadlines` runs, in order: exact, text, external links. */
  function Matchers(): seq<Matcher<Headline>> {
    [ (a, b) => FirstFit(a, b, ExactMatch),
      (a, b) => FirstFit(a, b, TextMatch),
      (a, b) => FirstFit(a, b, ExternalLinksMatch) ]
  }

  /** `diffHeadlines`: unmodified are the exact matches, updated the text
      matches followed by the link matches. */
  function Diffed(xs: seq<Headline>, ys: seq<Headline>): Diff {
    var r := Reduce(Matchers(), xs, ys);
    Diff(r.matchersMatched[0], r.unmatchedA, r.unmatchedB, r.matchersMatched[1] + r.matchersMatched[2])
  }

  method DiffHeadlines(xs: seq<Headline>, ys: seq<Headline>) returns (d: Diff)
    ensures d == Diffed(xs, ys)
  {
    var r := ReduceHeadlineMatchers(Matchers(), xs, ys);
    var updated := ConcatFrom(r.matchersMatched, 1);
    ConcatOfTwo(r.matchersMatched[1..]);
    d := Diff(r.matchersMatched[0], r.unmatchedA, r.unmatchedB, updated);
  }

  /** The `updated = updated.concat(...)` loop over the matchers after the first. */
  method ConcatFrom<T>(ss: seq<seq<T>>, from: nat) returns (c: seq<T>)
    requires from <= |ss|
    ensures c == Concat(ss[from..])
  {
    c := [];
    for k := from to |ss|
      invariant c == Concat(ss[from..k])
    {
      assert ss[from..k + 1] == ss[from..k] + [ss[k]];
      ConcatSnoc(ss[from..k], ss[k]);
      c := c + ss[k];
    }
    assert ss[from..|ss|] == ss[from..];
  }

  lemma ConcatOfTwo<T>(ss: seq<seq<T>>)
    requires |ss| == 2
    ensures Concat(ss) == ss[0] + ss[1]
  {
    assert ss[1..][1..] == [];
    assert Concat(ss[1..]) == ss[1] + Concat(ss[1..][1..]);
    assert ss[1] + [] == ss[1];
  }

  lemma {:induction false} ConcatSnoc<T>(ss: seq<seq<T>>, s: seq<T>)
    ensures Concat(ss + [s]) == Concat(ss) + s
    decreases |ss|
  {
    if ss == [] {
      assert ss + [s] == [s];
    } else {
      assert (ss + [s])[1..] == ss[1..] + [s];
      ConcatSnoc(ss[1..], s);
    }
  }

  /** Every new headline is unmodified, updated or added, exactly once; every
      old headline is unmodified, updated or deleted, exactly once. */
  lemma DiffPartitions(xs: seq<Headline>, ys: seq<Headline>)
    ensures var d := Diffed(xs, ys);
      && multiset(Seconds(d.unmodified)) + multiset(Seconds(d.updated)) + multiset(d.added) == multiset(ys)
      && multiset(Firsts(d.unmodified)) + multiset(Firsts(d.updated)) + multiset(d.deleted) == multiset(xs)
  {
    MatchersConserve();
    ReduceConserves(Matchers(), xs, ys);
    var r := Reduce(Matchers(), xs, ys);
    var mm := r.matchersMatched;
    ConcatOfThree(mm);
    FirstsAppend(mm[0], mm[1] + mm[2]);
    FirstsAppend(mm[1], mm[2]);
    SecondsAppend(mm[0], mm[1] + mm[2]);
    SecondsAppend(mm[1], mm[2]);
  }

  lemma ConcatOfThree<T>(ss: seq<seq<T>>)
    requires |ss| == 3
    ensures Concat(ss) == ss[0] + (ss[1] + ss[2])
  {
    ConcatOfTwo(ss[1..]);
  }

  lemma MatchersConserve()
    ensures forall i, a, b :: 0 <= i < |Matchers()| ==> Conserves(a, b, Matchers()[i](a, b))
  {
    forall i, a, b | 0 <= i < |Matchers()|
      ensures Conserves(a, b, Matchers()[i](a, b))
    {
      if i == 0 {
        FirstFitLeftovers(a, b, ExactMatch);
      } else if i == 1 {
        FirstFitLeftovers(a, b, TextMatch);
      } else {
        FirstFitLeftovers(a, b, ExternalLinksMatch);
      }
    }
  }

  /** With no old headlines every new one is added. */
  lemma DiffOfNothing(ys: seq<Headline>)
    ensures Diffed([], ys) == Diff([], [], ys, [])
  {
    ReduceShortCircuit(Matchers(), [], ys);
  }

  /** The three stages of `diffHeadlines` written out: each matcher runs on the
      leftovers of the one before, unless a side is already empty. */
  lemma DiffStages(xs: seq<Headline>, ys: seq<Headline>)
    ensures var d := Diffed(xs, ys);
      if xs == [] || ys == [] then d == Diff([], xs, ys, [])
      else
        var m1 := FirstFit(xs, ys, ExactMatch);
        if m1.unmatchedA == [] || m1.unmatchedB == [] then d == Diff(m1.matched, m1.unmatchedA, m1.unmatchedB, [])
        else
          var m2 := FirstFit(m1.unmatchedA, m1.unmatchedB, TextMatch);
          if m2.unmatchedA == [] || m2.unmatchedB == [] then d == Diff(m1.matched, m2.unmatchedA, m2.unmatchedB, m2.matched)
          else
            var m3 := FirstFit(m2.unmatchedA, m2.unmatchedB, ExternalLinksMatch);
            d == Diff(m1.matched, m3.unmatchedA, m3.unmatchedB, m2.matched + m3.matched)
  {
    var ms := Matchers();
    assert ms[1..][1..][1..] == [];
    if xs == [] || ys == [] {
      ReduceShortCircuit(ms, xs, ys);
    } else {
      var m1 := FirstFit(xs, ys, ExactMatch);
      assert ms[0](xs, ys) == m1;
      if m1.unmatchedA == [] || m1.unmatchedB == [] {
        ReduceShortCircuit(ms[1..], m1.unmatchedA, m1.unmatchedB);
      } else {
        var m2 := FirstFit(m1.unmatchedA, m1.unmatchedB, TextMatch);
        assert ms[1..][0](m1.unmatchedA, m1.unmatchedB) == m2;
        if m2.unmatchedA == [] || m2.unmatchedB == [] {
          ReduceShortCircuit(ms[1..][1..], m2.unmatchedA, m2.unmatchedB);
          assert m2.matched + [] == m2.matched;
        } else {
          var m3 := FirstFit(m2.unmatchedA, m2.unmatchedB, ExternalLinksMatch);
          assert ms[1..][1..][0](m2.unmatchedA, m2.unmatchedB) == m3;
          assert m3.matched + [] == m3.matched;
        }
      }
    }
  }

  /** Unmodified pairs are two equal headlines. */
  lemma DiffUnmodifiedIdentical(xs: seq<Headline>, ys: seq<Headline>)
    ensures forall k :: 0 <= k < |Diffed(xs, ys).unmodified| ==>
      Diffed(xs, ys).unmodified[k].0 == Diffed(xs, ys).unmodified[k].1
  {
    DiffStages(xs, ys);
    FirstFitSound(xs, ys, ExactMatch);
  }

  /** Updated pairs share their text or one of their external links. */
  lemma DiffUpdatedRelated(xs: seq<Headline>, ys: seq<Headline>)
    ensures forall k :: 0 <= k < |Diffed(xs, ys).updated| ==>
      var (a, b) := Diffed(xs, ys).updated[k]; TextMatch(a, b) || ExternalLinksMatch(a, b)
  {
    DiffStages(xs, ys);
    if xs != [] && ys != [] {
      var m1 := FirstFit(xs, ys, ExactMatch);
      if m1.unmatchedA != [] && m1.unmatchedB != [] {
        var m2 := FirstFit(m1.unmatchedA, m1.unmatchedB, TextMatch);
        FirstFitSound(m1.unmatchedA, m1.unmatchedB, TextMatch);
        if m2.unmatchedA != [] && m2.unmatchedB != [] {
          FirstFitSound(m2.unmatchedA, m2.unmatchedB, ExternalLinksMatch);
        }
      }
    }
  }

  /** No deleted headline could have been paired with an added one: they differ,
      their texts differ and they share no external link under the matcher's rule. */
  lemma DiffLeftoversUnrelated(xs: seq<Headline>, ys: seq<Headline>)
    ensures forall x, y :: x in Diffed(xs, ys).deleted && y in Diffed(xs, ys).added ==> Unrelated(x, y)
  {
    DiffStages(xs, ys);
    var d := Diffed(xs, ys);
    if xs != [] && ys != [] {
      var m1 := FirstFit(xs, ys, ExactMatch);
      if m1.unmatchedA != [] && m1.unmatchedB != [] {
        var m2 := FirstFit(m1.unmatchedA, m1.unmatchedB, TextMatch);
        if m2.unmatchedA != [] && m2.unmatchedB != [] {
          var m3 := FirstFit(m2.unmatchedA, m2.unmatchedB, ExternalLinksMatch);
          assert d.deleted == m3.unmatchedA && d.added == m3.unmatchedB;
          StagedLeftoversUnrelated(xs, ys, m1, m2, m3);
        } else {
          assert d.deleted == [] || d.added == [];
        }
      } else {
        assert d.deleted == [] || d.added == [];
      }
    } else {
      assert d.deleted == [] || d.added == [];
    }
  }

  /** No matcher of `diffHeadlines` pairs `a` with `b`. */
  predicate Unrelated(a: Headline, b: Headline) {
    !ExactMatch(a, b) && !TextMatch(a, b) && !ExternalLinksMatch(a, b)
  }

  lemma StagedLeftoversUnrelated(xs: seq<Headline>, ys: seq<Headline>, m1: Match<Headline>, m2: Match<Headline>, m3: Match<Headline>)
    requires m1 == FirstFit(xs, ys, ExactMatch)
    requires m2 == FirstFit(m1.unmatchedA, m1.unmatchedB, TextMatch)
    requires m3 == FirstFit(m2.unmatchedA, m2.unmatchedB, ExternalLinksMatch)
    ensures forall x, y :: x in m3.unmatchedA && y in m3.unmatchedB ==> Unrelated(x, y)
  {
    forall x, y | x in m3.unmatchedA && y in m3.unmatchedB
      ensures Unrelated(x, y)
    {
      FirstFitLeftoverPair(m2.unmatchedA, m2.unmatchedB, ExternalLinksMatch, x, y);
      FirstFitLeftoverPair(m1.unmatchedA, m1.unmatchedB, TextMatch, x, y);
      FirstFitLeftoverPair(xs, ys, ExactMatch, x, y);
    }
  }

  /** `diffHeadlineDays`: for each date of the new days, in their order, the
      diff against that date's old headlines (`?? []`). */
  function DiffDays(before: Dict<seq<Headline>>, after: Dict<seq<Headline>>): (diffs: Dict<Diff>)
    ensures |diffs| == |after|
  {
    if after == [] then []
    else
      var last := after[|after| - 1];
      DiffDays(before, after[..|after| - 1]) + [(last.0, Diffed(ListOn(before, last.0), last.1))]
  }

  /** Each date's entry is its diff. */
  lemma {:induction false} DiffDaysAt(before: Dict<seq<Headline>>, after: Dict<seq<Headline>>, k: nat)
    requires k < |after|
    ensures DiffDays(before, after)[k] == (after[k].0, Diffed(ListOn(before, after[k].0), after[k].1))
    decreases |after|
  {
    if k < |after| - 1 {
      DiffDaysAt(before, after[..|after| - 1], k);
    }
  }

  method DiffHeadlineDays(before: Dict<seq<Headline>>, after: Dict<seq<Headline>>) returns (diffs: Dict<Diff>)
    ensures diffs == DiffDays(before, after)
  {
    diffs := [];
    for i := 0 to |after|
      invariant diffs == DiffDays(before, after[..i])
    {
      var date := after[i].0;
      var d := DiffHeadlines(ListOn(before, date), after[i].1);
      assert after[..i + 1][..i] == after[..i];
      diffs := diffs + [(date, d)];
    }
    assert after[..|after|] == after;
  }

  // ---------------------------------------------------------------------------
  // From diffs back to headline days

  /** An element of a day list as `Array.prototype.concat` builds it: a headline,
      or an `[a, b]` pair that concat does not unwrap. */
  datatype DayItem = Single(h: Headline) | Pair(a: Headline, b: Headline)

  /** `unmodified.concat(updated.map(hp => hp[1]), added)` as written: the
      unmodified pairs are kept whole. */
  function DayItems(d: Diff): (items: seq<DayItem>)
    ensures |items| == |d.unmodified| + |d.updated| + |d.added|
  {
    seq(|d.unmodified|, k requires 0 <= k < |d.unmodified| => Pair(d.unmodified[k].0, d.unmodified[k].1))
    + seq(|d.updated|, k requires 0 <= k < |d.updated| => Single(d.updated[k].1))
    + seq(|d.added|, k requires 0 <= k < |d.added| => Single(d.added[k]))
  }

  /** The day a full update writes, with each unmodified pair reduced to its new
      headline as the updated pairs are. */
  function HeadlineDay(d: Diff): seq<Headline> {
    Seconds(d.unmodified) + Seconds(d.updated) + d.added
  }

  /** `headlineDayDiffsToUpdatedHeadlineDays`'s day: `added.concat(updated.map(hp => hp[1]))`. */
  function UpdatedDay(d: Diff): seq<Headline> {
    d.added + Seconds(d.updated)
  }

  /** The loop shared by the two folds: one entry per date, in order. */
  method MapDays<A, B>(d: Dict<A>, f: A -> B) returns (r: Dict<B>)
    ensures |r| == |d|
    ensures forall k :: 0 <= k < |d| ==> r[k] == (d[k].0, f(d[k].1))
  {
    r := [];
    for i := 0 to |d|
      invariant |r| == i
      invariant forall k :: 0 <= k < i ==> r[k] == (d[k].0, f(d[k].1))
    {
      r := r + [(d[i].0, f(d[i].1))];
    }
  }

  /** `headlineDayDiffsToHeadlineDays` as written. */
  method HeadlineDayDiffsToHeadlineDays(diffs: Dict<Diff>) returns (days: Dict<seq<DayItem>>)
    ensures |days| == |diffs|
    ensures forall k :: 0 <= k < |diffs| ==> days[k] == (diffs[k].0, DayItems(diffs[k].1))
  {
    days := MapDays(diffs, DayItems);
  }

  /** `headlineDayDiffsToHeadlineDays` with unmodified pairs unwrapped. */
  method HeadlineDayDiffsToHeadlineDaysCorrected(diffs: Dict<Diff>) returns (days: Dict<seq<Headline>>)
    ensures |days| == |diffs|
    ensures forall k :: 0 <= k < |diffs| ==> days[k] == (diffs[k].0, HeadlineDay(diffs[k].1))
  {
    days := MapDays(diffs, HeadlineDay);
  }

  /** `headlineDayDiffsToUpdatedHeadlineDays`. */
  method HeadlineDayDiffsToUpdatedHeadlineDays(diffs: Dict<Diff>) returns (days: Dict<seq<Headline>>)
    ensures |days| == |diffs|
    ensures forall k :: 0 <= k < |diffs| ==> days[k] == (diffs[k].0, UpdatedDay(diffs[k].1))
  {
    days := MapDays(diffs, UpdatedDay);
  }

  /** A full update gives back the new day's headlines (reordered). */
  lemma HeadlineDayRestores(xs: seq<Headline>, ys: seq<Headline>)
    ensures multiset(HeadlineDay(Diffed(xs, ys))) == multiset(ys)
  {
    DiffPartitions(xs, ys);
  }

  /** An update-only day is the new day minus its unmodified headlines. */
  lemma UpdatedDayOmitsUnmodified(xs: seq<Headline>, ys: seq<Headline>)
    ensures multiset(UpdatedDay(Diffed(xs, ys))) + multiset(Seconds(Diffed(xs, ys).unmodified)) == multiset(ys)
  {
    DiffPartitions(xs, ys);
  }

  /** For a date with no old headlines, the update writes the whole new day. */
  lemma UpdatedDayOfNewDate(before: Dict<seq<Headline>>, after: Dict<seq<Headline>>, k: nat)
    requires k < |after| && Get(before, after[k].0).None?
    ensures DiffDays(before, after)[k].1 == Diff([], [], after[k].1, [])
    ensures UpdatedDay(DiffDays(before, after)[k].1) == after[k].1
  {
    DiffDaysAt(before, after, k);
    DiffOfNothing(after[k].1);
  }

  /** Diffing old days against new ones and writing them back fully restores
      every new day, date by date. */
  lemma DiffDaysRestore(before: Dict<seq<Headline>>, after: Dict<seq<Headline>>)
    ensures forall k :: 0 <= k < |after| ==>
      DiffDays(before, after)[k].0 == after[k].0
      && multiset(HeadlineDay(DiffDays(before, after)[k].1)) == multiset(after[k].1)
  {
    forall k | 0 <= k < |after|
      ensures DiffDays(before, after)[k].0 == after[k].0
      ensures multiset(HeadlineDay(DiffDays(before, after)[k].1)) == multiset(after[k].1)
    {
      DiffDaysAt(before, after, k);
      HeadlineDayRestores(ListOn(before, after[k].0), after[k].1);
    }
  }

  /** The day list as written holds an `[a, b]` pair where a headline belongs:
      re-fetching an unchanged headline `h` gives `[[h, h]]`, not `[h]`. */
  lemma DayItemsKeepPairs(h: Headline)
    ensures DayItems(Diffed([h], [h])) == [Pair(h, h)]
    ensures HeadlineDay(Diffed([h], [h])) == [h]
  {
    DiffStages([h], [h]);
    var m1 := FirstFit([h], [h], ExactMatch);
    assert FirstFitIndex([h], h, ExactMatch) == Some(0);
    assert Remove([h], 0) == [];
    assert m1 == Match([(h, h)], [], []);
  }
}
