/** The older `hefoki-backend/headlines.js`: headline objects whose
    `external_links` arrays are sorted in place before matching, and a link
    matcher that returns the matched B headlines alone rather than pairs. */
module LegacyHeadlines {
  import opened Js
  import HeadlineDiff

  /** A headline object. Only its `external_links` array matters to this file;
      two objects may share one array, as shallow copies do. */
  class Headline {
    const externalLinks: array<string>

    constructor(links: array<string>)
      ensures externalLinks == links
    {
      externalLinks := links;
    }
  }

  /** In `Array.prototype.sort`'s default order: no string is before an earlier one. */
  predicate LinksSorted(s: seq<string>) {
    forall i, j :: 0 <= i < j < |s| ==> !LexLess(s[j], s[i])
  }

  /** "Not after" is transitive. */
  lemma NotAfterTransitive(a: string, b: string, c: string)
    requires !LexLess(b, a) && !LexLess(c, b)
    ensures !LexLess(c, a)
  {
    if a != b {
      LexLessTotal(a, b);
      LexLessTransitiveAt(c, a, b);
    }
  }

  /** A sorted list stays sorted under a new head that no element is before. */
  lemma ConsSorted(x: string, s: seq<string>)
    requires LinksSorted(s)
    requires forall j :: 0 <= j < |s| ==> !LexLess(s[j], x)
    ensures LinksSorted([x] + s)
  {
    forall i, j | 0 <= i < j < |s| + 1
      ensures !LexLess(([x] + s)[j], ([x] + s)[i])
    {
      assert ([x] + s)[j] == s[j - 1];
      if i > 0 {
        assert ([x] + s)[i] == s[i - 1];
      }
    }
  }

  /** `x` put before the first element it is not after. */
  function InsertLink(x: string, s: seq<string>): (r: seq<string>)
    requires LinksSorted(s)
    ensures LinksSorted(r) && |r| == |s| + 1
    ensures multiset(r) == multiset(s) + multiset{x}
    decreases |s|
  {
    if s == [] then [x]
    else if !LexLess(s[0], x) then
      InsertFirst(x, s);
      [x] + s
    else
      var t := InsertLink(x, s[1..]);
      InsertLater(x, s, t);
      assert s == [s[0]] + s[1..];
      [s[0]] + t
  }

  lemma InsertFirst(x: string, s: seq<string>)
    requires LinksSorted(s) && s != [] && !LexLess(s[0], x)
    ensures LinksSorted([x] + s)
  {
    forall j | 0 < j < |s|
      ensures !LexLess(s[j], x)
    {
      NotAfterTransitive(x, s[0], s[j]);
    }
    ConsSorted(x, s);
  }

  lemma InsertLater(x: string, s: seq<string>, t: seq<string>)
    requires LinksSorted(s) && s != [] && LexLess(s[0], x)
    requires LinksSorted(t) && multiset(t) == multiset(s[1..]) + multiset{x}
    ensures LinksSorted([s[0]] + t)
  {
    forall j | 0 <= j < |t|
      ensures !LexLess(t[j], s[0])
    {
      assert t[j] in multiset(s[1..]) + multiset{x};
      if t[j] != x {
        var k :| 0 <= k < |s[1..]| && s[1..][k] == t[j];
        assert s[k + 1] == t[j];
      } else {
        LexLessIrreflexive(x);
        LexLessTransitiveAt(x, s[0], x);
      }
    }
    ConsSorted(s[0], t);
  }

  /** The sorted permutation of `s`. */
  function SortedLinks(s: seq<string>): (r: seq<string>)
    ensures LinksSorted(r) && |r| == |s|
    ensures multiset(r) == multiset(s)
    decreases |s|
  {
    if s == [] then []
    else
      assert s == [s[0]] + s[1..];
      InsertLink(s[0], SortedLinks(s[1..]))
  }

  /** `Array.prototype.sort()` on an array of strings, in place. */
  method SortInPlace(a: array<string>)
    modifies a
    ensures LinksSorted(a[..])
    ensures multiset(a[..]) == multiset(old(a[..]))
  {
    var s := SortedLinks(a[..]);
    forall i | 0 <= i < a.Length {
      a[i] := s[i];
    }
    assert a[..] == s;
  }

  /** `normalizeHeadlineInplace`: sorts the headline's own links array and
      returns the same object. */
  method NormalizeHeadlineInplace(h: Headline) returns (r: Headline)
    modifies h.externalLinks
    ensures r == h
    ensures LinksSorted(h.externalLinks[..])
    ensures multiset(h.externalLinks[..]) == multiset(old(h.externalLinks[..]))
  {
    SortInPlace(h.externalLinks);
    r := h;
  }

  /** The links arrays of `hs`. */
  function Arrays(hs: seq<Headline>): set<array<string>> {
    set h | h in hs :: h.externalLinks
  }

  /** The current links of each headline of `hs`. */
  function Snapshot(hs: seq<Headline>): map<Headline, seq<string>>
    reads Arrays(hs)
  {
    map h | h in hs :: h.externalLinks[..]
  }

  /** The matching rule on the links held in `links`. */
  function MatchIn(links: map<Headline, seq<string>>): (Headline, Headline) -> bool {
    (a: Headline, b: Headline) => LinksMatchIn(links, a, b)
  }

  /** Both headlines have links in `links`, and those lists match. */
  predicate LinksMatchIn(links: map<Headline, seq<string>>, a: Headline, b: Headline) {
    a in links && b in links && HeadlineDiff.LinkListsMatch(links[a], links[b])
  }

  /** `headlinesMatchExternalLinks` of this file: every headline of A, then of B,
      has its links sorted in place; then each B headline takes the first
      remaining A headline whose links it matches, and only the B headline is
      recorded as matched. */
  method HeadlinesMatchExternalLinks(xs: seq<Headline>, ys: seq<Headline>)
    returns (matched: seq<Headline>, unmatchedA: seq<Headline>, unmatchedB: seq<Headline>)
    modifies Arrays(xs + ys)
    ensures forall h :: h in xs + ys ==> LinksSorted(h.externalLinks[..])
    ensures forall h :: h in xs + ys ==> multiset(h.externalLinks[..]) == multiset(old(h.externalLinks[..]))
    ensures var m := HeadlineDiff.FirstFit(xs, ys, MatchIn(old(Snapshot(xs + ys))));
      && matched == HeadlineDiff.Seconds(m.matched)
      && unmatchedA == m.unmatchedA
      && unmatchedB == m.unmatchedB
  {
    var all := xs + ys;
    ghost var given := Snapshot(all);
    for i := 0 to |all|
      invariant forall h :: h in all ==> multiset(h.externalLinks[..]) == multiset(old(h.externalLinks[..]))
      invariant forall k :: 0 <= k < i ==> LinksSorted(all[k].externalLinks[..])
    {
      assert all[i].externalLinks in Arrays(xs + ys);
      var _ := NormalizeHeadlineInplace(all[i]);
    }
    var m := HeadlineDiff.MatchFirstFit(xs, ys, MatchIn(Snapshot(all)));
    ghost var sorted := Snapshot(all);
    forall h | h in given
      ensures multiset(given[h]) == multiset(sorted[h])
    {
    }
    MatchIgnoresLinkOrder(xs, ys, given, sorted);
    matched := HeadlineDiff.Seconds(m.matched);
    unmatchedA := m.unmatchedA;
    unmatchedB := m.unmatchedB;
  }

  /** Sorting does not change the outcome: matching on the links as given
      and on the links as sorted pair the same headlines. */
  lemma MatchIgnoresLinkOrder(xs: seq<Headline>, ys: seq<Headline>, given: map<Headline, seq<string>>, sorted: map<Headline, seq<string>>)
    requires given.Keys == sorted.Keys
    requires forall h :: h in given ==> multiset(given[h]) == multiset(sorted[h])
    ensures HeadlineDiff.FirstFit(xs, ys, MatchIn(given)) == HeadlineDiff.FirstFit(xs, ys, MatchIn(sorted))
  {
    forall a, b
      ensures MatchIn(given)(a, b) == MatchIn(sorted)(a, b)
    {
      if a in given && b in given {
        HeadlineDiff.LinkListsMatchReorder(given[a], given[b], sorted[a], sorted[b]);
      }
    }
    HeadlineDiff.FirstFitSamePredicate(xs, ys, MatchIn(given), MatchIn(sorted));
  }

  /** Each B headline is either matched or unmatched, and both lists keep B's
      order; each A headline is removed at most once and the rest keep A's order. */
  lemma LegacyMatchPartitions(xs: seq<Headline>, ys: seq<Headline>, links: map<Headline, seq<string>>)
    ensures var m := HeadlineDiff.FirstFit(xs, ys, MatchIn(links));
      && HeadlineDiff.Interleaves(HeadlineDiff.Seconds(m.matched), m.unmatchedB, ys)
      && |HeadlineDiff.Seconds(m.matched)| + |m.unmatchedB| == |ys|
      && HeadlineDiff.IsSubsequence(m.unmatchedA, xs)
      && multiset(HeadlineDiff.Firsts(m.matched)) + multiset(m.unmatchedA) == multiset(xs)
  {
    var m := HeadlineDiff.FirstFit(xs, ys, MatchIn(links));
    HeadlineDiff.FirstFitPartitionsB(xs, ys, MatchIn(links));
    HeadlineDiff.FirstFitPartitionsA(xs, ys, MatchIn(links));
    HeadlineDiff.InterleavesMultiset(HeadlineDiff.Seconds(m.matched), m.unmatchedB, ys);
  }

  /** Headlines whose link lists are empty are never matched. */
  lemma LinklessNeverMatched(xs: seq<Headline>, ys: seq<Headline>, links: map<Headline, seq<string>>)
    requires forall a :: a in xs && a in links ==> links[a] == []
    ensures HeadlineDiff.FirstFit(xs, ys, MatchIn(links)) == HeadlineDiff.Match([], xs, ys)
  {
    forall x, y | x in xs && y in ys
      ensures !MatchIn(links)(x, y)
    {
      assert MatchIn(links)(x, y) == LinksMatchIn(links, x, y);
      if x in links && y in links {
        assert links[x] == [];
      }
    }
    HeadlineDiff.FirstFitUnmatchable(xs, ys, MatchIn(links));
  }

  /** The first-fit outcome of the scenario: A = [a0, a1, a2] and
      B = [b1, b2, b3, b4], where only a1-b1 and a2-b2 match. */
  lemma ScenarioOutcome<H>(a0: H, a1: H, a2: H, b1: H, b2: H, b3: H, b4: H, p: (H, H) -> bool)
    requires p(a1, b1) && p(a2, b2)
    requires !p(a0, b1) && !p(a0, b2) && !p(a0, b3) && !p(a0, b4)
    ensures HeadlineDiff.FirstFit([a0, a1, a2], [b1, b2, b3, b4], p) == HeadlineDiff.Match([(a1, b1), (a2, b2)], [a0], [b3, b4])
  {
    assert [b1, b2, b3, b4][1..] == [b2, b3, b4] && [b2, b3, b4][1..] == [b3, b4] && [b3, b4][1..] == [b4] && [b4][1..] == [];
    assert HeadlineDiff.FirstFitIndex([a0], b4, p) == None;
    assert HeadlineDiff.FirstFit([a0], [b4], p) == HeadlineDiff.Match([], [a0], [b4]);
    assert HeadlineDiff.FirstFitIndex([a0], b3, p) == None;
    assert HeadlineDiff.FirstFit([a0], [b3, b4], p) == HeadlineDiff.Match([], [a0], [b3, b4]);
    assert [a0, a2][1..] == [a2];
    assert HeadlineDiff.FirstFitIndex([a0, a2], b2, p) == Some(1);
    assert HeadlineDiff.Remove([a0, a2], 1) == [a0];
    assert HeadlineDiff.FirstFit([a0, a2], [b2, b3, b4], p) == HeadlineDiff.Match([(a2, b2)], [a0], [b3, b4]);
    assert [a0, a1, a2][1..] == [a1, a2];
    assert HeadlineDiff.FirstFitIndex([a0, a1, a2], b1, p) == Some(1);
    assert HeadlineDiff.Remove([a0, a1, a2], 1) == [a0, a2];
  }

  /** The external links of the first five test fixtures. */
  const Fixture0: string := "https://www.example.com/unit-test-passes"
  const Fixture1: string := "https://www.example.com/second-unit-test-passes"
  const Fixture2: string := "https://www.example.com/third-unit-test-passes"
  const Fixture3: string := "https://www.example.com/fourth-unit-test-passes"
  const Fixture4: string := "https://www.example.com/fifth-unit-test-passes"

  lemma FirstFixtureDistinct()
    ensures Fixture0 != Fixture1 && Fixture0 != Fixture2 && Fixture0 != Fixture3 && Fixture0 != Fixture4
  {
    assert Fixture0[24] == 'u';
    assert Fixture1[24] == 's' && Fixture2[24] == 't' && Fixture3[24] == 'f' && Fixture4[24] == 'f';
  }

  /** A fresh links array holding the one link `s`. */
  method NewLinks(s: string) returns (l: array<string>)
    ensures fresh(l) && l[..] == [s]
  {
    l := new string[1] [s];
  }

  /** The scenario's headlines: A holds headlines with links `s0`, `s1`, `s2`
      and B headlines with `s1` to `s4`, each with one link. The B headlines
      with `s1` and `s2` share their A counterparts' links arrays. */
  method NewScenario(s0: string, s1: string, s2: string, s3: string, s4: string)
    returns (a0: Headline, a1: Headline, a2: Headline, b1: Headline, b2: Headline, b3: Headline, b4: Headline)
    ensures fresh(Arrays([a0, a1, a2, b1, b2, b3, b4]))
    ensures var links := Snapshot([a0, a1, a2, b1, b2, b3, b4]);
      && a0 in links && links[a0] == [s0] && a1 in links && links[a1] == [s1] && a2 in links && links[a2] == [s2]
      && b1 in links && links[b1] == [s1] && b2 in links && links[b2] == [s2]
      && b3 in links && links[b3] == [s3] && b4 in links && links[b4] == [s4]
  {
    var l0 := NewLinks(s0);
    var l1 := NewLinks(s1);
    var l2 := NewLinks(s2);
    var l3 := NewLinks(s3);
    var l4 := NewLinks(s4);
    a0 := new Headline(l0);
    a1 := new Headline(l1);
    a2 := new Headline(l2);
    b1 := new Headline(l1);
    b2 := new Headline(l2);
    b3 := new Headline(l3);
    b4 := new Headline(l4);
    ghost var hs := [a0, a1, a2, b1, b2, b3, b4];
    forall h: Headline | h in hs
      ensures fresh(h.externalLinks)
    {
    }
    assert a0 in hs && a1 in hs && a2 in hs && b1 in hs && b2 in hs && b3 in hs && b4 in hs;
  }

  /** The "matches and non-matches" case, for any five links of which the
      first differs from the other four (the fixtures' links are such, by
      `FirstFixtureDistinct`): the B headlines sharing links with A headlines
      are matched, the others are not, and the A headline left over is the
      one whose link no B headline has. */
  method MatchesAndNonMatches(s0: string, s1: string, s2: string, s3: string, s4: string)
    returns (a0: Headline, b1: Headline, b2: Headline, b3: Headline, b4: Headline,
             matched: seq<Headline>, unmatchedA: seq<Headline>, unmatchedB: seq<Headline>)
    requires s0 != s1 && s0 != s2 && s0 != s3 && s0 != s4
    ensures matched == [b1, b2] && unmatchedA == [a0] && unmatchedB == [b3, b4]
  {
    var a1, a2;
    a0, a1, a2, b1, b2, b3, b4 := NewScenario(s0, s1, s2, s3, s4);
    var xs, ys := [a0, a1, a2], [b1, b2, b3, b4];
    assert xs + ys == [a0, a1, a2, b1, b2, b3, b4];
    ghost var links := Snapshot(xs + ys);
    matched, unmatchedA, unmatchedB := HeadlinesMatchExternalLinks(xs, ys);
    ScenarioMatch(a0, a1, a2, b1, b2, b3, b4, links, s0, s1, s2, s3, s4);
  }

  /** The test's "matches and non-matches" case on its own fixtures' links. */
  method FixtureMatches()
    returns (a0: Headline, b1: Headline, b2: Headline, b3: Headline, b4: Headline,
             matched: seq<Headline>, unmatchedA: seq<Headline>, unmatchedB: seq<Headline>)
    ensures matched == [b1, b2] && unmatchedA == [a0] && unmatchedB == [b3, b4]
  {
    FirstFixtureDistinct();
    a0, b1, b2, b3, b4, matched, unmatchedA, unmatchedB := MatchesAndNonMatches(Fixture0, Fixture1, Fixture2, Fixture3, Fixture4);
  }

  /** With one link per headline, the first differing from the others, the
      scenario's headlines match exactly as `ScenarioOutcome` requires. */
  lemma ScenarioMatch(a0: Headline, a1: Headline, a2: Headline, b1: Headline, b2: Headline, b3: Headline, b4: Headline,
                      links: map<Headline, seq<string>>, s0: string, s1: string, s2: string, s3: string, s4: string)
    requires s0 != s1 && s0 != s2 && s0 != s3 && s0 != s4
    requires a0 in links && links[a0] == [s0] && a1 in links && links[a1] == [s1] && a2 in links && links[a2] == [s2]
    requires b1 in links && links[b1] == [s1] && b2 in links && links[b2] == [s2]
    requires b3 in links && links[b3] == [s3] && b4 in links && links[b4] == [s4]
    ensures var m := HeadlineDiff.FirstFit([a0, a1, a2], [b1, b2, b3, b4], MatchIn(links));
      HeadlineDiff.Seconds(m.matched) == [b1, b2] && m.unmatchedA == [a0] && m.unmatchedB == [b3, b4]
  {
    var p := MatchIn(links);
    assert [s1][0] in [s1] && [s2][0] in [s2];
    assert LinksMatchIn(links, a1, b1) && LinksMatchIn(links, a2, b2);
    assert p(a1, b1) == LinksMatchIn(links, a1, b1) && p(a2, b2) == LinksMatchIn(links, a2, b2);
    assert !LinksMatchIn(links, a0, b1) && !LinksMatchIn(links, a0, b2);
    assert !LinksMatchIn(links, a0, b3) && !LinksMatchIn(links, a0, b4);
    assert p(a0, b1) == LinksMatchIn(links, a0, b1) && p(a0, b2) == LinksMatchIn(links, a0, b2);
    assert p(a0, b3) == LinksMatchIn(links, a0, b3) && p(a0, b4) == LinksMatchIn(links, a0, b4);
    ScenarioOutcome(a0, a1, a2, b1, b2, b3, b4, p);
    assert [(a1, b1), (a2, b2)][1..] == [(a2, b2)] && [(a2, b2)][1..] == [];
    assert HeadlineDiff.Seconds([(a2, b2)]) == [b2];
  }
}
