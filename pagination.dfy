/** The page-link side of `src/logic/frontend.js`: the date-key pattern, the
    URL/key normalisers, and reading and retargeting `a.prev` / `a.next` links.
    A page is abstracted to its anchors (with their `prev`/`next` classes and
    `href`) and the rest of its text. */
module Pagination {
  import opened Js

  // ---------------------------------------------------------------------------
  // Date keys: DATE_URL_KEY_RGX = ^/?(\d{4}-\d{2}-[0-3][0-9])/

  predicate IsDigit(c: char) {
    '0' <= c <= '9'
  }

  /** `\d{4}-\d{2}-[0-3][0-9]`, ten characters. */
  predicate IsDate(d: string) {
    && |d| == 10
    && IsDigit(d[0]) && IsDigit(d[1]) && IsDigit(d[2]) && IsDigit(d[3])
    && d[4] == '-' && IsDigit(d[5]) && IsDigit(d[6])
    && d[7] == '-' && '0' <= d[8] <= '3' && IsDigit(d[9])
  }

  /** `key.match(DATE_URL_KEY_RGX)?.[1]`: the date a key begins with, after at
      most one `/`, when a `/` follows it. */
  function DateOfKey(key: string): (r: Option<string>)
    ensures r.Some? ==> IsDate(r.value)
    ensures r == (if |key| >= 11 && IsDate(key[..10]) && key[10] == '/' then Some(key[..10])
                  else if |key| >= 12 && key[0] == '/' && IsDate(key[1..11]) && key[11] == '/' then Some(key[1..11])
                  else None)
  {
    var rest := if StartsWith(key, "/") then key[1..] else key;
    // a leading `/` is no digit, so the date cannot start at position 0
    assert |key| >= 10 ==> key[..10][0] == key[0];
    assert |key| >= 11 ==> key[1..][..10] == key[1..11];
    if |rest| >= 11 && IsDate(rest[..10]) && rest[10] == '/' then Some(rest[..10]) else None
  }

  // ---------------------------------------------------------------------------
  // normalizeUrlToKey / normalizeKeyToUrl

  /** `normalizeUrlToKey(url)`: null for the empty string; otherwise a `/` is
      added unless the URL ends in `.html` or `/`, then `index.html` is appended
      in every case (the append is outside the two unbraced `if`s), and one
      leading `/` is removed. */
  function NormalizeUrlToKey(url: string): (r: Option<string>)
    ensures r.None? <==> url == ""
    ensures r.Some? ==> EndsWith(r.value, "index.html")
  {
    if url == "" then None
    else
      var slashed := if !EndsWith(url, ".html") && !EndsWith(url, "/") then url + "/" else url;
      var withIndex := slashed + "index.html";
      assert EndsWith(withIndex, "index.html");
      Some(if StartsWith(withIndex, "/") then withIndex[1..] else withIndex)
  }

  /** The part of `key` after its last `/` (`key.split("/").at(-1)`). */
  function LastSegment(key: string): (seg: string)
    ensures '/' !in seg
    ensures EndsWith(key, seg)
    ensures |seg| < |key| ==> key[|key| - |seg| - 1] == '/'
  {
    if key == [] || key[|key| - 1] == '/' then []
    else
      var prefix := key[..|key| - 1];
      var init := LastSegment(prefix);
      assert prefix[|prefix| - |init|..] == init;
      assert key[|key| - |init| - 1..] == prefix[|prefix| - |init|..] + [key[|key| - 1]];
      init + [key[|key| - 1]]
  }

  /** `normalizeKeyToUrl(key)`: a key ending in `index.html` is cut to its first
      ten characters; otherwise a `/` is appended unless the last path segment
      has a `.` or the key already ends in `/`; then a `/` is put in front unless
      one is there. */
  function NormalizeKeyToUrl(key: string): (url: string)
    ensures StartsWith(url, "/")
  {
    var cut :=
      if EndsWith(key, "index.html") then key[..if |key| < 10 then |key| else 10]
      else if !('.' in LastSegment(key) || (|key| > 0 && key[|key| - 1] == '/')) then key + "/"
      else key;
    if |cut| > 0 && cut[0] == '/' then cut else "/" + cut
  }

  /** A date key has no `/`, no `.`, and does not end in `index.html`. */
  lemma DateShape(d: string)
    requires IsDate(d)
    ensures '/' !in d && '.' !in d
    ensures !EndsWith(d, "index.html") && !EndsWith(d, ".html") && !EndsWith(d, "/")
    ensures !StartsWith(d, "/")
  {
    assert d[|d| - 1] == d[9] != '/';
    assert d[|d| - 10..][9] != "index.html"[9];
    assert d[|d| - 5..][4] != ".html"[4];
  }

  /** A day's URL and its `index.html` key name the same page: both come back to
      `d/index.html`, so `/2023-11-01/` and `2023-11-01` agree. */
  lemma DateUrlRoundTrip(d: string)
    requires IsDate(d)
    ensures NormalizeKeyToUrl(d) == "/" + d + "/"
    ensures NormalizeKeyToUrl(d + "/index.html") == "/" + d
    ensures NormalizeUrlToKey(NormalizeKeyToUrl(d)) == Some(d + "/index.html")
    ensures NormalizeUrlToKey(NormalizeKeyToUrl(d + "/index.html")) == Some(d + "/index.html")
    ensures NormalizeUrlToKey(d) == Some(d + "/index.html")
  {
    DateKeysToUrls(d);
    DateUrlsToKey(d);
  }

  /** The two keys of a day give the URLs `/d/` and `/d`. */
  lemma DateKeysToUrls(d: string)
    requires IsDate(d)
    ensures NormalizeKeyToUrl(d) == "/" + d + "/"
    ensures NormalizeKeyToUrl(d + "/index.html") == "/" + d
  {
    DateShape(d);
    assert LastSegment(d) == d by {
      assert LastIndexOf(d, "/") == -1 by {
        forall j | 0 <= j <= |d| - 1
          ensures !OccursAt(d, "/", j)
        {
          assert d[j..j + 1] == [d[j]];
        }
      }
    }
    var k := d + "/index.html";
    assert EndsWith(k, "index.html");
    assert k[..10] == d;
  }

  /** The URLs `/d/` and `/d` and the bare date all give the key `d/index.html`. */
  lemma DateUrlsToKey(d: string)
    requires IsDate(d)
    ensures NormalizeUrlToKey("/" + d + "/") == Some(d + "/index.html")
    ensures NormalizeUrlToKey("/" + d) == Some(d + "/index.html")
    ensures NormalizeUrlToKey(d) == Some(d + "/index.html")
  {
    DateShape(d);
    var u1 := "/" + d + "/";
    assert EndsWith(u1, "/") && StartsWith(u1, "/");
    assert (u1 + "index.html")[1..] == d + "/index.html";
    var u2 := "/" + d;
    assert !EndsWith(u2, ".html") by {
      assert u2[|u2| - 1] == d[9];
      assert u2[|u2| - 5..][4] != ".html"[4];
    }
    assert !EndsWith(u2, "/") by {
      assert u2[|u2| - 1] == d[9];
    }
    assert (u2 + "/" + "index.html")[1..] == d + "/index.html";
    assert (d + "/" + "index.html") == d + "/index.html";
  }

  // ---------------------------------------------------------------------------
  // Pages and their pagination links

  datatype Direction = Prev | Next

  /** An anchor element: whether it has class `prev` and/or `next`, and its
      `href` attribute if it has one. */
  datatype Link = Link(prev: bool, next: bool, href: Option<string>)
  {
    predicate Has(d: Direction) {
      if d == Prev then prev else next
    }
  }

  /** A page: its anchors in document order and the rest of its text. */
  datatype Page = Page(links: seq<Link>, text: string)

  /** The `href`s of the anchors of class `d`, in document order; an anchor
      without `href` contributes nothing (Cheerio's `map` drops `undefined`). */
  function Hrefs(links: seq<Link>, d: Direction): (hs: seq<string>)
    ensures |hs| <= |links|
    ensures forall h :: h in hs <==> exists i :: 0 <= i < |links| && links[i].Has(d) && links[i].href == Some(h)
  {
    if links == [] then []
    else
      var rest := Hrefs(links[1..], d);
      assert forall i :: 0 < i < |links| ==> links[i] == links[1..][i - 1];
      assert forall i :: 0 <= i < |links| - 1 ==> links[1..][i] == links[i + 1];
      if links[0].Has(d) && links[0].href.Some? then [links[0].href.value] + rest else rest
  }

  datatype Pagination = Pagination(prev: seq<string>, next: seq<string>)

  /** `getPagination(html)`: the `href`s of `a.prev` and of `a.next`. */
  function GetPagination(page: Page): (p: Pagination)
    ensures forall h :: h in p.prev <==> exists i :: 0 <= i < |page.links| && page.links[i].prev && page.links[i].href == Some(h)
    ensures forall h :: h in p.next <==> exists i :: 0 <= i < |page.links| && page.links[i].next && page.links[i].href == Some(h)
  {
    Pagination(Hrefs(page.links, Prev), Hrefs(page.links, Next))
  }

  /** `elements.attr("href", url)` on the anchors of class `d`. */
  function Retarget(links: seq<Link>, d: Direction, url: string): (ls: seq<Link>)
    ensures |ls| == |links|
    ensures forall i :: 0 <= i < |links| ==>
      && ls[i].prev == links[i].prev && ls[i].next == links[i].next
      && ls[i].href == (if links[i].Has(d) then Some(url) else links[i].href)
  {
    seq(|links|, i requires 0 <= i < |links| =>
      if links[i].Has(d) then links[i].(href := Some(url)) else links[i])
  }

  /** One of the labelled `UPDATE_PREV` / `UPDATE_NEXT` blocks: the links and
      whether they were modified. */
  function UpdateDirection(links: seq<Link>, d: Direction, target: Option<string>): (r: (seq<Link>, bool))
    ensures !r.1 ==> r.0 == links
    ensures r.1 <==>
      && target.Some?
      && (exists i :: 0 <= i < |links| && links[i].Has(d) && links[i].href.Some?
                      && links[i].href.value != NormalizeKeyToUrl(target.value))
    ensures r.1 ==> r.0 == Retarget(links, d, NormalizeKeyToUrl(target.value))
  {
    if target.None? then (links, false)
    else
      var url := NormalizeKeyToUrl(target.value);
      var hrefs := Hrefs(links, d);
      // no anchor of that class, or none with an href: nothing to compare
      if |hrefs| == 0 then (links, false)
      else if forall h :: h in hrefs ==> h == url then (links, false)
      else (Retarget(links, d, url), true)
  }

  /** `updatePagination(html, {prev, next})`: prev links first, then next links
      (an anchor with both classes ends with the next URL); the input page is
      returned as it was when neither direction changed. */
  function UpdatePagination(page: Page, prev: Option<string>, next: Option<string>): (r: Page)
    ensures r.text == page.text && |r.links| == |page.links|
    ensures forall i :: 0 <= i < |page.links| ==>
      r.links[i].prev == page.links[i].prev && r.links[i].next == page.links[i].next
  {
    var (afterPrev, prevModified) := UpdateDirection(page.links, Prev, prev);
    var (afterNext, nextModified) := UpdateDirection(afterPrev, Next, next);
    if prevModified || nextModified then Page(afterNext, page.text) else page
  }

  /** Every `href` of an anchor of class `d` already is `url`. */
  predicate Settled(page: Page, d: Direction, url: string) {
    forall i :: 0 <= i < |page.links| && page.links[i].Has(d) && page.links[i].href.Some? ==>
      page.links[i].href.value == url
  }

  /** No anchor has both classes, so the two directions do not interfere. */
  predicate NoDualLinks(page: Page) {
    forall i :: 0 <= i < |page.links| ==> !(page.links[i].prev && page.links[i].next)
  }

  /** A direction is left alone when its target is null or its links already
      point at the target: with both directions so, the page comes back as it was. */
  lemma UpdatePaginationUnchanged(page: Page, prev: Option<string>, next: Option<string>)
    requires prev.Some? ==> Settled(page, Prev, NormalizeKeyToUrl(prev.value))
    requires next.Some? ==> Settled(page, Next, NormalizeKeyToUrl(next.value))
    ensures UpdatePagination(page, prev, next) == page
  {
  }

  /** Otherwise every anchor of that class is pointed at the target's URL, and
      anchors of neither class are untouched (when no anchor has both classes). */
  lemma UpdatePaginationRetargets(page: Page, prev: Option<string>, next: Option<string>, d: Direction)
    requires NoDualLinks(page)
    ensures var target := if d == Prev then prev else next;
      var r := UpdatePagination(page, prev, next);
      target.Some? && !Settled(page, d, NormalizeKeyToUrl(target.value)) ==>
        forall i :: 0 <= i < |page.links| && page.links[i].Has(d) ==>
          r.links[i].href == Some(NormalizeKeyToUrl(target.value))
    ensures var r := UpdatePagination(page, prev, next);
      forall i :: 0 <= i < |page.links| && !page.links[i].prev && !page.links[i].next ==>
        r.links[i] == page.links[i]
  {
    var afterPrev := UpdateDirection(page.links, Prev, prev).0;
    assert forall i :: 0 <= i < |page.links| ==>
      afterPrev[i].prev == page.links[i].prev && afterPrev[i].next == page.links[i].next;
    assert forall i :: 0 <= i < |page.links| && !page.links[i].prev ==> afterPrev[i] == page.links[i];
  }

  /** After an update every link of a direction with a target points at it
      (when no anchor has both classes). */
  lemma UpdatePaginationSettles(page: Page, prev: Option<string>, next: Option<string>)
    requires NoDualLinks(page)
    ensures prev.Some? ==> Settled(UpdatePagination(page, prev, next), Prev, NormalizeKeyToUrl(prev.value))
    ensures next.Some? ==> Settled(UpdatePagination(page, prev, next), Next, NormalizeKeyToUrl(next.value))
  {
    var afterPrev := UpdateDirection(page.links, Prev, prev).0;
    assert forall i :: 0 <= i < |page.links| ==>
      afterPrev[i].prev == page.links[i].prev && afterPrev[i].next == page.links[i].next;
    assert forall i :: 0 <= i < |page.links| && !page.links[i].prev ==> afterPrev[i] == page.links[i];
  }

  /** Updating an updated page changes nothing (when no anchor has both classes). */
  lemma UpdatePaginationIdempotent(page: Page, prev: Option<string>, next: Option<string>)
    requires NoDualLinks(page)
    ensures UpdatePagination(UpdatePagination(page, prev, next), prev, next) == UpdatePagination(page, prev, next)
  {
    var r := UpdatePagination(page, prev, next);
    UpdatePaginationSettles(page, prev, next);
    UpdatePaginationUnchanged(r, prev, next);
  }
}
