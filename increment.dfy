/** `incrementBetweenBuilds` (src/logic/frontend.js): given the files of the
    published site and of a fresh build, decide which files to upload. Day pages
    (keys beginning with a date) are merged by date so that pages whose
    neighbours changed get their `prev`/`next` links rewritten; every other new
    file is published as is; outputs equal to the published file are dropped. */
module Increment {
  import opened Js
  import opened IndexedMerge
  import opened Pagination

  /** A `StaticSiteFile` as this phase sees it: its key and its content. */
  datatype SiteFile = SiteFile(key: string, content: Page)

  /** The `options` argument; a missing option is `None`. */
  datatype Options = Options(force: Option<bool>, enforcePagination: Option<bool>)

  /** `options.force ?? false` */
  function Force(o: Options): bool {
    o.force.Some? && o.force.value
  }

  /** `options.enforce_pagination ?? true` */
  function EnforcePagination(o: Options): bool {
    o.enforcePagination.None? || o.enforcePagination.value
  }

  // ---------------------------------------------------------------------------
  // The dictionaries built from the two file lists

  /** `existing_objects`: each file under its key, a later file replacing an
      earlier one with the same key. */
  function ByKey(files: seq<SiteFile>): (m: map<string, SiteFile>)
    ensures forall k :: k in m <==> exists i :: 0 <= i < |files| && files[i].key == k
    ensures forall k :: k in m ==> m[k].key == k && m[k] in files
  {
    if files == [] then map[]
    else
      var init, f := files[..|files| - 1], files[|files| - 1];
      assert files == init + [f];
      ByKey(init)[f.key := f]
  }

  /** `day_pages_existing` / `day_pages_new`: each file whose key begins with a
      date, under that date, a later file replacing an earlier one. */
  function ByDate(files: seq<SiteFile>): (m: map<string, SiteFile>)
    ensures forall d :: d in m <==> exists i :: 0 <= i < |files| && DateOfKey(files[i].key) == Some(d)
    ensures forall d :: d in m ==> DateOfKey(m[d].key) == Some(d) && m[d] in files
  {
    if files == [] then map[]
    else
      var init, f := files[..|files| - 1], files[|files| - 1];
      assert files == init + [f];
      var date := DateOfKey(f.key);
      if date.Some? then ByDate(init)[date.value := f] else ByDate(init)
  }

  /** The contents the new build contributes to `static_pages`: every file
      without a date, under its key, a later file replacing an earlier one. */
  function StaticFiles(files: seq<SiteFile>): (m: map<string, Page>)
    ensures forall k :: k in m <==> k in ByKey(files) && DateOfKey(k).None?
    ensures forall k :: k in m ==> m[k] == ByKey(files)[k].content
  {
    if files == [] then map[]
    else
      var init, f := files[..|files| - 1], files[|files| - 1];
      if DateOfKey(f.key).None? then StaticFiles(init)[f.key := f.content] else StaticFiles(init)
  }

  /** Of several files with one key, the last one is kept. */
  lemma {:induction false} ByKeyLatest(files: seq<SiteFile>, i: nat)
    requires i < |files|
    requires forall j :: i < j < |files| ==> files[j].key != files[i].key
    ensures ByKey(files)[files[i].key] == files[i]
  {
    if i < |files| - 1 {
      var init := files[..|files| - 1];
      ByKeyLatest(init, i);
    }
  }

  /** Of several files with one date, the last one is kept. */
  lemma {:induction false} ByDateLatest(files: seq<SiteFile>, i: nat)
    requires i < |files| && DateOfKey(files[i].key).Some?
    requires forall j :: i < j < |files| ==> DateOfKey(files[j].key) != DateOfKey(files[i].key)
    ensures ByDate(files)[DateOfKey(files[i].key).value] == files[i]
  {
    if i < |files| - 1 {
      var init := files[..|files| - 1];
      ByDateLatest(init, i);
    }
  }

  /** The first loop, over `old_files`. */
  method IndexOld(oldFiles: seq<SiteFile>, force: bool)
    returns (existing: map<string, SiteFile>, days: map<string, SiteFile>, statics: map<string, Page>)
    ensures existing == ByKey(oldFiles) && days == ByDate(oldFiles)
    ensures forall k :: k in statics <==> force && k in existing
    ensures forall k :: k in statics ==> statics[k] == existing[k].content
  {
    existing, days, statics := map[], map[], map[];
    for i := 0 to |oldFiles|
      invariant existing == ByKey(oldFiles[..i]) && days == ByDate(oldFiles[..i])
      invariant forall k :: k in statics <==> force && k in existing
      invariant forall k :: k in statics ==> statics[k] == existing[k].content
    {
      var file := oldFiles[i];
      assert oldFiles[..i + 1][..i] == oldFiles[..i];
      existing := existing[file.key := file];
      var date := DateOfKey(file.key);
      if date.Some? {
        days := days[date.value := file];
      }
      if force {
        statics := statics[file.key := file.content];
      }
    }
    assert oldFiles[..|oldFiles|] == oldFiles;
  }

  /** The second loop, over `new_files`: files without a date go to
      `static_pages`, the others to `day_pages_new`. */
  method IndexNew(newFiles: seq<SiteFile>, statics0: map<string, Page>)
    returns (days: map<string, SiteFile>, statics: map<string, Page>)
    ensures days == ByDate(newFiles)
    ensures statics == statics0 + StaticFiles(newFiles)
  {
    days, statics := map[], statics0;
    for i := 0 to |newFiles|
      invariant days == ByDate(newFiles[..i])
      invariant statics == statics0 + StaticFiles(newFiles[..i])
    {
      var file := newFiles[i];
      IndexNewStep(newFiles, i);
      var date := DateOfKey(file.key);
      if date.None? {
        UpdateAfterUnion(statics0, StaticFiles(newFiles[..i]), file.key, file.content);
        statics := statics[file.key := file.content];
      } else {
        days := days[date.value := file];
      }
    }
    assert newFiles[..|newFiles|] == newFiles;
  }

  /** One more file extends the day pages or the static files, as the second loop does. */
  lemma IndexNewStep(files: seq<SiteFile>, i: nat)
    requires i < |files|
    ensures var f, date := files[i], DateOfKey(files[i].key);
      && ByDate(files[..i + 1]) == (if date.Some? then ByDate(files[..i])[date.value := f] else ByDate(files[..i]))
      && StaticFiles(files[..i + 1]) == (if date.None? then StaticFiles(files[..i])[f.key := f.content] else StaticFiles(files[..i]))
  {
    assert files[..i + 1][..i] == files[..i];
  }

  lemma UpdateAfterUnion<K, V>(m: map<K, V>, n: map<K, V>, k: K, v: V)
    ensures m + n[k := v] == (m + n)[k := v]
  {
  }

  // ---------------------------------------------------------------------------
  // Object.keys(...).sort()

  /** `s` with `x` put in its place. */
  function Insert(s: seq<string>, x: string): (r: seq<string>)
    requires StrictlySorted(s, LexLess) && x !in s
    ensures StrictlySorted(r, LexLess)
    ensures |r| == |s| + 1
    ensures forall y :: y in r <==> y in s || y == x
  {
    if s == [] then [x]
    else if LexLess(x, s[0]) then
      LexLessIsStrictTotalOrder();
      forall j | 0 <= j < |s|
        ensures LexLess(x, s[j])
      {
        if j > 0 {
          Transitive(LexLess, x, s[0], s[j]);
        }
      }
      [x] + s
    else
      var t := Insert(s[1..], x);
      LexLessIsStrictTotalOrder();
      assert s[0] != x;
      assert LexLess(s[0], x);
      forall y | y in t
        ensures LexLess(s[0], y)
      {
        if y != x {
          var j :| 0 <= j < |s[1..]| && s[1..][j] == y;
          assert s[j + 1] == y;
        }
      }
      assert s == [s[0]] + s[1..];
      [s[0]] + t
  }

  /** `Object.keys(m).sort()`: the keys of `m` in string order. */
  method SortedKeys<V>(m: map<string, V>) returns (ks: seq<string>)
    ensures StrictlySorted(ks, LexLess)
    ensures forall x :: x in ks <==> x in m
  {
    ks := [];
    var rest := m.Keys;
    while rest != {}
      invariant rest <= m.Keys
      invariant StrictlySorted(ks, LexLess)
      invariant forall x :: x in ks <==> x in m && x !in rest
      decreases |rest|
    {
      var x :| x in rest;
      ks := Insert(ks, x);
      rest := rest - {x};
    }
  }

  /** Every old date has a new date at or after it: with the keys sorted this is
      what keeps the merge from running forever. */
  ghost predicate NewDatesReachOld(oldFiles: seq<SiteFile>, newFiles: seq<SiteFile>) {
    forall d :: d in ByDate(oldFiles) ==> exists e :: e in ByDate(newFiles) && !LexLess(e, d)
  }

  lemma LastReaches<V>(a: seq<string>, b: seq<string>, m: map<string, V>)
    requires StrictlySorted(b, LexLess) && forall x :: x in b <==> x in m
    requires forall d :: d in a ==> exists e :: e in m && !LexLess(e, d)
    ensures Terminates(a, b, LexLess)
  {
    if |a| > 0 {
      var d := a[|a| - 1];
      assert d in a;
      var e :| e in m && !LexLess(e, d);
      assert e in b;
      var j :| 0 <= j < |b| && b[j] == e;
      var last := b[|b| - 1];
      if j < |b| - 1 {
        assert LexLess(e, last);
        assert TransitiveAt(LexLess, e, last, d) by {
          LexLessTransitiveAt(e, last, d);
        }
      }
    }
  }

  // ---------------------------------------------------------------------------
  // Merge entries and their flags

  type DayEntry = Entry<string, SiteFile>

  /** `merge.value_b || merge.value_a`: the new page when there is one. */
  function PageFile(e: DayEntry): Option<SiteFile> {
    if e.sideB.value.Some? then e.sideB.value else e.sideA.value
  }

  /** Every entry has a page (as every merge entry does: it has a side). */
  predicate PagesPresent(merged: seq<DayEntry>) {
    forall k :: 0 <= k < |merged| ==> PageFile(merged[k]).Some?
  }

  /** The flags `Object.assign`ed onto a merge entry. */
  datatype Flags = Flags(
    isUpdate: bool,
    isContentUpdate: bool,
    isPaginationUpdate: bool,
    isNewPage: bool,
    isHashUpdate: bool,
    isAPaginationUpdate: bool,
    isBPaginationUpdate: bool)

  /** How the summary flags follow from the others. */
  predicate Consistent(f: Flags) {
    && f.isUpdate == (f.isNewPage || f.isContentUpdate)
    && f.isContentUpdate == (f.isHashUpdate || f.isPaginationUpdate)
  }

  /** The flags of one merge entry; `digest` is the files' content hash. */
  function Classify(e: DayEntry, digest: Page -> string): (f: Flags)
    ensures Consistent(f)
    ensures f.isNewPage <==> e.sideA.value.None? && e.sideB.value.Some?
    ensures f.isHashUpdate <==> e.sideA.value.Some? && e.sideB.value.Some?
                                && digest(e.sideA.value.value.content) != digest(e.sideB.value.value.content)
    ensures f.isAPaginationUpdate ==> e.sideA.value.Some?
    ensures f.isBPaginationUpdate ==> e.sideB.value.Some?
    ensures f.isPaginationUpdate <==> f.isBPaginationUpdate || (f.isAPaginationUpdate && !f.isHashUpdate)
  {
    var a := e.sideA.value.Some?;
    var b := e.sideB.value.Some?;
    var isHashUpdate := a && b && digest(e.sideA.value.value.content) != digest(e.sideB.value.value.content);
    var isA := a && (e.sideA.prev != e.prev || e.sideA.next != e.next);
    var isB := b && (e.sideB.prev != e.prev || e.sideB.next != e.next);
    var isPagination := isB || (isA && !isHashUpdate);
    var isContent := isHashUpdate || isPagination;
    Flags((!a && b) || isContent, isContent, isPagination, !a && b, isHashUpdate, isA, isB)
  }

  /** A side that holds every date of the merge sees the chain's own neighbours,
      so its pages are never flagged for pagination by the flag pass: a build
      that keeps every old date flags no new page, one that adds no date flags
      no old page. */
  lemma SideCoveringAllDatesNeedsNoPagination(merged: seq<DayEntry>, a: seq<string>, b: seq<string>,
                                              va: seq<Option<SiteFile>>, vb: seq<Option<SiteFile>>,
                                              digest: Page -> string)
    requires |va| == |a| && |vb| == |b|
    requires StrictlySorted(a, LexLess) && StrictlySorted(b, LexLess)
    requires MergeOf(merged, a, b, va, vb, LexLess)
    ensures (forall x :: x in a ==> x in b) ==>
      forall k :: 0 <= k < |merged| ==> !Classify(merged[k], digest).isBPaginationUpdate
    ensures (forall x :: x in b ==> x in a) ==>
      forall k :: 0 <= k < |merged| ==> !Classify(merged[k], digest).isAPaginationUpdate
  {
    LexLessIsStrictTotalOrder();
    if forall x :: x in a ==> x in b {
      SideFollowsChain(merged, SideB, a, b, va, vb, LexLess);
    }
    if forall x :: x in b ==> x in a {
      SideFollowsChain(merged, SideA, a, b, va, vb, LexLess);
    }
  }

  /** The chain neighbour `n` is a date that side `keys` lacks. */
  predicate OffSide(n: Option<string>, keys: seq<string>) {
    n.Some? && n.value !in keys
  }

  /** Over a merge, a side that has a page for the entry is flagged for
      pagination exactly when one of the entry's chain neighbours is a date
      missing from that side. */
  lemma ClassifySideFlags(merged: seq<DayEntry>, a: seq<string>, b: seq<string>,
                          va: seq<Option<SiteFile>>, vb: seq<Option<SiteFile>>,
                          digest: Page -> string, k: nat)
    requires |va| == |a| && |vb| == |b|
    requires StrictlySorted(a, LexLess) && StrictlySorted(b, LexLess)
    requires MergeOf(merged, a, b, va, vb, LexLess)
    requires k < |merged|
    ensures Classify(merged[k], digest).isAPaginationUpdate <==>
      merged[k].sideA.value.Some? && (OffSide(merged[k].prev, a) || OffSide(merged[k].next, a))
    ensures Classify(merged[k], digest).isBPaginationUpdate <==>
      merged[k].sideB.value.Some? && (OffSide(merged[k].prev, b) || OffSide(merged[k].next, b))
  {
    LexLessIsStrictTotalOrder();
    assert merged[k].Side(SideA) == SideOf(a, va, merged[k].index);
    assert merged[k].Side(SideB) == SideOf(b, vb, merged[k].index);
    if merged[k].sideA.value.Some? {
      SideNeighboursAgree(merged, SideA, a, va, k, LexLess);
    }
    if merged[k].sideB.value.Some? {
      SideNeighboursAgree(merged, SideB, b, vb, k, LexLess);
    }
  }

  /** The flag loop over the merged entries. */
  method ClassifyAll(merged: seq<DayEntry>, digest: Page -> string) returns (flags: seq<Flags>)
    ensures |flags| == |merged|
    ensures forall k :: 0 <= k < |merged| ==> flags[k] == Classify(merged[k], digest)
  {
    flags := [];
    for k := 0 to |merged|
      invariant |flags| == k
      invariant forall j :: 0 <= j < k ==> flags[j] == Classify(merged[j], digest)
    {
      flags := flags + [Classify(merged[k], digest)];
    }
  }

  // ---------------------------------------------------------------------------
  // Pagination enforcement

  /** `hrefs.map(normalizeUrlToKey).filter(x => x != null)` */
  function LinkKeys(hrefs: seq<string>): (ks: seq<string>)
    ensures forall k :: k in ks <==> exists h :: h in hrefs && NormalizeUrlToKey(h) == Some(k)
  {
    if hrefs == [] then []
    else
      var rest := LinkKeys(hrefs[1..]);
      assert hrefs == [hrefs[0]] + hrefs[1..];
      var key := NormalizeUrlToKey(hrefs[0]);
      if key.Some? then [key.value] + rest else rest
  }

  predicate Distinct(s: seq<string>) {
    forall i, j :: 0 <= i < j < |s| ==> s[i] != s[j]
  }

  /** `Array.from(new Set(s))`: the distinct elements, first occurrences first. */
  function Dedup(s: seq<string>): (d: seq<string>)
    ensures Distinct(d)
    ensures forall x :: x in d <==> x in s
  {
    if s == [] then []
    else
      var init := Dedup(s[..|s| - 1]);
      var x := s[|s| - 1];
      assert s == s[..|s| - 1] + [x];
      if x in init then init else init + [x]
  }

  /** `neighbour && normalizeUrlToKey(neighbour)`: the key the neighbour's links
      should name. (A date is never empty, and `""` and `null` compare alike
      below, since no link key is empty.) */
  function NeighbourKey(n: Option<string>): Option<string> {
    if n.Some? then NormalizeUrlToKey(n.value) else None
  }

  /** `links.length != Boolean(href) || links.some(h => h != href)` */
  predicate LinksDisagree(links: seq<string>, href: Option<string>) {
    || |links| != (if href.Some? then 1 else 0)
    || exists h :: h in links && Some(h) != href
  }

  /** The keys named by the page's links of one class, as a set. */
  function LinkKeySet(page: Page, d: Direction): set<string> {
    set k | k in LinkKeys(Hrefs(page.links, d))
  }

  /** The set of keys those links should name: the neighbour's key, or none. */
  function ExpectedKeys(n: Option<string>): set<string> {
    if NeighbourKey(n).Some? then {NeighbourKey(n).value} else {}
  }

  /** The test of the enforcement loop on the page `value_b || value_a`. */
  predicate NeedsRepagination(e: DayEntry, page: Page) {
    var pagination := GetPagination(page);
    || LinksDisagree(Dedup(LinkKeys(pagination.next)), NeighbourKey(e.next))
    || LinksDisagree(Dedup(LinkKeys(pagination.prev)), NeighbourKey(e.prev))
  }

  /** Distinct link keys disagree with the expected link exactly when they are
      not the expected set. */
  lemma DisagreeIffOtherSet(links: seq<string>, href: Option<string>)
    requires Distinct(links)
    ensures LinksDisagree(links, href) <==>
      (set k | k in links) != (if href.Some? then {href.value} else {})
  {
    var found := set k | k in links;
    if href.None? {
      if links != [] {
        assert links[0] in found;
      }
    } else {
      var v := href.value;
      if !LinksDisagree(links, href) {
        assert |links| == 1 && links[0] in links;
        assert links == [links[0]] && links[0] == v;
        assert found == {v};
      }
      if found == {v} {
        DistinctCardinality(links);
        assert |links| == 1 && links[0] in found;
      }
    }
  }

  /** A sequence without repeats has as many elements as its set. */
  lemma {:induction false} DistinctCardinality(s: seq<string>)
    requires Distinct(s)
    ensures |set k | k in s| == |s|
  {
    if s != [] {
      var init, x := s[..|s| - 1], s[|s| - 1];
      assert s == init + [x];
      DistinctCardinality(init);
      assert (set k | k in s) == (set k | k in init) + {x};
    }
  }

  /** A page is flagged exactly when the keys its `prev` or `next` links name,
      as a set, are not the one key of that neighbour (none when it is null). */
  lemma NeedsRepaginationIffLinkSetsDiffer(e: DayEntry, page: Page)
    ensures NeedsRepagination(e, page) <==>
      || LinkKeySet(page, Next) != ExpectedKeys(e.next)
      || LinkKeySet(page, Prev) != ExpectedKeys(e.prev)
  {
    var pagination := GetPagination(page);
    var nextKeys, prevKeys := LinkKeys(pagination.next), LinkKeys(pagination.prev);
    DisagreeIffOtherSet(Dedup(nextKeys), NeighbourKey(e.next));
    DisagreeIffOtherSet(Dedup(prevKeys), NeighbourKey(e.prev));
    DedupSet(nextKeys);
    DedupSet(prevKeys);
  }

  lemma DedupSet(s: seq<string>)
    ensures (set k | k in Dedup(s)) == (set k | k in s)
  {
    var d := Dedup(s);
    assert forall k :: k in d <==> k in s;
  }

  /** The flags after a flagged page: the side the page came from is marked as
      needing pagination, and so are the summary flags. */
  function Repaginate(e: DayEntry, f: Flags): (f': Flags)
    ensures Consistent(f) ==> Consistent(f')
    ensures f'.isNewPage == f.isNewPage && f'.isHashUpdate == f.isHashUpdate
    ensures f'.isUpdate && f'.isContentUpdate && f'.isPaginationUpdate
  {
    var g := f.(isUpdate := true, isContentUpdate := true, isPaginationUpdate := true);
    if e.sideB.value.Some? then g.(isBPaginationUpdate := true) else g.(isAPaginationUpdate := true)
  }

  /** The enforcement loop, run when `enforce_pagination` is set. */
  method Enforce(merged: seq<DayEntry>, flags: seq<Flags>) returns (flags': seq<Flags>)
    requires |flags| == |merged|
    requires PagesPresent(merged)
    ensures |flags'| == |flags|
    ensures forall k :: 0 <= k < |merged| ==>
      flags'[k] == if NeedsRepagination(merged[k], PageFile(merged[k]).value.content)
                   then Repaginate(merged[k], flags[k]) else flags[k]
  {
    flags' := flags;
    for k := 0 to |merged|
      invariant |flags'| == |flags|
      invariant forall j :: 0 <= j < k ==>
        flags'[j] == if NeedsRepagination(merged[j], PageFile(merged[j]).value.content)
                     then Repaginate(merged[j], flags[j]) else flags[j]
      invariant forall j :: k <= j < |merged| ==> flags'[j] == flags[j]
    {
      var stale := CheckPagination(merged[k], PageFile(merged[k]).value.content);
      if stale {
        flags' := flags'[k := Repaginate(merged[k], flags'[k])];
      }
    }
  }

  /** One turn's test in the enforcement loop: the page's deduplicated link keys
      of each class against the neighbour's key. */
  method CheckPagination(e: DayEntry, page: Page) returns (stale: bool)
    ensures stale == NeedsRepagination(e, page)
  {
    var pagination := GetPagination(page);
    var nextLinks := Dedup(LinkKeys(pagination.next));
    var prevLinks := Dedup(LinkKeys(pagination.prev));
    var prevHref := NeighbourKey(e.prev);
    var nextHref := NeighbourKey(e.next);
    stale := LinksDisagree(nextLinks, nextHref) || LinksDisagree(prevLinks, prevHref);
  }

  /** The flags of an entry after the flag loop and, when `enforce_pagination`
      is set, the enforcement loop: those of `Classify`, with the pagination
      flags added to a page whose links disagree with its neighbours. The
      second pass only ever adds flags. */
  function EntryFlags(e: DayEntry, digest: Page -> string, enforce: bool): (f: Flags)
    requires PageFile(e).Some?
    ensures Consistent(f)
    ensures f.isNewPage == Classify(e, digest).isNewPage && f.isHashUpdate == Classify(e, digest).isHashUpdate
    ensures Classify(e, digest).isUpdate ==> f.isUpdate
    ensures f.isPaginationUpdate <==>
      Classify(e, digest).isPaginationUpdate || (enforce && NeedsRepagination(e, PageFile(e).value.content))
  {
    var f := Classify(e, digest);
    if enforce && NeedsRepagination(e, PageFile(e).value.content) then Repaginate(e, f) else f
  }

  // ---------------------------------------------------------------------------
  // Materialising updates and pruning

  /** The content an entry's page is written with: its links aimed at the
      entry's chain neighbours when pagination is enforced or the entry is
      flagged for it, the page as built otherwise. */
  function Rendered(e: DayEntry, f: Flags, enforce: bool): Page
    requires PageFile(e).Some?
  {
    var original := PageFile(e).value.content;
    if enforce || f.isPaginationUpdate then UpdatePagination(original, e.prev, e.next) else original
  }

  /** A rendered page is the page as built or the page with its links
      retargeted; when pagination is enforced or flagged and no anchor has both
      classes, every link of a direction with a neighbour names that
      neighbour's URL. */
  lemma RenderedSettles(e: DayEntry, f: Flags, enforce: bool)
    requires PageFile(e).Some?
    ensures var p, r := PageFile(e).value.content, Rendered(e, f, enforce);
      && (r == p || r == UpdatePagination(p, e.prev, e.next))
      && ((enforce || f.isPaginationUpdate) && NoDualLinks(p) ==>
            && (e.prev.Some? ==> Settled(r, Prev, NormalizeKeyToUrl(e.prev.value)))
            && (e.next.Some? ==> Settled(r, Next, NormalizeKeyToUrl(e.next.value))))
  {
    if NoDualLinks(PageFile(e).value.content) {
      UpdatePaginationSettles(PageFile(e).value.content, e.prev, e.next);
    }
  }

  /** What one entry writes into `static_pages`, if anything, as the source
      does it: only an update (every entry when forcing), and of the updates
      only a new page or one whose rendering changed it. */
  function Publish(e: DayEntry, f: Flags, force: bool, enforce: bool): (w: Option<(string, Page)>)
    requires PageFile(e).Some?
    ensures w.Some? ==> w.value == (PageFile(e).value.key, Rendered(e, f, enforce))
    ensures force || (f.isUpdate && f.isNewPage) ==> w.Some?
    ensures !force && !f.isNewPage ==>
      (w.Some? <==> f.isUpdate && Rendered(e, f, enforce) != PageFile(e).value.content)
  {
    if !(force || f.isUpdate) then None
    else
      var page := PageFile(e).value;
      var content := Rendered(e, f, enforce);
      if force || content != page.content || f.isNewPage then Some((page.key, content)) else None
  }

  /** `Publish` as evidently intended: every update (every entry when forcing)
      is written, rendered the same way; pruning then drops what equals the
      published file. */
  function PublishCorrected(e: DayEntry, f: Flags, force: bool, enforce: bool): (w: Option<(string, Page)>)
    requires PageFile(e).Some?
    ensures w.Some? <==> force || f.isUpdate
    ensures w.Some? ==> w.value == (PageFile(e).value.key, Rendered(e, f, enforce))
  {
    if force || f.isUpdate then Some((PageFile(e).value.key, Rendered(e, f, enforce))) else None
  }

  /** `Publish`, or `PublishCorrected` when `corrected` is set. */
  function PublishAs(e: DayEntry, f: Flags, force: bool, enforce: bool, corrected: bool): Option<(string, Page)>
    requires PageFile(e).Some?
  {
    if corrected then PublishCorrected(e, f, force, enforce) else Publish(e, f, force, enforce)
  }

  /** The keys of the entries' page files. */
  function PageKeys(merged: seq<DayEntry>): set<string> {
    set i | 0 <= i < |merged| && PageFile(merged[i]).Some? :: PageFile(merged[i]).value.key
  }

  /** Distinct entries have distinct page keys. */
  predicate DistinctPageKeys(merged: seq<DayEntry>)
    requires PagesPresent(merged)
  {
    forall i, j :: 0 <= i < j < |merged| ==> PageFile(merged[i]).value.key != PageFile(merged[j]).value.key
  }

  /** `static_pages` after every entry has been published. */
  function Materialised(merged: seq<DayEntry>, flags: seq<Flags>, statics: map<string, Page>,
                        force: bool, enforce: bool, corrected: bool): map<string, Page>
    requires |flags| == |merged| && PagesPresent(merged)
  {
    if merged == [] then statics
    else
      var n := |merged| - 1;
      var before := Materialised(merged[..n], flags[..n], statics, force, enforce, corrected);
      match PublishAs(merged[n], flags[n], force, enforce, corrected)
      case None => before
      case Some((key, content)) => before[key := content]
  }

  /** Publishing only adds the entries' page keys and overwrites nothing else. */
  lemma {:induction false} MaterialisedKeys(merged: seq<DayEntry>, flags: seq<Flags>, statics: map<string, Page>,
                                            force: bool, enforce: bool, corrected: bool)
    requires |flags| == |merged| && PagesPresent(merged)
    ensures var m := Materialised(merged, flags, statics, force, enforce, corrected);
      && (forall k :: k in statics ==> k in m)
      && (forall k :: k in m ==> k in statics || k in PageKeys(merged))
      && (forall k :: k in statics && k !in PageKeys(merged) ==> m[k] == statics[k])
  {
    if merged != [] {
      var n := |merged| - 1;
      MaterialisedKeys(merged[..n], flags[..n], statics, force, enforce, corrected);
      forall k | k in PageKeys(merged[..n])
        ensures k in PageKeys(merged)
      {
        var i :| 0 <= i < n && PageFile(merged[..n][i]).Some? && PageFile(merged[..n][i]).value.key == k;
        assert merged[..n][i] == merged[i];
      }
      assert PageFile(merged[n]).value.key in PageKeys(merged);
    }
  }

  /** Every entry that publishes something ends up under its page's key. */
  lemma {:induction false} MaterialisedPublishes(merged: seq<DayEntry>, flags: seq<Flags>, statics: map<string, Page>,
                                                 force: bool, enforce: bool, corrected: bool, i: nat)
    requires |flags| == |merged| && PagesPresent(merged)
    requires i < |merged| && PublishAs(merged[i], flags[i], force, enforce, corrected).Some?
    ensures PageFile(merged[i]).value.key in Materialised(merged, flags, statics, force, enforce, corrected)
  {
    var n := |merged| - 1;
    if i < n {
      MaterialisedPublishes(merged[..n], flags[..n], statics, force, enforce, corrected, i);
      assert merged[..n][i] == merged[i] && flags[..n][i] == flags[i];
    }
  }

  /** With distinct page keys, an entry's key ends up holding what that entry
      wrote, or, when it wrote nothing, whatever `statics` held there. */
  lemma {:induction false} MaterialisedAt(merged: seq<DayEntry>, flags: seq<Flags>, statics: map<string, Page>,
                                          force: bool, enforce: bool, corrected: bool, k: nat)
    requires |flags| == |merged| && PagesPresent(merged) && DistinctPageKeys(merged)
    requires k < |merged|
    ensures var key, w := PageFile(merged[k]).value.key, PublishAs(merged[k], flags[k], force, enforce, corrected);
      var m := Materialised(merged, flags, statics, force, enforce, corrected);
      && (w.Some? ==> key in m && m[key] == w.value.1)
      && (w.None? ==> (key in m <==> key in statics) && (key in statics ==> m[key] == statics[key]))
  {
    var n := |merged| - 1;
    var prefix, pflags := merged[..n], flags[..n];
    var key := PageFile(merged[k]).value.key;
    var before := Materialised(prefix, pflags, statics, force, enforce, corrected);
    var last := PublishAs(merged[n], flags[n], force, enforce, corrected);
    assert Materialised(merged, flags, statics, force, enforce, corrected)
        == if last.Some? then before[last.value.0 := last.value.1] else before;
    if k < n {
      assert prefix[k] == merged[k] && pflags[k] == flags[k];
      PrefixDistinct(merged, n);
      MaterialisedAt(prefix, pflags, statics, force, enforce, corrected, k);
      assert last.Some? ==> last.value.0 == PageFile(merged[n]).value.key != key;
    } else {
      MaterialisedKeys(prefix, pflags, statics, force, enforce, corrected);
    }
  }

  lemma PrefixDistinct(merged: seq<DayEntry>, n: nat)
    requires PagesPresent(merged) && DistinctPageKeys(merged) && n <= |merged|
    ensures PagesPresent(merged[..n]) && DistinctPageKeys(merged[..n])
  {
    assert forall i :: 0 <= i < n ==> merged[..n][i] == merged[i];
  }

  /** The publishing pass (run concurrently in the source, on distinct keys). */
  method Materialise(merged: seq<DayEntry>, flags: seq<Flags>, statics0: map<string, Page>, force: bool, enforce: bool)
    returns (statics: map<string, Page>)
    requires |flags| == |merged| && PagesPresent(merged)
    ensures statics == Materialised(merged, flags, statics0, force, enforce, false)
  {
    statics := statics0;
    for i := 0 to |merged|
      invariant statics == Materialised(merged[..i], flags[..i], statics0, force, enforce, false)
    {
      assert merged[..i + 1][..i] == merged[..i] && flags[..i + 1][..i] == flags[..i];
      var published := Publish(merged[i], flags[i], force, enforce);
      if published.Some? {
        statics := statics[published.value.0 := published.value.1];
      }
    }
    assert merged[..|merged|] == merged && flags[..|flags|] == flags;
  }

  /** `static_pages` without the entries equal to the published file of that key. */
  function Pruned(statics: map<string, Page>, existing: map<string, SiteFile>): (m: map<string, Page>)
  {
    map k | k in statics && !(k in existing && existing[k].content == statics[k]) :: statics[k]
  }

  /** The pruning loop, run unless forcing. */
  method Prune(statics: map<string, Page>, existing: map<string, SiteFile>) returns (out: map<string, Page>)
    ensures out == Pruned(statics, existing)
  {
    out := statics;
    var keys := statics.Keys;
    while keys != {}
      invariant keys <= statics.Keys
      invariant forall k :: k in out <==> k in statics && (k in keys || !(k in existing && existing[k].content == statics[k]))
      invariant forall k :: k in out ==> out[k] == statics[k]
      decreases |keys|
    {
      var key :| key in keys;
      if key in existing && out[key] == existing[key].content {
        out := out - {key};
      }
      keys := keys - {key};
    }
  }

  // ---------------------------------------------------------------------------
  // The whole pass, as a function of the two builds

  /** The contents of a file dictionary. */
  function Contents(files: map<string, SiteFile>): map<string, Page> {
    map k | k in files :: files[k].content
  }

  /** `static_pages` before the day pages are written: every old file when
      forcing, with the new files that carry no date over them. */
  function Seeded(oldFiles: seq<SiteFile>, newFiles: seq<SiteFile>, force: bool): map<string, Page> {
    (if force then Contents(ByKey(oldFiles)) else map[]) + StaticFiles(newFiles)
  }

  /** The flags of every entry. */
  function FlagsOf(merged: seq<DayEntry>, digest: Page -> string, enforce: bool): seq<Flags>
    requires PagesPresent(merged)
  {
    seq(|merged|, k requires 0 <= k < |merged| => EntryFlags(merged[k], digest, enforce))
  }

  /** What `incrementBetweenBuilds` returns when `merged` is the merge of the two
      builds' day pages; `corrected` puts `PublishCorrected` in place of `Publish`. */
  function Uploads(oldFiles: seq<SiteFile>, newFiles: seq<SiteFile>, merged: seq<DayEntry>, options: Options,
                   digest: Page -> string, corrected: bool): map<string, Page>
    requires PagesPresent(merged)
  {
    var force, enforce := Force(options), EnforcePagination(options);
    var published := Materialised(merged, FlagsOf(merged, digest, enforce), Seeded(oldFiles, newFiles, force),
                                  force, enforce, corrected);
    if force then published else Pruned(published, ByKey(oldFiles))
  }

  /** A set of strings in string order. */
  ghost function SortedSet(m: set<string>): (s: seq<string>)
    ensures StrictlySorted(s, LexLess) && forall x :: x in s <==> x in m
    decreases |m|
  {
    if m == {} then []
    else
      var x :| x in m;
      Insert(SortedSet(m - {x}), x)
  }

  /** A build's dates in string order. */
  ghost function DateList(files: seq<SiteFile>): (s: seq<string>)
    ensures StrictlySorted(s, LexLess) && forall x :: x in s <==> x in ByDate(files)
  {
    SortedSet(ByDate(files).Keys)
  }

  /** `merged` is the merge of the two builds' day pages by date. */
  ghost predicate DayMerge(oldFiles: seq<SiteFile>, newFiles: seq<SiteFile>, merged: seq<DayEntry>) {
    var a, b := DateList(oldFiles), DateList(newFiles);
    && MergeOf(merged, a, b, LookUp(a, ByDate(oldFiles)), LookUp(b, ByDate(newFiles)), LexLess)
    && PagesPresent(merged)
  }

  /** The sorted keys of a map are its date list. */
  lemma SameDateList(keys: seq<string>, files: seq<SiteFile>)
    requires StrictlySorted(keys, LexLess) && forall x :: x in keys <==> x in ByDate(files)
    ensures keys == DateList(files)
  {
    LexLessIsStrictTotalOrder();
    SortedUnique(keys, DateList(files), LexLess);
  }

  /** What a day merge holds: each entry carries the files of its date, keyed
      by that date; every date of either build has an entry; page keys differ. */
  lemma DayMergeFacts(oldFiles: seq<SiteFile>, newFiles: seq<SiteFile>, merged: seq<DayEntry>)
    requires DayMerge(oldFiles, newFiles, merged)
    ensures forall k :: 0 <= k < |merged| ==>
      && merged[k].sideA.value == (if merged[k].index in ByDate(oldFiles) then Some(ByDate(oldFiles)[merged[k].index]) else None)
      && merged[k].sideB.value == (if merged[k].index in ByDate(newFiles) then Some(ByDate(newFiles)[merged[k].index]) else None)
      && (merged[k].index in ByDate(oldFiles) || merged[k].index in ByDate(newFiles))
    ensures forall d :: d in ByDate(newFiles) ==> d in Indices(merged)
    ensures forall k :: 0 <= k < |merged| ==>
      && DateOfKey(PageFile(merged[k]).value.key) == Some(merged[k].index)
      && (PageFile(merged[k]).value.key in ByKey(oldFiles) || PageFile(merged[k]).value.key in ByKey(newFiles))
    ensures DistinctPageKeys(merged)
  {
    var a, b := DateList(oldFiles), DateList(newFiles);
    EntriesCarryFiles(merged, a, b, ByDate(oldFiles), ByDate(newFiles));
    forall k | 0 <= k < |merged|
      ensures merged[k].index in ByDate(oldFiles) || merged[k].index in ByDate(newFiles)
    {
      assert Indices(merged)[k] in Indices(merged);
    }
    DayPagesAreKeyed(merged, oldFiles, newFiles);
    forall i, j | 0 <= i < j < |merged|
      ensures PageFile(merged[i]).value.key != PageFile(merged[j]).value.key
    {
      assert LexLess(Indices(merged)[i], Indices(merged)[j]);
      LexLessIrreflexive(merged[i].index);
    }
  }

  // ---------------------------------------------------------------------------
  // The whole pass

  /** Every merge entry carries its side's day page, and the page file keyed by
      its date. */
  lemma EntriesCarryFiles(merged: seq<DayEntry>, a: seq<string>, b: seq<string>,
                          before: map<string, SiteFile>, after: map<string, SiteFile>)
    requires forall x :: x in a <==> x in before
    requires forall x :: x in b <==> x in after
    requires MergeOf(merged, a, b, LookUp(a, before), LookUp(b, after), LexLess)
    ensures forall k :: 0 <= k < |merged| ==>
      && merged[k].sideA.value == (if merged[k].index in before then Some(before[merged[k].index]) else None)
      && merged[k].sideB.value == (if merged[k].index in after then Some(after[merged[k].index]) else None)
  {
    forall k | 0 <= k < |merged|
      ensures merged[k].sideA.value == (if merged[k].index in before then Some(before[merged[k].index]) else None)
      ensures merged[k].sideB.value == (if merged[k].index in after then Some(after[merged[k].index]) else None)
    {
      assert merged[k].Side(SideA) == SideOf(a, LookUp(a, before), merged[k].index);
      assert merged[k].Side(SideB) == SideOf(b, LookUp(b, after), merged[k].index);
    }
  }

  /** The sorted date lists of both builds and their merge. */
  method MergeDays(daysOld: map<string, SiteFile>, daysNew: map<string, SiteFile>)
    returns (oldKeys: seq<string>, newKeys: seq<string>, merged: seq<DayEntry>)
    requires forall d :: d in daysOld ==> exists e :: e in daysNew && !LexLess(e, d)
    ensures StrictlySorted(oldKeys, LexLess) && forall x :: x in oldKeys <==> x in daysOld
    ensures StrictlySorted(newKeys, LexLess) && forall x :: x in newKeys <==> x in daysNew
    ensures MergeOf(merged, oldKeys, newKeys, LookUp(oldKeys, daysOld), LookUp(newKeys, daysNew), LexLess)
    ensures forall k :: 0 <= k < |merged| ==>
      && merged[k].sideA.value == (if merged[k].index in daysOld then Some(daysOld[merged[k].index]) else None)
      && merged[k].sideB.value == (if merged[k].index in daysNew then Some(daysNew[merged[k].index]) else None)
      && (merged[k].index in daysOld || merged[k].index in daysNew)
  {
    oldKeys := SortedKeys(daysOld);
    newKeys := SortedKeys(daysNew);
    LexLessIsStrictTotalOrder();
    LastReaches(oldKeys, newKeys, daysNew);
    merged := MergeIndexedLookUp(oldKeys, newKeys, daysOld, daysNew, LexLess);
    EntriesCarryFiles(merged, oldKeys, newKeys, daysOld, daysNew);
  }

  /** The flag loop, then the enforcement loop when `enforce_pagination` is set. */
  method FlagEntries(merged: seq<DayEntry>, digest: Page -> string, enforce: bool) returns (flags: seq<Flags>)
    requires PagesPresent(merged)
    ensures flags == FlagsOf(merged, digest, enforce)
  {
    flags := ClassifyAll(merged, digest);
    if enforce {
      flags := Enforce(merged, flags);
    }
  }

  /** `incrementBetweenBuilds(old_files, new_files, options)`: the files to
      upload, by key, computed on the merge of the two builds' day pages. */
  method IncrementBetweenBuilds(oldFiles: seq<SiteFile>, newFiles: seq<SiteFile>, options: Options,
                                digest: Page -> string)
    returns (out: map<string, Page>)
    requires NewDatesReachOld(oldFiles, newFiles)
    ensures exists merged :: DayMerge(oldFiles, newFiles, merged)
                             && out == Uploads(oldFiles, newFiles, merged, options, digest, false)
  {
    var force := Force(options);
    var enforce := EnforcePagination(options);

    var existing, daysOld, statics := IndexOld(oldFiles, force);
    var daysNew, statics1 := IndexNew(newFiles, statics);
    SeededAs(oldFiles, newFiles, force, statics, statics1);

    var oldKeys, newKeys, days := MergeDays(daysOld, daysNew);
    SameDateList(oldKeys, oldFiles);
    SameDateList(newKeys, newFiles);
    DayPagesAreKeyed(days, oldFiles, newFiles);
    var flags := FlagEntries(days, digest, enforce);

    var published := Materialise(days, flags, statics1, force, enforce);
    if force {
      out := published;
    } else {
      out := Prune(published, existing);
    }
    assert DayMerge(oldFiles, newFiles, days) && out == Uploads(oldFiles, newFiles, days, options, digest, false);
  }

  /** The first two loops leave `static_pages` as `Seeded` says. */
  lemma SeededAs(oldFiles: seq<SiteFile>, newFiles: seq<SiteFile>, force: bool,
                 statics: map<string, Page>, statics1: map<string, Page>)
    requires forall k :: k in statics <==> force && k in ByKey(oldFiles)
    requires forall k :: k in statics ==> statics[k] == ByKey(oldFiles)[k].content
    requires statics1 == statics + StaticFiles(newFiles)
    ensures statics1 == Seeded(oldFiles, newFiles, force)
  {
    assert statics == if force then Contents(ByKey(oldFiles)) else map[];
  }

  /** What the pass guarantees of its output: every key is an old or a new
      file's; unless forcing, nothing equal to the file already published;
      when forcing, every old file again; every new file without a date as
      built, unless that is already published; and the page of every date
      new to the site. */
  lemma UploadsGuarantees(oldFiles: seq<SiteFile>, newFiles: seq<SiteFile>, merged: seq<DayEntry>,
                          options: Options, digest: Page -> string, corrected: bool)
    requires DayMerge(oldFiles, newFiles, merged)
    ensures var out := Uploads(oldFiles, newFiles, merged, options, digest, corrected);
      && (forall k :: k in out ==> k in ByKey(oldFiles) || k in ByKey(newFiles))
      && (!Force(options) ==>
            forall k :: k in out && k in ByKey(oldFiles) ==> out[k] != ByKey(oldFiles)[k].content)
      && (Force(options) ==> forall f :: f in oldFiles ==> f.key in out)
      && (forall k :: k in StaticFiles(newFiles) ==>
            || (k in out && out[k] == StaticFiles(newFiles)[k])
            || (!Force(options) && k in ByKey(oldFiles) && ByKey(oldFiles)[k].content == StaticFiles(newFiles)[k]))
      && (forall d :: d in ByDate(newFiles) && d !in ByDate(oldFiles) ==> ByDate(newFiles)[d].key in out)
  {
    var force, enforce := Force(options), EnforcePagination(options);
    var flags := FlagsOf(merged, digest, enforce);
    var statics: map<string, Page> := if force then Contents(ByKey(oldFiles)) else map[];
    var statics1 := Seeded(oldFiles, newFiles, force);
    var published := Materialised(merged, flags, statics1, force, enforce, corrected);
    var out := Uploads(oldFiles, newFiles, merged, options, digest, corrected);
    assert out == if force then published else Pruned(published, ByKey(oldFiles));
    DayMergeFacts(oldFiles, newFiles, merged);
    MaterialisedKeys(merged, flags, statics1, force, enforce, corrected);
    PageKeysAreDayPages(merged, oldFiles, newFiles);
    Outputs(oldFiles, newFiles, force, statics, statics1, PageKeys(merged), published, out);
    NewDatesUploaded(oldFiles, newFiles, merged, options, digest, corrected);
  }

  /** The page of every date new to the site is uploaded. */
  lemma NewDatesUploaded(oldFiles: seq<SiteFile>, newFiles: seq<SiteFile>, merged: seq<DayEntry>,
                         options: Options, digest: Page -> string, corrected: bool)
    requires DayMerge(oldFiles, newFiles, merged)
    ensures forall d :: d in ByDate(newFiles) && d !in ByDate(oldFiles) ==>
      ByDate(newFiles)[d].key in Uploads(oldFiles, newFiles, merged, options, digest, corrected)
  {
    var force, enforce := Force(options), EnforcePagination(options);
    var flags := FlagsOf(merged, digest, enforce);
    var statics1 := Seeded(oldFiles, newFiles, force);
    var published := Materialised(merged, flags, statics1, force, enforce, corrected);
    DayMergeFacts(oldFiles, newFiles, merged);
    NewDatesPublished(merged, flags, DateList(newFiles), ByDate(oldFiles), ByDate(newFiles), statics1,
                      force, enforce, corrected);
    forall d | d in ByDate(newFiles) && d !in ByDate(oldFiles)
      ensures ByDate(newFiles)[d].key in Uploads(oldFiles, newFiles, merged, options, digest, corrected)
    {
      KeyOfNewDate(oldFiles, ByDate(newFiles)[d].key, d);
    }
  }

  /** A file dated `d` has no old file under its key when no old file is dated `d`. */
  lemma KeyOfNewDate(oldFiles: seq<SiteFile>, key: string, d: string)
    requires DateOfKey(key) == Some(d) && d !in ByDate(oldFiles)
    ensures key !in ByKey(oldFiles)
  {
  }

  /** What the last two phases guarantee, from what the earlier ones established. */
  lemma Outputs(oldFiles: seq<SiteFile>, newFiles: seq<SiteFile>, force: bool,
                statics: map<string, Page>, statics1: map<string, Page>, pageKeys: set<string>,
                published: map<string, Page>, out: map<string, Page>)
    requires forall k :: k in statics <==> force && k in ByKey(oldFiles)
    requires statics1 == statics + StaticFiles(newFiles)
    requires forall k :: k in pageKeys ==> DateOfKey(k).Some? && (k in ByKey(oldFiles) || k in ByKey(newFiles))
    requires forall k :: k in statics1 ==> k in published
    requires forall k :: k in published ==> k in statics1 || k in pageKeys
    requires forall k :: k in statics1 && k !in pageKeys ==> published[k] == statics1[k]
    requires out == if force then published else Pruned(published, ByKey(oldFiles))
    ensures forall k :: k in out ==> k in ByKey(oldFiles) || k in ByKey(newFiles)
    ensures !force ==> forall k :: k in out && k in ByKey(oldFiles) ==> out[k] != ByKey(oldFiles)[k].content
    ensures force ==> forall f :: f in oldFiles ==> f.key in out
    ensures forall k :: k in StaticFiles(newFiles) ==>
      || (k in out && out[k] == StaticFiles(newFiles)[k])
      || (!force && k in ByKey(oldFiles) && ByKey(oldFiles)[k].content == StaticFiles(newFiles)[k])
  {
    if force {
      forall f | f in oldFiles
        ensures f.key in out
      {
        var i :| 0 <= i < |oldFiles| && oldFiles[i] == f;
        assert f.key in ByKey(oldFiles);
      }
    }
  }

  /** The entries' page keys are day-page keys of the old or new files. */
  lemma PageKeysAreDayPages(merged: seq<DayEntry>, oldFiles: seq<SiteFile>, newFiles: seq<SiteFile>)
    requires forall k :: 0 <= k < |merged| ==>
      && PageFile(merged[k]).Some?
      && DateOfKey(PageFile(merged[k]).value.key) == Some(merged[k].index)
      && (PageFile(merged[k]).value.key in ByKey(oldFiles) || PageFile(merged[k]).value.key in ByKey(newFiles))
    ensures forall k :: k in PageKeys(merged) ==> DateOfKey(k).Some? && (k in ByKey(oldFiles) || k in ByKey(newFiles))
  {
  }

  /** The page files of the entries: keyed by the entry's date, one of the old
      or new files. */
  lemma DayPagesAreKeyed(merged: seq<DayEntry>, oldFiles: seq<SiteFile>, newFiles: seq<SiteFile>)
    requires forall k :: 0 <= k < |merged| ==>
      && merged[k].sideA.value == (if merged[k].index in ByDate(oldFiles) then Some(ByDate(oldFiles)[merged[k].index]) else None)
      && merged[k].sideB.value == (if merged[k].index in ByDate(newFiles) then Some(ByDate(newFiles)[merged[k].index]) else None)
    requires forall k :: 0 <= k < |merged| ==> merged[k].index in ByDate(oldFiles) || merged[k].index in ByDate(newFiles)
    ensures PagesPresent(merged)
    ensures forall k :: 0 <= k < |merged| ==>
      && DateOfKey(PageFile(merged[k]).value.key) == Some(merged[k].index)
      && (PageFile(merged[k]).value.key in ByKey(oldFiles) || PageFile(merged[k]).value.key in ByKey(newFiles))
  {
  }

  /** An entry whose date only the new build has is published under its page's key. */
  lemma NewDatesPublished(merged: seq<DayEntry>, flags: seq<Flags>, b: seq<string>,
                          before: map<string, SiteFile>, after: map<string, SiteFile>,
                          statics: map<string, Page>, force: bool, enforce: bool, corrected: bool)
    requires |flags| == |merged| && PagesPresent(merged)
    requires forall x :: x in b <==> x in after
    requires forall x :: x in b ==> x in Indices(merged)
    requires forall k :: 0 <= k < |merged| ==>
      && merged[k].sideA.value == (if merged[k].index in before then Some(before[merged[k].index]) else None)
      && merged[k].sideB.value == (if merged[k].index in after then Some(after[merged[k].index]) else None)
    requires forall k :: 0 <= k < |merged| ==>
      Consistent(flags[k]) && (flags[k].isNewPage <==> merged[k].sideA.value.None? && merged[k].sideB.value.Some?)
    ensures forall d :: d in after && d !in before ==>
      after[d].key in Materialised(merged, flags, statics, force, enforce, corrected)
  {
    forall d | d in after && d !in before
      ensures after[d].key in Materialised(merged, flags, statics, force, enforce, corrected)
    {
      assert d in b;
      var k :| 0 <= k < |merged| && Indices(merged)[k] == d;
      assert flags[k].isNewPage;
      MaterialisedPublishes(merged, flags, statics, force, enforce, corrected, k);
    }
  }

  // ---------------------------------------------------------------------------
  // Properties of the whole pass

  /** Each day page is uploaded exactly when its entry writes it and, unless
      forcing, it differs from the file published under its key. What is
      uploaded is the page rendered for its entry: retargeted at the chain
      neighbours when pagination is enforced or flagged (otherwise as built),
      and then, with no anchor of both classes, naming exactly the
      neighbours' URLs. */
  lemma UploadedDayPage(oldFiles: seq<SiteFile>, newFiles: seq<SiteFile>, merged: seq<DayEntry>,
                        options: Options, digest: Page -> string, corrected: bool, k: nat)
    requires DayMerge(oldFiles, newFiles, merged) && k < |merged|
    ensures var e, force, enforce := merged[k], Force(options), EnforcePagination(options);
      var p, f := PageFile(e).value, EntryFlags(e, digest, enforce);
      var out, r := Uploads(oldFiles, newFiles, merged, options, digest, corrected), Rendered(e, f, enforce);
      && (p.key in out <==>
            && PublishAs(e, f, force, enforce, corrected).Some?
            && (force || !(p.key in ByKey(oldFiles) && ByKey(oldFiles)[p.key].content == r)))
      && (p.key in out ==> out[p.key] == r)
      && (p.key in out && (enforce || f.isPaginationUpdate) ==>
            out[p.key] == UpdatePagination(p.content, e.prev, e.next))
      && (p.key in out && !enforce && !f.isPaginationUpdate ==> out[p.key] == p.content)
      && (p.key in out && enforce && NoDualLinks(p.content) ==>
            && (e.prev.Some? ==> Settled(out[p.key], Prev, NormalizeKeyToUrl(e.prev.value)))
            && (e.next.Some? ==> Settled(out[p.key], Next, NormalizeKeyToUrl(e.next.value))))
  {
    var e, force, enforce := merged[k], Force(options), EnforcePagination(options);
    var flags := FlagsOf(merged, digest, enforce);
    var statics := Seeded(oldFiles, newFiles, force);
    DayMergeFacts(oldFiles, newFiles, merged);
    MaterialisedAt(merged, flags, statics, force, enforce, corrected, k);
    RenderedSettles(e, flags[k], enforce);
    assert !force ==> PageFile(e).value.key !in statics;
  }

  /** As written, the page of a date the site already has is not uploaded,
      whatever its content, when the run is not forced and its links already
      name its neighbours: a page whose content changed is flagged as a hash
      update, yet never written. */
  lemma UnchangedLinksNotUploaded(oldFiles: seq<SiteFile>, newFiles: seq<SiteFile>, merged: seq<DayEntry>,
                                  options: Options, digest: Page -> string, k: nat)
    requires DayMerge(oldFiles, newFiles, merged) && k < |merged| && !Force(options)
    requires merged[k].sideA.value.Some?
    requires var p := PageFile(merged[k]).value.content;
      UpdatePagination(p, merged[k].prev, merged[k].next) == p
    ensures Classify(merged[k], digest).isHashUpdate ==>
      EntryFlags(merged[k], digest, EnforcePagination(options)).isUpdate
    ensures PageFile(merged[k]).value.key !in Uploads(oldFiles, newFiles, merged, options, digest, false)
  {
    UploadedDayPage(oldFiles, newFiles, merged, options, digest, false, k);
    RenderedSettles(merged[k], EntryFlags(merged[k], digest, EnforcePagination(options)), EnforcePagination(options));
  }

  /** With `PublishCorrected`, every updated day page (a hash update among
      them) is uploaded as rendered, unless that very content is already
      published under its key. */
  lemma CorrectedUploadsUpdates(oldFiles: seq<SiteFile>, newFiles: seq<SiteFile>, merged: seq<DayEntry>,
                                options: Options, digest: Page -> string, k: nat)
    requires DayMerge(oldFiles, newFiles, merged) && k < |merged|
    requires EntryFlags(merged[k], digest, EnforcePagination(options)).isUpdate
    ensures var enforce := EnforcePagination(options);
      var p, r := PageFile(merged[k]).value, Rendered(merged[k], EntryFlags(merged[k], digest, enforce), enforce);
      var out := Uploads(oldFiles, newFiles, merged, options, digest, true);
      || (p.key in out && out[p.key] == r)
      || (!Force(options) && p.key in ByKey(oldFiles) && ByKey(oldFiles)[p.key].content == r)
  {
    UploadedDayPage(oldFiles, newFiles, merged, options, digest, true, k);
  }

  /** A forced run uploads every key an unforced run uploads. */
  lemma ForceSuperset(oldFiles: seq<SiteFile>, newFiles: seq<SiteFile>, merged: seq<DayEntry>,
                      unforced: Options, forced: Options, digest: Page -> string, corrected: bool)
    requires DayMerge(oldFiles, newFiles, merged)
    requires !Force(unforced) && Force(forced) && EnforcePagination(unforced) == EnforcePagination(forced)
    ensures Uploads(oldFiles, newFiles, merged, unforced, digest, corrected).Keys
            <= Uploads(oldFiles, newFiles, merged, forced, digest, corrected).Keys
  {
    var enforce := EnforcePagination(forced);
    var flags := FlagsOf(merged, digest, enforce);
    var s0, s1 := Seeded(oldFiles, newFiles, false), Seeded(oldFiles, newFiles, true);
    MaterialisedKeys(merged, flags, s0, false, enforce, corrected);
    MaterialisedKeys(merged, flags, s1, true, enforce, corrected);
    forall key | key in PageKeys(merged)
      ensures key in Materialised(merged, flags, s1, true, enforce, corrected)
    {
      var i :| 0 <= i < |merged| && PageFile(merged[i]).Some? && PageFile(merged[i]).value.key == key;
      MaterialisedPublishes(merged, flags, s1, true, enforce, corrected, i);
    }
  }

  /** The dictionaries of a one-file build. */
  lemma SingleFileMaps(f: SiteFile)
    ensures ByKey([f]) == map[f.key := f]
    ensures ByDate([f]) == if DateOfKey(f.key).Some? then map[DateOfKey(f.key).value := f] else map[]
    ensures StaticFiles([f]) == if DateOfKey(f.key).None? then map[f.key := f.content] else map[]
  {
    assert [f][..0] == [];
  }

  /** A strictly sorted sequence of copies of one string has at most one element. */
  lemma SortedOfOne(s: seq<string>, d: string)
    requires StrictlySorted(s, LexLess) && forall x :: x in s ==> x == d
    ensures |s| <= 1
  {
    if |s| > 1 {
      assert s[0] in s && s[1] in s;
      LexLessIrreflexive(d);
    }
  }

  /** The merge of a one-file build with itself: at most one entry, that file
      on both sides, without neighbours. */
  lemma SingleMerge(f: SiteFile, merged: seq<DayEntry>)
    requires DayMerge([f], [f], merged)
    ensures |merged| <= 1
    ensures |merged| == 1 ==>
      && merged[0].sideA.value == Some(f) && PageFile(merged[0]) == Some(f)
      && merged[0].prev.None? && merged[0].next.None?
  {
    SingleFileMaps(f);
    DayMergeFacts([f], [f], merged);
    var d := if DateOfKey(f.key).Some? then DateOfKey(f.key).value else "";
    assert forall x :: x in Indices(merged) ==> x in ByDate([f]);
    SortedOfOne(Indices(merged), d);
    if |merged| == 1 {
      assert LinkedAt(merged, 0);
    }
  }

  /** Pruning against files that already hold every output leaves nothing. */
  lemma PrunedAllPublished(m: map<string, Page>, existing: map<string, SiteFile>)
    requires forall k :: k in m ==> k in existing && existing[k].content == m[k]
    ensures Pruned(m, existing) == map[]
  {
  }

  /** Publishing the one entry of such a merge writes, if anything, that file as it is. */
  lemma SingleMaterialised(f: SiteFile, merged: seq<DayEntry>, flags: seq<Flags>, statics: map<string, Page>,
                           enforce: bool, corrected: bool)
    requires |flags| == |merged| <= 1 && PagesPresent(merged)
    requires |merged| == 1 ==>
      && merged[0].sideA.value.Some? && PageFile(merged[0]) == Some(f)
      && merged[0].prev.None? && merged[0].next.None?
    requires forall k :: k in statics ==> k == f.key && statics[k] == f.content
    ensures Materialised(merged, flags, statics, false, enforce, corrected).Keys <= {f.key}
    ensures f.key in Materialised(merged, flags, statics, false, enforce, corrected) ==>
      Materialised(merged, flags, statics, false, enforce, corrected)[f.key] == f.content
  {
    MaterialisedKeys(merged, flags, statics, false, enforce, corrected);
    if |merged| == 1 {
      assert PageKeys(merged) == {f.key};
      UpdatePaginationUnchanged(f.content, None, None);
      assert Rendered(merged[0], flags[0], enforce) == f.content;
      MaterialisedAt(merged, flags, statics, false, enforce, corrected, 0);
    } else {
      assert PageKeys(merged) == {};
    }
  }

  /** A build identical to the published site, of one page, uploads nothing
      unless forced. */
  lemma IdenticalSinglePageUploadsNothing(f: SiteFile, merged: seq<DayEntry>, options: Options,
                                          digest: Page -> string, corrected: bool)
    requires DayMerge([f], [f], merged) && !Force(options)
    ensures Uploads([f], [f], merged, options, digest, corrected) == map[]
  {
    var enforce := EnforcePagination(options);
    var flags := FlagsOf(merged, digest, enforce);
    var statics := Seeded([f], [f], false);
    SingleFileMaps(f);
    SingleMerge(f, merged);
    SingleMaterialised(f, merged, flags, statics, enforce, corrected);
    var m := Materialised(merged, flags, statics, false, enforce, corrected);
    PrunedAllPublished(m, map[f.key := f]);
  }

  /** A page whose one link has class `next` gets it aimed at day `d`. */
  lemma NextLinkRetargeted(h: string, t: string, d: string)
    requires IsDate(d) && h != "/" + d + "/"
    ensures UpdatePagination(Page([Link(false, true, Some(h))], t), None, Some(d))
         == Page([Link(false, true, Some("/" + d + "/"))], t)
  {
    DateKeysToUrls(d);
    var links := [Link(false, true, Some(h))];
    assert links[0].Has(Next);
    assert Retarget(links, Next, "/" + d + "/") == [Link(false, true, Some("/" + d + "/"))];
  }

  /** A page whose one link has class `prev` gets it aimed at day `d`. */
  lemma PrevLinkRetargeted(h: string, t: string, d: string)
    requires IsDate(d) && h != "/" + d + "/"
    ensures UpdatePagination(Page([Link(true, false, Some(h))], t), Some(d), None)
         == Page([Link(true, false, Some("/" + d + "/"))], t)
  {
    DateKeysToUrls(d);
    var links := [Link(true, false, Some(h))];
    assert links[0].Has(Prev);
    assert Retarget(links, Prev, "/" + d + "/") == [Link(true, false, Some("/" + d + "/"))];
  }

  /** A strictly sorted sequence holding exactly two strings lists them in order. */
  lemma TwoSortedDates(s: seq<string>, d1: string, d3: string)
    requires LexLess(d1, d3) && StrictlySorted(s, LexLess)
    requires forall x :: x in s <==> x == d1 || x == d3
    ensures s == [d1, d3]
  {
    LexLessIsStrictTotalOrder();
    assert StrictlySorted([d1, d3], LexLess);
    SortedUnique(s, [d1, d3], LexLess);
  }

  /** The merge of a one-page site with a one-page build of a later date:
      their dates in order. */
  lemma LaterDayDates(f1: SiteFile, f3: SiteFile, d1: string, d3: string, merged: seq<DayEntry>)
    requires IsDate(d1) && IsDate(d3) && LexLess(d1, d3)
    requires f1.key == d1 + "/index.html" && f3.key == d3 + "/index.html"
    requires DayMerge([f1], [f3], merged)
    ensures ByDate([f1]) == map[d1 := f1] && ByDate([f3]) == map[d3 := f3]
    ensures DateList([f1]) == [d1] && DateList([f3]) == [d3]
    ensures Indices(merged) == [d1, d3]
  {
    assert f1.key[..10] == d1 && f3.key[..10] == d3;
    SingleFileMaps(f1);
    SingleFileMaps(f3);
    SameDateList([d1], [f1]);
    SameDateList([d3], [f3]);
    TwoSortedDates(Indices(merged), d1, d3);
  }

  /** A merge of two one-key sides with different keys `d1` before `d3`. */
  lemma TwoEntryMerge<V>(merged: seq<Entry<string, V>>, a: seq<string>, b: seq<string>,
                         va: seq<Option<V>>, vb: seq<Option<V>>, d1: string, d3: string, v1: V, v3: V)
    requires a == [d1] && b == [d3] && va == [Some(v1)] && vb == [Some(v3)]
    requires d1 != d3 && Indices(merged) == [d1, d3]
    requires MergeOf(merged, a, b, va, vb, LexLess)
    ensures merged[0] == Entry(d1, None, Some(d3), SideLink(Some(v1), None, None), Unlinked())
    ensures merged[1] == Entry(d3, Some(d1), None, Unlinked(), SideLink(Some(v3), None, None))
  {
    assert LinkedAt(merged, 0) && LinkedAt(merged, 1);
    assert merged[0].index == d1 && merged[1].index == d3;
    assert Position([d1], d1) == 0 && Position([d3], d3) == 0;
    assert Position([d3], d1) == -1 && Position([d1], d3) == -1;
    assert merged[0].Side(SideA) == SideOf([d1], [Some(v1)], d1) == SideLink(Some(v1), None, None);
    assert merged[0].Side(SideB) == SideOf([d3], [Some(v3)], d1) == Unlinked();
    assert merged[1].Side(SideA) == SideOf([d1], [Some(v1)], d3) == Unlinked();
    assert merged[1].Side(SideB) == SideOf([d3], [Some(v3)], d3) == SideLink(Some(v3), None, None);
  }

  /** Its entries: the old day then the new one, each on its own side without
      side neighbours. */
  lemma LaterDayMerge(f1: SiteFile, f3: SiteFile, d1: string, d3: string, merged: seq<DayEntry>)
    requires IsDate(d1) && IsDate(d3) && LexLess(d1, d3)
    requires f1.key == d1 + "/index.html" && f3.key == d3 + "/index.html"
    requires DayMerge([f1], [f3], merged)
    ensures |merged| == 2
    ensures merged[0] == Entry(d1, None, Some(d3), SideLink(Some(f1), None, None), Unlinked())
    ensures merged[1] == Entry(d3, Some(d1), None, Unlinked(), SideLink(Some(f3), None, None))
  {
    var a, b := DateList([f1]), DateList([f3]);
    LaterDayDates(f1, f3, d1, d3, merged);
    assert LookUp(a, ByDate([f1])) == [Some(f1)];
    assert LookUp(b, ByDate([f3])) == [Some(f3)];
    LexLessIrreflexive(d1);
    TwoEntryMerge(merged, a, b, LookUp(a, ByDate([f1])), LookUp(b, ByDate([f3])), d1, d3, f1, f3);
  }

  /** A one-file site and a one-file build upload at most those two keys. */
  lemma TwoFileUploads(f1: SiteFile, f3: SiteFile, merged: seq<DayEntry>, options: Options, digest: Page -> string)
    requires DayMerge([f1], [f3], merged)
    ensures forall k :: k in Uploads([f1], [f3], merged, options, digest, false) ==> k == f1.key || k == f3.key
  {
    SingleFileMaps(f1);
    SingleFileMaps(f3);
    UploadsGuarantees([f1], [f3], merged, options, digest, false);
  }

  /** A map whose keys are among two given ones, holding both. */
  lemma MapOfTwo<K, V>(m: map<K, V>, k1: K, k3: K, v1: V, v3: V)
    requires forall k :: k in m ==> k == k1 || k == k3
    requires k1 in m && k3 in m && m[k1] == v1 && m[k3] == v3
    ensures m == map[k1 := v1, k3 := v3]
  {
  }

  /** In that merge the old page is flagged and uploaded with its `next` link
      aimed at the new day. */
  lemma LaterDayOldPage(f1: SiteFile, f3: SiteFile, d1: string, d3: string, h1: string, t1: string,
                        merged: seq<DayEntry>, options: Options, digest: Page -> string)
    requires IsDate(d1) && IsDate(d3) && LexLess(d1, d3) && h1 != "/" + d3 + "/"
    requires f1 == SiteFile(d1 + "/index.html", Page([Link(false, true, Some(h1))], t1))
    requires f3.key == d3 + "/index.html"
    requires DayMerge([f1], [f3], merged) && !Force(options)
    ensures var out := Uploads([f1], [f3], merged, options, digest, false);
      f1.key in out && out[f1.key] == Page([Link(false, true, Some("/" + d3 + "/"))], t1)
  {
    var enforce := EnforcePagination(options);
    LaterDayMerge(f1, f3, d1, d3, merged);
    SingleFileMaps(f1);
    NextLinkRetargeted(h1, t1, d3);
    assert Rendered(merged[0], EntryFlags(merged[0], digest, enforce), enforce)
        == Page([Link(false, true, Some("/" + d3 + "/"))], t1);
    UploadedDayPage([f1], [f3], merged, options, digest, false, 0);
  }

  /** In that merge the new page is uploaded with its `prev` link aimed at the
      old day. */
  lemma LaterDayNewPage(f1: SiteFile, f3: SiteFile, d1: string, d3: string, h3: string, t3: string,
                        merged: seq<DayEntry>, options: Options, digest: Page -> string)
    requires IsDate(d1) && IsDate(d3) && LexLess(d1, d3) && h3 != "/" + d1 + "/"
    requires f1.key == d1 + "/index.html"
    requires f3 == SiteFile(d3 + "/index.html", Page([Link(true, false, Some(h3))], t3))
    requires DayMerge([f1], [f3], merged) && !Force(options)
    ensures var out := Uploads([f1], [f3], merged, options, digest, false);
      f3.key in out && out[f3.key] == Page([Link(true, false, Some("/" + d1 + "/"))], t3)
  {
    var enforce := EnforcePagination(options);
    LaterDayMerge(f1, f3, d1, d3, merged);
    SingleFileMaps(f1);
    LexLessIrreflexive(d1);
    assert f1.key[..10] == d1 && f3.key[..10] == d3;
    PrevLinkRetargeted(h3, t3, d1);
    assert Rendered(merged[1], EntryFlags(merged[1], digest, enforce), enforce)
        == Page([Link(true, false, Some("/" + d1 + "/"))], t3);
    UploadedDayPage([f1], [f3], merged, options, digest, false, 1);
  }

  /** A site with one day page linking `next` to a day that is gone, and a build
      with one page of a later date linking `prev` to that same day: both pages
      are uploaded. The old page, whose side has no `next` while the chain's
      `next` is the new day, is flagged and gets its `next` link aimed at the new
      day; the new page gets its `prev` link aimed at the old day. */
  lemma LaterDayRelinksBoth(f1: SiteFile, f3: SiteFile, d1: string, d3: string, h1: string, h3: string,
                            t1: string, t3: string, merged: seq<DayEntry>, options: Options, digest: Page -> string)
    requires IsDate(d1) && IsDate(d3) && LexLess(d1, d3)
    requires h1 != "/" + d3 + "/" && h3 != "/" + d1 + "/"
    requires f1 == SiteFile(d1 + "/index.html", Page([Link(false, true, Some(h1))], t1))
    requires f3 == SiteFile(d3 + "/index.html", Page([Link(true, false, Some(h3))], t3))
    requires DayMerge([f1], [f3], merged) && !Force(options)
    ensures Uploads([f1], [f3], merged, options, digest, false)
         == map[f1.key := Page([Link(false, true, Some("/" + d3 + "/"))], t1),
                f3.key := Page([Link(true, false, Some("/" + d1 + "/"))], t3)]
  {
    LaterDayOldPage(f1, f3, d1, d3, h1, t1, merged, options, digest);
    LaterDayNewPage(f1, f3, d1, d3, h3, t3, merged, options, digest);
    TwoFileUploads(f1, f3, merged, options, digest);
    MapOfTwo(Uploads([f1], [f3], merged, options, digest, false), f1.key, f3.key,
             Page([Link(false, true, Some("/" + d3 + "/"))], t1), Page([Link(true, false, Some("/" + d1 + "/"))], t3));
  }

  /** The dates of the example, their keys and their URLs. */
  lemma NovemberDates()
    ensures IsDate("2023-11-01") && IsDate("2023-11-03") && LexLess("2023-11-01", "2023-11-03")
    ensures "2023-11-01" + "/index.html" == "2023-11-01/index.html"
    ensures "2023-11-03" + "/index.html" == "2023-11-03/index.html"
    ensures "/" + "2023-11-03" + "/" == "/2023-11-03/" && "/" + "2023-11-01" + "/" == "/2023-11-01/"
    ensures "/2023-11-02/" != "/2023-11-03/" && "/2023-11-02/" != "/2023-11-01/"
  {
    assert "2023-11-01"[8] == '0' && "2023-11-03"[9] == '3';
  }

  /** The same on the dates of the example: the site has `2023-11-01` linking
      `next` to `2023-11-02`, the build has `2023-11-03` linking `prev` to
      `2023-11-02`; both keys are uploaded, linking to each other. */
  lemma NovemberExample(t1: string, t3: string, merged: seq<DayEntry>, options: Options, digest: Page -> string)
    requires DayMerge([SiteFile("2023-11-01/index.html", Page([Link(false, true, Some("/2023-11-02/"))], t1))],
                      [SiteFile("2023-11-03/index.html", Page([Link(true, false, Some("/2023-11-02/"))], t3))], merged)
    requires !Force(options)
    ensures Uploads([SiteFile("2023-11-01/index.html", Page([Link(false, true, Some("/2023-11-02/"))], t1))],
                    [SiteFile("2023-11-03/index.html", Page([Link(true, false, Some("/2023-11-02/"))], t3))],
                    merged, options, digest, false)
         == map["2023-11-01/index.html" := Page([Link(false, true, Some("/2023-11-03/"))], t1),
                "2023-11-03/index.html" := Page([Link(true, false, Some("/2023-11-01/"))], t3)]
  {
    var d1, d3 := "2023-11-01", "2023-11-03";
    NovemberDates();
    LaterDayRelinksBoth(SiteFile("2023-11-01/index.html", Page([Link(false, true, Some("/2023-11-02/"))], t1)),
                        SiteFile("2023-11-03/index.html", Page([Link(true, false, Some("/2023-11-02/"))], t3)),
                        d1, d3, "/2023-11-02/", "/2023-11-02/", t1, t3, merged, options, digest);
  }
}
