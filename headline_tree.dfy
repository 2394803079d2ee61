/** The scraper's parse tree of the current-events portal (`headlines.js`):
    `EventPortalParseNode.generateHeadlines`, which flattens the tree into
    headline records, and the parts of `processCurrentEventDOM` that do not
    depend on the HTML library: the loop that pairs each list with the
    category name and link before it, the classification of a story's links,
    and the rule that turns a category named by a wiki link into a tag. */
module HeadlineTree {
  import opened Js
  import opened HeadlineDiff

  /** An `EventPortalParseNode`. A node whose `children` is null is a leaf,
      a story; the others are categories. (`element` and `parent` are not
      read by the flattening and are not modelled.) */
  datatype ParseNode = ParseNode(
    title: Option<string>,
    url: Option<string>,
    date: Option<string>,
    articleLinks: Option<seq<string>>,
    externalLinks: Option<seq<string>>,
    children: Children)

  /** A node's `children`: null for a leaf, else the array of sub-nodes. */
  datatype Children = NoChildren | Children(nodes: seq<ParseNode>)

  /** `list ?? []` */
  function OrEmpty(list: Option<seq<string>>): seq<string> {
    if list.Some? then list.value else []
  }

  /** `own || parent || null` on dates. */
  function InheritDate(own: Option<string>, parent: Option<string>): Option<string> {
    if TruthyString(own) then own else if TruthyString(parent) then parent else None
  }

  /** The tags a category adds after its article links: its truthy title,
      then its truthy url. */
  function Label(n: ParseNode): seq<string> {
    (if TruthyString(n.title) then [n.title.value] else [])
      + (if TruthyString(n.url) then [n.url.value] else [])
  }

  /** `n.generateHeadlines(parent)`, where the parent's metadata holds
      `parentDate` and `parentTags`. A leaf gives one headline: the inherited
      date, its title as text, the tags so far with its own article links,
      and its own external links. A category adds its article links, title
      and url to the tags and concatenates its children's headlines. */
  function Generate(n: ParseNode, parentDate: Option<string>, parentTags: seq<string>): seq<Headline>
    decreases n
  {
    var date := InheritDate(n.date, parentDate);
    var tags := parentTags + OrEmpty(n.articleLinks);
    match n.children
    case NoChildren => [Headline(date, n.title, tags, n.externalLinks)]
    case Children(cs) => GenerateAll(cs, date, tags + Label(n))
  }

  /** The children's headlines, one child after another. */
  function GenerateAll(cs: seq<ParseNode>, date: Option<string>, tags: seq<string>): seq<Headline>
    decreases cs
  {
    if cs == [] then [] else Generate(cs[0], date, tags) + GenerateAll(cs[1..], date, tags)
  }

  /** `tree.generateHeadlines()`: the root has no parent metadata. */
  function GenerateHeadlines(root: ParseNode): seq<Headline> {
    Generate(root, None, [])
  }

  // ---------------------------------------------------------------------
  // An independent description: one headline per root-to-leaf path.

  /** A root-to-leaf path: the categories on the way, then the leaf. */
  datatype Path = Path(ancestors: seq<ParseNode>, leaf: ParseNode)

  /** The leaves below `n` in depth-first child order, each with its path. */
  function Paths(n: ParseNode): seq<Path>
    decreases n
  {
    match n.children
    case NoChildren => [Path([], n)]
    case Children(cs) => Under(n, PathsAll(cs))
  }

  function PathsAll(cs: seq<ParseNode>): seq<Path>
    decreases cs
  {
    if cs == [] then [] else Paths(cs[0]) + PathsAll(cs[1..])
  }

  /** The same paths, seen from the parent `n`. */
  function Under(n: ParseNode, ps: seq<Path>): (r: seq<Path>)
    ensures |r| == |ps|
    ensures forall k :: 0 <= k < |ps| ==> r[k] == Path([n] + ps[k].ancestors, ps[k].leaf)
  {
    seq(|ps|, k requires 0 <= k < |ps| => Path([n] + ps[k].ancestors, ps[k].leaf))
  }

  /** The number of leaves below `n`. */
  function LeafCount(n: ParseNode): nat
    decreases n
  {
    match n.children
    case NoChildren => 1
    case Children(cs) => LeafCountAll(cs)
  }

  function LeafCountAll(cs: seq<ParseNode>): nat
    decreases cs
  {
    if cs == [] then 0 else LeafCount(cs[0]) + LeafCountAll(cs[1..])
  }

  /** The headline of a path: walking down from the root, each category
      passes on its date (or the one it inherited) and its tags. */
  function Along(ancestors: seq<ParseNode>, leaf: ParseNode, date: Option<string>, tags: seq<string>): Headline
    decreases |ancestors|
  {
    if ancestors == [] then
      Headline(InheritDate(leaf.date, date), leaf.title, tags + OrEmpty(leaf.articleLinks), leaf.externalLinks)
    else
      var n := ancestors[0];
      Along(ancestors[1..], leaf, InheritDate(n.date, date), tags + OrEmpty(n.articleLinks) + Label(n))
  }

  function AlongAll(ps: seq<Path>, date: Option<string>, tags: seq<string>): (r: seq<Headline>)
    ensures |r| == |ps|
  {
    if ps == [] then [] else [Along(ps[0].ancestors, ps[0].leaf, date, tags)] + AlongAll(ps[1..], date, tags)
  }

  lemma {:induction false} AlongAllAppend(ps: seq<Path>, qs: seq<Path>, date: Option<string>, tags: seq<string>)
    ensures AlongAll(ps + qs, date, tags) == AlongAll(ps, date, tags) + AlongAll(qs, date, tags)
  {
    if ps != [] {
      var h := [Along(ps[0].ancestors, ps[0].leaf, date, tags)];
      assert (ps + qs)[0] == ps[0] && (ps + qs)[1..] == ps[1..] + qs;
      assert AlongAll(ps + qs, date, tags) == h + AlongAll(ps[1..] + qs, date, tags);
      AlongAllAppend(ps[1..], qs, date, tags);
    } else {
      assert ps + qs == qs;
    }
  }

  lemma {:induction false} AlongAllUnder(n: ParseNode, ps: seq<Path>, date: Option<string>, tags: seq<string>)
    ensures AlongAll(Under(n, ps), date, tags)
         == AlongAll(ps, InheritDate(n.date, date), tags + OrEmpty(n.articleLinks) + Label(n))
  {
    if ps != [] {
      assert Under(n, ps)[1..] == Under(n, ps[1..]);
      AlongAllUnder(n, ps[1..], date, tags);
    }
  }

  /** The tree fold gives, in order, the headline of each root-to-leaf path. */
  lemma {:induction false} GenerateAlongPaths(n: ParseNode, date: Option<string>, tags: seq<string>)
    ensures Generate(n, date, tags) == AlongAll(Paths(n), date, tags)
    decreases n
  {
    match n.children
    case NoChildren =>
    case Children(cs) =>
      var d, t := InheritDate(n.date, date), tags + OrEmpty(n.articleLinks);
      GenerateAllAlongPaths(cs, d, t + Label(n));
      AlongAllUnder(n, PathsAll(cs), date, tags);
  }

  lemma {:induction false} GenerateAllAlongPaths(cs: seq<ParseNode>, date: Option<string>, tags: seq<string>)
    ensures GenerateAll(cs, date, tags) == AlongAll(PathsAll(cs), date, tags)
    decreases cs
  {
    if cs != [] {
      GenerateAlongPaths(cs[0], date, tags);
      GenerateAllAlongPaths(cs[1..], date, tags);
      AlongAllAppend(Paths(cs[0]), PathsAll(cs[1..]), date, tags);
    }
  }

  /** There is one path, and so one headline, per leaf. */
  lemma {:induction false} PathsPerLeaf(n: ParseNode)
    ensures |Paths(n)| == LeafCount(n)
    decreases n
  {
    match n.children
    case NoChildren =>
    case Children(cs) => PathsAllPerLeaf(cs);
  }

  lemma {:induction false} PathsAllPerLeaf(cs: seq<ParseNode>)
    ensures |PathsAll(cs)| == LeafCountAll(cs)
    decreases cs
  {
    if cs != [] {
      PathsPerLeaf(cs[0]);
      PathsAllPerLeaf(cs[1..]);
    }
  }

  /** Every path ends at a leaf. */
  lemma {:induction false} PathsEndAtLeaves(n: ParseNode)
    ensures forall k :: 0 <= k < |Paths(n)| ==> Paths(n)[k].leaf.children.NoChildren?
    decreases n
  {
    match n.children
    case NoChildren =>
    case Children(cs) => PathsAllEndAtLeaves(cs);
  }

  lemma {:induction false} PathsAllEndAtLeaves(cs: seq<ParseNode>)
    ensures forall k :: 0 <= k < |PathsAll(cs)| ==> PathsAll(cs)[k].leaf.children.NoChildren?
    decreases cs
  {
    if cs != [] {
      PathsEndAtLeaves(cs[0]);
      PathsAllEndAtLeaves(cs[1..]);
      var ps: seq<Path>, qs: seq<Path> := Paths(cs[0]), PathsAll(cs[1..]);
      forall k | 0 <= k < |ps + qs|
        ensures (ps + qs)[k].leaf.children.NoChildren?
      {
        if k >= |ps| {
          assert (ps + qs)[k] == qs[k - |ps|];
        }
      }
    }
  }

  /** The tree yields exactly as many headlines as it has leaves. */
  lemma GenerateCount(root: ParseNode)
    ensures |GenerateHeadlines(root)| == LeafCount(root)
  {
    GenerateAlongPaths(root, None, []);
    PathsPerLeaf(root);
  }

  /** A leaf yields exactly one headline, with its own title as text and its
      own external links. */
  lemma LeafHeadline(leaf: ParseNode, date: Option<string>, tags: seq<string>)
    requires leaf.children.NoChildren?
    ensures |Generate(leaf, date, tags)| == 1
    ensures Generate(leaf, date, tags)[0].text == leaf.title
    ensures Generate(leaf, date, tags)[0].externalLinks == leaf.externalLinks
    ensures Generate(leaf, date, tags)[0].tags == tags + OrEmpty(leaf.articleLinks)
  {
  }

  // ---------------------------------------------------------------------
  // What a path's headline holds.

  /** The date of the deepest node on `path` with a truthy date; otherwise the
      parent metadata's truthy date; otherwise null. */
  function DeepestDate(path: seq<ParseNode>, date: Option<string>): Option<string>
    decreases |path|
  {
    if path == [] then InheritDate(None, date)
    else if TruthyString(path[|path| - 1].date) then path[|path| - 1].date
    else DeepestDate(path[..|path| - 1], date)
  }

  /** The tags the categories on a path contribute, from the root down. */
  function PathTags(ancestors: seq<ParseNode>): seq<string>
    decreases |ancestors|
  {
    if ancestors == [] then []
    else OrEmpty(ancestors[0].articleLinks) + Label(ancestors[0]) + PathTags(ancestors[1..])
  }

  lemma {:induction false} DeepestDateCons(n: ParseNode, rest: seq<ParseNode>, date: Option<string>)
    ensures DeepestDate([n] + rest, date) == DeepestDate(rest, InheritDate(n.date, date))
    decreases |rest|
  {
    if rest == [] {
      assert [n] + rest == [n];
      assert [n][..0] == [];
    } else {
      var last := |rest| - 1;
      assert ([n] + rest)[..|rest|] == [n] + rest[..last];
      if !TruthyString(rest[last].date) {
        DeepestDateCons(n, rest[..last], date);
      }
    }
  }

  /** A headline's date is the deepest truthy date on its path, falling back
      to the parent's and then to null. */
  lemma {:induction false} AlongDate(ancestors: seq<ParseNode>, leaf: ParseNode, date: Option<string>, tags: seq<string>)
    ensures Along(ancestors, leaf, date, tags).date == DeepestDate(ancestors + [leaf], date)
    decreases |ancestors|
  {
    if ancestors == [] {
      assert [leaf][..0] == [];
    } else {
      var n := ancestors[0];
      AlongDate(ancestors[1..], leaf, InheritDate(n.date, date), tags + OrEmpty(n.articleLinks) + Label(n));
      assert ancestors + [leaf] == [n] + (ancestors[1..] + [leaf]);
      DeepestDateCons(n, ancestors[1..] + [leaf], date);
    }
  }

  /** A headline's tags are the parent's tags, then each category's article
      links, title and url from the root down, then the leaf's article links. */
  lemma {:induction false} AlongTags(ancestors: seq<ParseNode>, leaf: ParseNode, date: Option<string>, tags: seq<string>)
    ensures Along(ancestors, leaf, date, tags).tags == tags + PathTags(ancestors) + OrEmpty(leaf.articleLinks)
    decreases |ancestors|
  {
    if ancestors != [] {
      var n := ancestors[0];
      AlongTags(ancestors[1..], leaf, InheritDate(n.date, date), tags + OrEmpty(n.articleLinks) + Label(n));
      assert tags + OrEmpty(n.articleLinks) + Label(n) + PathTags(ancestors[1..]) == tags + PathTags(ancestors);
    }
  }

  /** A headline's text and external links are its leaf's own. */
  lemma {:induction false} AlongLeaf(ancestors: seq<ParseNode>, leaf: ParseNode, date: Option<string>, tags: seq<string>)
    ensures Along(ancestors, leaf, date, tags).text == leaf.title
    ensures Along(ancestors, leaf, date, tags).externalLinks == leaf.externalLinks
    decreases |ancestors|
  {
    if ancestors != [] {
      var n := ancestors[0];
      AlongLeaf(ancestors[1..], leaf, InheritDate(n.date, date), tags + OrEmpty(n.articleLinks) + Label(n));
    }
  }

  /** The headline of one path from the root: its leaf's text and links,
      the deepest truthy date on the path, and the tags collected on it. */
  lemma PathHeadline(p: Path)
    ensures var h := Along(p.ancestors, p.leaf, None, []);
      && h.text == p.leaf.title
      && h.externalLinks == p.leaf.externalLinks
      && h.date == DeepestDate(p.ancestors + [p.leaf], None)
      && h.tags == PathTags(p.ancestors) + OrEmpty(p.leaf.articleLinks)
  {
    AlongLeaf(p.ancestors, p.leaf, None, []);
    AlongDate(p.ancestors, p.leaf, None, []);
    AlongTags(p.ancestors, p.leaf, None, []);
  }

  /** Everything together: the k-th headline of a tree is the headline of
      the path to its k-th leaf in depth-first order. */
  lemma GeneratedHeadline(root: ParseNode, k: nat)
    requires k < |Paths(root)|
    ensures k < |GenerateHeadlines(root)|
    ensures Paths(root)[k].leaf.children.NoChildren?
    ensures GenerateHeadlines(root)[k] == Along(Paths(root)[k].ancestors, Paths(root)[k].leaf, None, [])
  {
    GenerateAlongPaths(root, None, []);
    AlongAllAt(Paths(root), None, [], k);
    PathsEndAtLeaves(root);
  }

  lemma {:induction false} AlongAllAt(ps: seq<Path>, date: Option<string>, tags: seq<string>, k: nat)
    requires k < |ps|
    ensures AlongAll(ps, date, tags)[k] == Along(ps[k].ancestors, ps[k].leaf, date, tags)
  {
    if k > 0 {
      AlongAllAt(ps[1..], date, tags, k - 1);
    }
  }

  // ---------------------------------------------------------------------
  // processCurrentEventDOM, over an abstract DOM.

  /** A DOM node as the parser sees it: text, a comment, or an element with
      its tag name, its `href` attribute and its children. */
  datatype Element =
    | TextNode(content: string)
    | CommentNode(comment: string)
    | Elem(name: string, href: Option<string>, children: seq<Element>)

  /** `$(e).text()`: the text of all text nodes below `e`, in document order. */
  function TextOf(e: Element): string
    decreases e
  {
    match e
    case TextNode(content) => content
    case CommentNode(_) => ""
    case Elem(_, _, cs) => TextOfAll(cs)
  }

  function TextOfAll(cs: seq<Element>): string
    decreases cs
  {
    if cs == [] then "" else TextOf(cs[0]) + TextOfAll(cs[1..])
  }

  /** The `href`s of `$(e).find("a")`: every `a` element strictly below, in
      document order. */
  function AnchorsIn(cs: seq<Element>): seq<Option<string>>
    decreases cs
  {
    if cs == [] then []
    else
      var own := if IsAnchor(cs[0]) then [cs[0].href] else [];
      var below := if cs[0].Elem? then AnchorsIn(cs[0].children) else [];
      own + below + AnchorsIn(cs[1..])
  }

  predicate IsAnchor(e: Element) {
    e.Elem? && e.name == "a"
  }

  predicate IsPara(e: Element) {
    e.Elem? && e.name == "p"
  }

  predicate IsList(e: Element) {
    e.Elem? && e.name == "ul"
  }

  /** `[name_accumulator, url_accumulator, ul]`: a list with the category name
      and link seen before it. */
  datatype TitledList = TitledList(title: Option<string>, url: Option<string>, list: Element)

  /** The children after the last `ul`. */
  function SinceLastList(cs: seq<Element>): (r: seq<Element>)
    ensures forall e :: e in r ==> !IsList(e)
  {
    if cs == [] then []
    else if IsList(cs[|cs| - 1]) then []
    else SinceLastList(cs[..|cs| - 1]) + [cs[|cs| - 1]]
  }

  /** The trimmed text of the last `a` or `p`, if any. */
  function LastName(cs: seq<Element>): Option<string> {
    if cs == [] then None
    else if IsAnchor(cs[|cs| - 1]) || IsPara(cs[|cs| - 1]) then Some(Trim(TextOf(cs[|cs| - 1])))
    else LastName(cs[..|cs| - 1])
  }

  /** The `href` of the last `a`, if any (undefined when it has none). */
  function LastHref(cs: seq<Element>): Option<string> {
    if cs == [] then None
    else if IsAnchor(cs[|cs| - 1]) then cs[|cs| - 1].href
    else LastHref(cs[..|cs| - 1])
  }

  /** Each `ul` child, in order, titled with the name of the last `a` or `p`
      since the previous `ul` and the link of the last `a` since then. */
  function TitledLists(cs: seq<Element>): (r: seq<TitledList>)
    ensures forall i :: 0 <= i < |r| ==> r[i].list in cs && IsList(r[i].list)
  {
    if cs == [] then []
    else
      var init, last := cs[..|cs| - 1], cs[|cs| - 1];
      var before := TitledLists(init);
      assert forall i :: 0 <= i < |before| ==> before[i].list in init ==> before[i].list in cs;
      if IsList(last) then before + [TitledList(LastName(SinceLastList(init)), LastHref(SinceLastList(init)), last)]
      else before
  }

  /** The `ul` children, in order. */
  function Lists(cs: seq<Element>): seq<Element> {
    if cs == [] then []
    else if IsList(cs[|cs| - 1]) then Lists(cs[..|cs| - 1]) + [cs[|cs| - 1]]
    else Lists(cs[..|cs| - 1])
  }

  function ListsOf(ts: seq<TitledList>): (r: seq<Element>)
    ensures |r| == |ts|
  {
    if ts == [] then [] else ListsOf(ts[..|ts| - 1]) + [ts[|ts| - 1].list]
  }

  /** The accumulator loop over an element's children: text nodes and
      comments are skipped; an `a` records its link and, like a `p`, its
      trimmed text; a `ul` is recorded with both and resets them. */
  method CollectTitledLists(cs: seq<Element>) returns (titled: seq<TitledList>)
    ensures titled == TitledLists(cs)
  {
    titled := [];
    var name: Option<string> := None;
    var url: Option<string> := None;
    for k := 0 to |cs|
      invariant titled == TitledLists(cs[..k])
      invariant name == LastName(SinceLastList(cs[..k]))
      invariant url == LastHref(SinceLastList(cs[..k]))
    {
      var child := cs[k];
      assert cs[..k + 1] == cs[..k] + [child];
      AccumulateStep(cs[..k], child);
      match child
      case TextNode(_) =>
      case CommentNode(_) =>
      case Elem(tag, href, _) =>
        if tag == "a" {
          url := href;
          name := Some(Trim(TextOf(child)));
        } else if tag == "p" {
          name := Some(Trim(TextOf(child)));
        } else if tag == "ul" {
          titled := titled + [TitledList(name, url, child)];
          name := None;
          url := None;
        }
    }
    assert cs[..|cs|] == cs;
  }

  /** One more child, as the loop sees it. */
  lemma AccumulateStep(before: seq<Element>, child: Element)
    ensures var all := before + [child];
      var since := SinceLastList(before);
      && TitledLists(all) == TitledLists(before)
           + (if IsList(child) then [TitledList(LastName(since), LastHref(since), child)] else [])
      && LastName(SinceLastList(all))
           == (if IsList(child) then None
               else if IsAnchor(child) || IsPara(child) then Some(Trim(TextOf(child)))
               else LastName(since))
      && LastHref(SinceLastList(all))
           == (if IsList(child) then None else if IsAnchor(child) then child.href else LastHref(since))
  {
    var all := before + [child];
    assert all[..|all| - 1] == before && all[|all| - 1] == child;
    if !IsList(child) {
      var s := SinceLastList(before) + [child];
      assert s[..|s| - 1] == SinceLastList(before) && s[|s| - 1] == child;
    }
  }

  /** Every `ul` child is recorded once, in order. */
  lemma {:induction false} TitledListsAreTheLists(cs: seq<Element>)
    ensures ListsOf(TitledLists(cs)) == Lists(cs)
  {
    if cs != [] {
      var init := cs[..|cs| - 1];
      TitledListsAreTheLists(init);
      var before := TitledLists(init);
      if IsList(cs[|cs| - 1]) {
        var r := TitledLists(cs);
        assert r[..|r| - 1] == before;
      }
    }
  }

  /** A `ul` right after another `ul` has neither name nor link: the
      accumulators were reset. */
  lemma ListAfterListUntitled(cs: seq<Element>, first: Element, second: Element)
    requires IsList(first) && IsList(second)
    ensures TitledLists(cs + [first, second])[|TitledLists(cs + [first, second])| - 1]
         == TitledList(None, None, second)
  {
    var all := cs + [first, second];
    assert all[..|all| - 1] == cs + [first];
    assert (cs + [first])[..|cs|] == cs;
  }

  /** The links a story keeps as article links: those starting `/wiki/`. */
  function ArticleLinksOf(hrefs: seq<string>): (r: seq<string>)
    ensures forall x :: x in r ==> StartsWith(x, "/wiki/")
  {
    if hrefs == [] then []
    else (if StartsWith(hrefs[0], "/wiki/") then [hrefs[0]] else []) + ArticleLinksOf(hrefs[1..])
  }

  /** The links a story keeps as external links: the others starting `http`. */
  function ExternalLinksOf(hrefs: seq<string>): (r: seq<string>)
    ensures forall x :: x in r ==> !StartsWith(x, "/wiki/") && StartsWith(x, "http")
  {
    if hrefs == [] then []
    else
      var keep := !StartsWith(hrefs[0], "/wiki/") && StartsWith(hrefs[0], "http");
      (if keep then [hrefs[0]] else []) + ExternalLinksOf(hrefs[1..])
  }

  /** The links a story drops: those starting neither `/wiki/` nor `http`. */
  function DroppedLinksOf(hrefs: seq<string>): (r: seq<string>)
    ensures forall x :: x in r ==> !StartsWith(x, "/wiki/") && !StartsWith(x, "http")
  {
    if hrefs == [] then []
    else
      var keep := !StartsWith(hrefs[0], "/wiki/") && !StartsWith(hrefs[0], "http");
      (if keep then [hrefs[0]] else []) + DroppedLinksOf(hrefs[1..])
  }

  /** Every link lands in exactly one of the three lists. */
  lemma {:induction false} LinksPartitioned(hrefs: seq<string>)
    ensures multiset(ArticleLinksOf(hrefs)) + multiset(ExternalLinksOf(hrefs)) + multiset(DroppedLinksOf(hrefs))
         == multiset(hrefs)
  {
    if hrefs != [] {
      LinksPartitioned(hrefs[1..]);
      assert hrefs == [hrefs[0]] + hrefs[1..];
    }
  }

  /** The hrefs when every link has one. */
  function Defined(hrefs: seq<Option<string>>): (r: seq<string>)
    requires forall i :: 0 <= i < |hrefs| ==> hrefs[i].Some?
    ensures |r| == |hrefs| && forall i :: 0 <= i < |hrefs| ==> r[i] == hrefs[i].value
  {
    seq(|hrefs|, i requires 0 <= i < |hrefs| => hrefs[i].value)
  }

  /** What `href.startsWith` throws when `href` is undefined. */
  const MissingHref := TypeError("Cannot read properties of undefined (reading 'startsWith')")

  /** The leaf's link loop: a link without an `href` makes `href.startsWith`
      throw a TypeError. */
  method ClassifyLinks(hrefs: seq<Option<string>>) returns (r: Result<(seq<string>, seq<string>)>)
    ensures r.Ok? <==> forall i :: 0 <= i < |hrefs| ==> hrefs[i].Some?
    ensures r.Ok? ==> r.value == (ArticleLinksOf(Defined(hrefs)), ExternalLinksOf(Defined(hrefs)))
    ensures r.Err? ==> r.error == MissingHref
  {
    var article: seq<string> := [];
    var external: seq<string> := [];
    for k := 0 to |hrefs|
      invariant forall i :: 0 <= i < k ==> hrefs[i].Some?
      invariant article == ArticleLinksOf(Defined(hrefs[..k]))
      invariant external == ExternalLinksOf(Defined(hrefs[..k]))
    {
      if hrefs[k].None? {
        return Err(MissingHref);
      }
      var href := hrefs[k].value;
      LinksSnoc(Defined(hrefs[..k]), href);
      assert Defined(hrefs[..k + 1]) == Defined(hrefs[..k]) + [href];
      if StartsWith(href, "/wiki/") {
        article := article + [href];
      } else if StartsWith(href, "http") {
        external := external + [href];
      }
    }
    assert hrefs[..|hrefs|] == hrefs;
    return Ok((article, external));
  }

  lemma {:induction false} LinksSnoc(hrefs: seq<string>, x: string)
    ensures ArticleLinksOf(hrefs + [x]) == ArticleLinksOf(hrefs) + (if StartsWith(x, "/wiki/") then [x] else [])
    ensures ExternalLinksOf(hrefs + [x])
         == ExternalLinksOf(hrefs) + (if !StartsWith(x, "/wiki/") && StartsWith(x, "http") then [x] else [])
  {
    if hrefs != [] {
      assert (hrefs + [x])[1..] == hrefs[1..] + [x];
      LinksSnoc(hrefs[1..], x);
    } else {
      assert [] + [x] == [x];
    }
  }

  /** `url && title && url.startsWith("/wiki/")`: the category is itself a
      wiki link. */
  predicate IsWikiCategory(title: Option<string>, url: Option<string>) {
    TruthyString(url) && TruthyString(title) && StartsWith(url.value, "/wiki/")
  }

  /** The subcategory node for a titled list: a wiki-link category keeps only
      its link, as an article link; any other keeps its title and url. */
  function Subcategory(title: Option<string>, url: Option<string>, children: Children): ParseNode {
    if IsWikiCategory(title, url) then ParseNode(None, None, None, Some([url.value]), None, children)
    else ParseNode(title, url, None, None, None, children)
  }

  /** What the rule means for the headlines below: a wiki-link category tags
      them with its link alone, any other with its truthy title and url. */
  lemma SubcategoryTags(title: Option<string>, url: Option<string>, cs: seq<ParseNode>, date: Option<string>, tags: seq<string>)
    ensures Generate(Subcategory(title, url, Children(cs)), date, tags)
         == GenerateAll(cs, InheritDate(None, date),
              tags + if IsWikiCategory(title, url) then [url.value]
                     else (if TruthyString(title) then [title.value] else []) + (if TruthyString(url) then [url.value] else []))
  {
    var n := Subcategory(title, url, Children(cs));
    if IsWikiCategory(title, url) {
      assert tags + OrEmpty(n.articleLinks) + Label(n) == tags + [url.value];
    } else {
      assert tags + OrEmpty(n.articleLinks) + Label(n) == tags + Label(n);
    }
  }

  lemma PrependNothing(rest: Result<seq<ParseNode>>)
    ensures Prepend([], rest) == rest
  {
    if rest.Ok? {
      assert [] + rest.value == rest.value;
    }
  }

  lemma PrependTwice(xs: seq<ParseNode>, ys: seq<ParseNode>, rest: Result<seq<ParseNode>>)
    ensures Prepend(xs, Prepend(ys, rest)) == Prepend(xs + ys, rest)
  {
    if rest.Ok? {
      assert xs + (ys + rest.value) == xs + ys + rest.value;
    }
  }

  /** `result ++ rest`, an exception in `rest` winning. */
  function Prepend(xs: seq<ParseNode>, rest: Result<seq<ParseNode>>): Result<seq<ParseNode>> {
    match rest
    case Ok(ys) => Ok(xs + ys)
    case Err(e) => Err(e)
  }

  /** The `li` children. */
  function Items(cs: seq<Element>): (r: seq<Element>)
    ensures forall x :: x in r ==> x in cs && x.Elem?
  {
    if cs == [] then []
    else (if cs[0].Elem? && cs[0].name == "li" then [cs[0]] else []) + Items(cs[1..])
  }

  /** A story: its trimmed text as title and its links classified. */
  function Story(item: Element, article: seq<string>, external: seq<string>): ParseNode {
    ParseNode(Some(Trim(TextOf(item))), None, None, Some(article), Some(external), NoChildren)
  }

  /** `processCurrentEventDOM($, item)`: an element with no `ul` child is a
      story; otherwise it is a category with one subcategory per titled list,
      each holding the parse of that list's `li` children. */
  function Parse(item: Element): Result<ParseNode>
    requires item.Elem?
    decreases item, 2, 0
  {
    var titled := TitledLists(item.children);
    if titled == [] then
      var hrefs := AnchorsIn(item.children);
      if forall i :: 0 <= i < |hrefs| ==> hrefs[i].Some? then
        Ok(Story(item, ArticleLinksOf(Defined(hrefs)), ExternalLinksOf(Defined(hrefs))))
      else
        Err(MissingHref)
    else
      match ParseLists(item, titled)
      case Ok(subs) => Ok(ParseNode(None, None, None, None, None, Children(subs)))
      case Err(e) => Err(e)
  }

  function ParseLists(item: Element, titled: seq<TitledList>): Result<seq<ParseNode>>
    requires item.Elem?
    requires forall i :: 0 <= i < |titled| ==> titled[i].list in item.children && titled[i].list.Elem?
    decreases item, 1, |titled|
  {
    if titled == [] then Ok([])
    else
      var t := titled[0];
      match ParseItems(t.list, Items(t.list.children))
      case Err(e) => Err(e)
      case Ok(kids) => Prepend([Subcategory(t.title, t.url, Children(kids))], ParseLists(item, titled[1..]))
  }

  function ParseItems(list: Element, items: seq<Element>): Result<seq<ParseNode>>
    requires list.Elem?
    requires forall x :: x in items ==> x in list.children && x.Elem?
    decreases list, 0, |items|
  {
    if items == [] then Ok([])
    else
      match Parse(items[0])
      case Err(e) => Err(e)
      case Ok(n) => Prepend([n], ParseItems(list, items[1..]))
  }

  /** `processCurrentEventDOM`: collect the titled lists; with none, build
      the story from the element's text and links; otherwise build one
      subcategory per titled list, parsing its `li` children recursively. */
  method ProcessCurrentEventDOM(item: Element) returns (r: Result<ParseNode>)
    requires item.Elem?
    ensures r == Parse(item)
    decreases item, 2, 0
  {
    var titled := CollectTitledLists(item.children);
    if |titled| == 0 {
      var links := ClassifyLinks(AnchorsIn(item.children));
      if links.Err? {
        return Err(links.error);
      }
      return Ok(Story(item, links.value.0, links.value.1));
    }
    var subs: seq<ParseNode> := [];
    PrependNothing(ParseLists(item, titled));
    assert titled[0..] == titled;
    for k := 0 to |titled|
      invariant ParseLists(item, titled) == Prepend(subs, ParseLists(item, titled[k..]))
    {
      var t := titled[k];
      assert titled[k..][1..] == titled[k + 1..];
      var kids := ParseListItems(item, t.list);
      if kids.Err? {
        return Err(kids.error);
      }
      PrependTwice(subs, [Subcategory(t.title, t.url, Children(kids.value))], ParseLists(item, titled[k + 1..]));
      subs := subs + [Subcategory(t.title, t.url, Children(kids.value))];
    }
    assert titled[|titled|..] == [];
    assert subs + [] == subs;
    return Ok(ParseNode(None, None, None, None, None, Children(subs)));
  }

  /** The subcategory loop's inner loop: parse each `li` child of `list`. */
  method ParseListItems(item: Element, list: Element) returns (r: Result<seq<ParseNode>>)
    requires item.Elem? && list.Elem? && list in item.children
    ensures r == ParseItems(list, Items(list.children))
    decreases item, 1, 0
  {
    var items := Items(list.children);
    var kids: seq<ParseNode> := [];
    PrependNothing(ParseItems(list, items));
    assert items[0..] == items;
    for j := 0 to |items|
      invariant ParseItems(list, items) == Prepend(kids, ParseItems(list, items[j..]))
    {
      assert items[j..][1..] == items[j + 1..];
      assert items[j] in list.children;
      assert items[j] < list < item;
      var child := ProcessCurrentEventDOM(items[j]);
      if child.Err? {
        return Err(child.error);
      }
      PrependTwice(kids, [child.value], ParseItems(list, items[j + 1..]));
      kids := kids + [child.value];
    }
    assert items[|items|..] == [];
    assert kids + [] == kids;
    return Ok(kids);
  }

  /** An element is parsed as a story exactly when it has no `ul` child. */
  lemma ParseStoryIffNoList(item: Element)
    requires item.Elem?
    requires Parse(item).Ok?
    ensures Parse(item).value.children.NoChildren? <==> Lists(item.children) == []
  {
    TitledListsAreTheLists(item.children);
  }
}
