# hefoki, modelled in Dafny

Hefoki publishes a static news site built from Wikipedia's current-events
portal. A scraper turns the portal's page into a tree of categories and
stories and flattens that tree into headlines. Headlines are grouped by day
and stored. Two scrapes are compared by chaining headline matchers: exact
match, then same text, then shared external links. A static-site
generator then renders one page per day, and an incremental deploy compares
the new build with the published one. That comparison merges the two builds'
sorted day lists into one linked chain, flags each page as new, changed in
content or needing its previous/next links redone, rewrites those links, and
returns only the files that changed. A small task runner with HTTP-style
status codes wraps these jobs. A string-to-boolean helper reads their
options.

The model covers, one Dafny module each:

- `Js`: the JavaScript values, truthiness, string operations (`lastIndexOf`,
  `trim`, `<` on strings) and objects used as dictionaries that the rest of
  the code relies on.
- `IndexedMerge`: `mergeIndexedArrays`, a loop that merges two sorted key
  arrays into entries linked by `prev`/`next` overall and per side.
- `LegacyFrontend`: the older copy of that merge's test and flag loop
  (`hefoki-backend/frontend.js`).
- `Pagination`: date keys, URL/key normalisation, and `getPagination` and
  `updatePagination` on an abstract page made of classed anchors.
- `Increment`: `incrementBetweenBuilds`, phase by phase, each phase a method
  proved against a function.
- `HeadlineDiff`: grouping by day, the three first-fit matchers, the matcher
  pipeline, `diffHeadlines` and the per-day folds.
- `LegacyHeadlines`: the older link matcher, which sorts each headline's
  `external_links` array in place (a class over an `array`).
- `HeadlineTree`: the scraper's parse tree, `generateHeadlines`, and
  `processCurrentEventDOM` on an abstract DOM.
- `HeadlineStore`: `groupHeadlinesByDate` and the in-memory
  `HeadlinesInterface` class.
- `StaticSite`: the `StaticSiteFile` class (key split, locator prefix,
  content, cached hash).
- `Tasks`: the `Task` class (run, subtasks, status, `toJSON`) and
  `parseBoolean`.

The model makes these substitutions:

- The content hash (MD5) is a function parameter `digest`.
- A task handler's settled outcome is a parameter `outcome`.
- HTML is an abstract `Page`.
- JavaScript `null`/`undefined` become `Option` where the code treats them
  alike.
- A headline's date is a string or `null`, as the scraper emits it
  (`… || null`); a headline never carries an undefined date, which would be
  filed under "undefined" rather than "null".

## Model

| member | source | states |
|---|---|---|
| Js.LastIndexOf | hefoki-backend/src/logic/static-site-file.js:34 | `lastIndexOf`: -1 or a position where the separator occurs, with no occurrence after it |
| Js.TrimStart | hefoki-backend/src/tasks/utils.js:11 | `trimStart` drops exactly the leading whitespace: the result is a suffix that starts with a non-space, and everything cut is whitespace |
| Js.TrimEnd | hefoki-backend/src/tasks/utils.js:11 | `trimEnd` drops exactly the trailing whitespace |
| Js.LexLessIsStrictTotalOrder | hefoki-backend/src/logic/frontend.js:312-313 | the model's string order, which agrees with JavaScript's `<` and `sort()` on strings without characters above U+FFFF (every date key is ASCII), is irreflexive, transitive and total, so sorted date lists can be merged |
| Js.DictSetGet | hefoki-backend/src/tasks/task.js:83 | `d[k] = v` on an object: key `k` reads `v` and every other key reads what it did |
| Js.DictSetDistinct | hefoki-backend/src/tasks/task.js:98 | assigning a key keeps object keys distinct |
| Js.KeysGet | hefoki-database/headlines-interface.js:52 | `Object.keys(d)` lists exactly the keys that are present |
| IndexedMerge.MergeIndexed | hefoki-backend/src/logic/frontend.js:6-118 | the merge yields one entry per key of A ∪ B in sorted order; `prev`/`next` link neighbouring entries; each side's value and `prev_x`/`next_x` link that side's own neighbours, and are null for keys not on that side |
| IndexedMerge.TakeBoth | hefoki-backend/src/logic/frontend.js:76-92 | a key at both heads becomes one entry holding both values; both sides' last entries now point at it, and the chain is still the merge of the keys consumed, with both cursors one further on |
| IndexedMerge.TakeA | hefoki-backend/src/logic/frontend.js:94-101 | A's head, when it sorts before B's, becomes an A-only entry that A's last entry points at; the chain is still the merge of the keys consumed |
| IndexedMerge.TakeB | hefoki-backend/src/logic/frontend.js:102-109 | B's head, when A's head is missing or sorts after it, becomes a B-only entry that B's last entry points at; the chain is still the merge of the keys consumed |
| IndexedMerge.LookUp | hefoki-backend/src/logic/frontend.js:41-42 | `indexes.map(i => values[i])`: each key's value, null when the lookup lacks it |
| IndexedMerge.MergeIndexedKeys | hefoki-backend/src/logic/frontend.js:41-42 | without value lookups each side's value is the key itself |
| IndexedMerge.MergeIndexedLookUp | hefoki-backend/src/logic/frontend.js:6-118 | with value lookups each entry carries the looked-up values |
| IndexedMerge.MergeUnique | hefoki-backend/src/logic/frontend.js:6-118 | the merge specification allows exactly one result for given inputs |
| IndexedMerge.SideFollowsChain | hefoki-backend/src/logic/frontend.js:94-109 | when one side holds every key, that side's `prev_x`/`next_x` equal the overall `prev`/`next` |
| IndexedMerge.SortedUnique | hefoki-backend/src/logic/frontend.js:6-118 | two strictly sorted sequences with the same elements are equal (so the merged index list is determined) |
| IndexedMerge.SourceDiverges | hefoki-backend/src/logic/frontend.js:51-115 | when B runs out while A still has a larger key, the loop as written never consumes A's last key, so the loop condition stays true forever |
| IndexedMerge.SideNeighboursAgree | hefoki-backend/src/logic/frontend.js:76-109 | for an entry whose key is on a side, that side's `next_x` equals the chain's `next` iff the chain has no next entry or its key is on that side too; likewise for `prev_x` and `prev` |
| LegacyFrontend.NatLessIsStrictTotalOrder | hefoki-backend/tests/frontend.test.js:4-50 | `<` on the test's numeric keys is a strict total order |
| LegacyFrontend.ExpectedIsMerge | hefoki-backend/tests/frontend.test.js:4-50 | the five entries the test expects from merging [1,2,3] with [0,2,3,4] satisfy the merge specification |
| LegacyFrontend.MergeExample | hefoki-backend/tests/frontend.test.js:4-50 | the merge of [1,2,3] and [0,2,3,4] returns exactly the entries the test expects |
| LegacyFrontend.LegacyClassify | hefoki-backend/frontend.js:311-319 | the older flags: the summary flags follow from the others; "new page" iff only the new side has a page; hash update iff both sides have one and their hashes differ; pagination update iff B is flagged, or A is and there is no hash update |
| LegacyFrontend.LegacyClassifyAll | hefoki-backend/frontend.js:300-330 | the older flag loop annotates every merged entry |
| LegacyFrontend.LegacyFlagsMarkMissingSide | hefoki-backend/frontend.js:314-315 | as written, the test's entry for key 1 has no new page, yet it is flagged for a B pagination update and so for an update |
| LegacyFrontend.LegacyVersusNewer | hefoki-backend/frontend.js:311-319 | against the newer flags on the same hashes: new-page and hash flags agree; a side with a page gets the same pagination flag; a side without one, never flagged by the newer code, is flagged exactly when its `next` differs from the chain's; with both pages present all flags agree |
| Pagination.DateOfKey | hefoki-backend/src/logic/frontend.js:3 | a key's date is its leading `dddd-dd-[0-3]d` before a `/` (after an optional leading `/`), and none otherwise |
| Pagination.NormalizeUrlToKey | hefoki-backend/src/logic/frontend.js:217-230 | null exactly for the empty URL; every other key ends in `index.html` |
| Pagination.LastSegment | hefoki-backend/src/logic/frontend.js:238 | `split("/").at(-1)`: a suffix without `/`, preceded by a `/` when shorter than the key |
| Pagination.NormalizeKeyToUrl | hefoki-backend/src/logic/frontend.js:233-249 | the URL is always absolute |
| Pagination.DateUrlRoundTrip | hefoki-backend/src/logic/frontend.js:217-249 | for a date `d`, the key `d` gives the URL `/d/` and the key `d/index.html` gives `/d` (no trailing slash); both URLs, and the bare date, normalise back to the key `d/index.html` |
| Pagination.Hrefs | hefoki-backend/src/logic/frontend.js:211-212 | the hrefs of the anchors of one class are exactly those anchors' defined hrefs |
| Pagination.GetPagination | hefoki-backend/src/logic/frontend.js:195-214 | `prev`/`next` hold exactly the hrefs of `a.prev`/`a.next` |
| Pagination.Retarget | hefoki-backend/src/logic/frontend.js:161 | `attr("href", url)` sets every anchor of that class to `url` and leaves the others alone |
| Pagination.UpdateDirection | hefoki-backend/src/logic/frontend.js:142-184 | a direction is rewritten iff its target is non-null, it has anchors, and some href differs from the target's URL; otherwise the links are unchanged |
| Pagination.UpdatePagination | hefoki-backend/src/logic/frontend.js:121-192 | the page text and anchor count are kept and each anchor is rewritten as the two directions say |
| Pagination.UpdatePaginationUnchanged | hefoki-backend/src/logic/frontend.js:186-191 | with both directions null or already settled, the page is returned unchanged |
| Pagination.UpdatePaginationRetargets | hefoki-backend/src/logic/frontend.js:156-161 | otherwise every anchor of that class points at the target's URL, and anchors of neither class keep their href |
| Pagination.UpdatePaginationSettles | hefoki-backend/src/logic/frontend.js:121-192 | after an update every direction with a target is settled |
| Pagination.UpdatePaginationIdempotent | hefoki-backend/src/logic/frontend.js:121-192 | updating an updated page changes nothing |
| Increment.ByKey | hefoki-backend/src/logic/frontend.js:272 | `existing_objects`: the keys are exactly the files' keys, each mapped to a file with that key |
| Increment.ByKeyLatest | hefoki-backend/src/logic/frontend.js:271-272 | of several files with one key, the last is kept |
| Increment.ByDate | hefoki-backend/src/logic/frontend.js:274-277 | day pages: the dates are exactly those of dated keys, each mapped to a file of that date |
| Increment.ByDateLatest | hefoki-backend/src/logic/frontend.js:303-304 | of several files with one date, the last is kept |
| Increment.StaticFiles | hefoki-backend/src/logic/frontend.js:297-300 | each undated new file contributes its content under its key |
| Increment.IndexOld | hefoki-backend/src/logic/frontend.js:271-282 | the first loop builds `existing_objects` and `day_pages_existing`, and copies every old file into `static_pages` exactly when forcing |
| Increment.IndexNew | hefoki-backend/src/logic/frontend.js:293-305 | the second loop builds `day_pages_new` and adds every undated new file to `static_pages` |
| Increment.SortedKeys | hefoki-backend/src/logic/frontend.js:312-313 | `Object.keys(m).sort()`: strictly sorted, holding exactly the map's keys |
| Increment.LastReaches | hefoki-backend/src/logic/frontend.js:312-320 | when every old date has a new date at or after it, the merge loop terminates |
| Increment.MergeDays | hefoki-backend/src/logic/frontend.js:312-320 | the merged entries satisfy the merge specification on the two sorted date lists, carry each date's old and new day page, and each has a page on one side at least |
| Increment.Classify | hefoki-backend/src/logic/frontend.js:337-348 | new page iff only B has a page; hash update iff both do and the digests differ; a side's pagination flag needs that side's page; the summary flags follow from these |
| Increment.SideCoveringAllDatesNeedsNoPagination | hefoki-backend/src/logic/frontend.js:343-344 | a build holding every date of the merge never needs its side's pagination redone |
| Increment.ClassifySideFlags | hefoki-backend/src/logic/frontend.js:343-344 | over a merge of two sorted date lists, a side with a page for the entry is flagged for pagination iff the entry's chain `prev` or `next` is a date that side lacks |
| Increment.ClassifyAll | hefoki-backend/src/logic/frontend.js:326-359 | the flag loop annotates every entry with `Classify` |
| Increment.LinkKeys | hefoki-backend/src/logic/frontend.js:374 | the keys of the non-empty link URLs, in order |
| Increment.Dedup | hefoki-backend/src/logic/frontend.js:373-379 | `Array.from(new Set(s))`: no repeats, same elements |
| Increment.DisagreeIffOtherSet | hefoki-backend/src/logic/frontend.js:402-407 | on distinct link keys, the length-or-mismatch test holds iff the set of link keys differs from the neighbour's key (or the empty set) |
| Increment.NeedsRepaginationIffLinkSetsDiffer | hefoki-backend/src/logic/frontend.js:370-407 | a page is flagged iff the keys its prev or next links name differ from the merge's neighbour keys |
| Increment.Repaginate | hefoki-backend/src/logic/frontend.js:409-419 | a flagged page marks update, content update and pagination update, keeps the new-page and hash flags, and keeps the flags consistent |
| Increment.Enforce | hefoki-backend/src/logic/frontend.js:361-421 | every entry whose page needs repagination is repaginated; the others keep their flags |
| Increment.EntryFlags | hefoki-backend/src/logic/frontend.js:326-421 | an entry's flags after the flag loop and, when enabled, the enforcement loop: consistent; new-page and hash flags as `Classify` gives them; every update stays an update; pagination update iff `Classify` flags it or enforcement finds the links disagree with the neighbours |
| Increment.RenderedSettles | hefoki-backend/src/logic/frontend.js:430-436 | the written content is the page as built or the page with its links retargeted; retargeted when pagination is enforced or flagged, and then (no anchor with both classes) every link of a direction with a neighbour names that neighbour's URL |
| Increment.Publish | hefoki-backend/src/logic/frontend.js:427-440 | an entry writes only under its page's key, and then the page rendered for it (`Rendered`); it always writes when forcing or when it is a new update; an unforced, not-new entry writes iff it is an update and rendering changed the page |
| Increment.PublishCorrected | hefoki-backend/src/logic/frontend.js:427-440 | as intended: an entry writes iff forcing or it is an update, and writes its page's key with the rendered page |
| Increment.MaterialisedKeys | hefoki-backend/src/logic/frontend.js:426-441 | publishing (as written or as intended) adds only the entries' page keys and leaves every other key as it was |
| Increment.MaterialisedPublishes | hefoki-backend/src/logic/frontend.js:438-440 | every entry that writes ends up under its page's key |
| Increment.MaterialisedAt | hefoki-backend/src/logic/frontend.js:426-441 | with distinct page keys, an entry's key holds exactly what that entry wrote; an entry that wrote nothing leaves its key as it was in `static_pages` |
| Increment.Materialise | hefoki-backend/src/logic/frontend.js:426-441 | the publishing pass leaves `static_pages` as every entry's `Publish` in turn, whose keys and contents `MaterialisedKeys` and `MaterialisedAt` characterise |
| Increment.Prune | hefoki-backend/src/logic/frontend.js:446-453 | the pruning loop removes exactly the entries equal to the published file under that key |
| Increment.FlagEntries | hefoki-backend/src/logic/frontend.js:326-421 | the flag loop, then the enforcement loop when enabled, gives every entry its `EntryFlags` |
| Increment.NewDatesPublished | hefoki-backend/src/logic/frontend.js:438-439 | a date only the new build has is written under its page's key, as written and as intended |
| Increment.IncrementBetweenBuilds | hefoki-backend/src/logic/frontend.js:252-456 | the returned files are the uploads (`Uploads`) computed on a merge of the two builds' day pages by date (the merge is unique); `UploadsGuarantees` and `UploadedDayPage` state what these hold |
| Increment.DayMergeFacts | hefoki-backend/src/logic/frontend.js:271-320 | in the merge of two builds' day pages, each entry carries its date's old and new page, every new date has an entry, each page key is its entry's dated key of an old or new file, and page keys are distinct |
| Increment.UploadsGuarantees | hefoki-backend/src/logic/frontend.js:426-455 | the uploads' keys come from the two builds; unless forcing, nothing equals the published file under its key; forcing re-uploads every old file; every undated new file is uploaded as built unless that content is already published; every date new to the site has its page uploaded |
| Increment.NewDatesUploaded | hefoki-backend/src/logic/frontend.js:426-455 | the page of every date only the new build has is uploaded |
| Increment.UploadedDayPage | hefoki-backend/src/logic/frontend.js:426-455 | a day page is uploaded iff its entry writes it and, unless forcing, the rendered page differs from the published file; it is uploaded as rendered: retargeted at the chain neighbours when pagination is enforced or flagged, as built otherwise, and with enforcement (no anchor with both classes) its links name exactly the neighbours' URLs |
| Increment.UnchangedLinksNotUploaded | hefoki-backend/src/logic/frontend.js:438-440 | as written, without forcing, the page of a date the site already has whose links already name its neighbours is never uploaded, even when its content hash changed and it is flagged as an update |
| Increment.CorrectedUploadsUpdates | hefoki-backend/src/logic/frontend.js:427-453 | as intended, every page flagged as an update, a hash update among them, is uploaded as rendered unless that very content is already published under its key |
| Increment.ForceSuperset | hefoki-backend/src/logic/frontend.js:426-455 | a forced run uploads every key an unforced run with the same enforcement uploads |
| Increment.IdenticalSinglePageUploadsNothing | hefoki-backend/src/logic/frontend.js:252-456 | a build identical to a published site of one day page uploads nothing unless forced |
| Increment.LaterDayRelinksBoth | hefoki-backend/src/logic/frontend.js:252-456 | a site with one day page and a build with one page of a later date, each linking to a day in between that neither has: both pages are uploaded, the old one with its `next` link aimed at the new day and the new one with its `prev` link aimed at the old day |
| Increment.NovemberExample | hefoki-backend/src/logic/frontend.js:252-456 | the same with 2023-11-01 published, linking to 2023-11-02, and 2023-11-03 built, linking back to 2023-11-02: the two uploads link to each other |
| HeadlineDiff.PushGet | hefoki-backend/src/logic/headlines.js:10-12 | pushing a headline appends it to its date's list and changes no other date |
| HeadlineDiff.GroupedLookup | hefoki-backend/src/logic/headlines.js:4-16 | each date's list is exactly its headlines in input order, and dates without headlines are absent |
| HeadlineDiff.GroupedDistinct | hefoki-backend/src/logic/headlines.js:4-16 | each date appears once |
| HeadlineDiff.Flatten | hefoki-backend/src/logic/headlines.js:19-24 | `headlineDaysToHeadlineArray` holds exactly the headlines of the days' lists |
| HeadlineDiff.GroupedPermutation | hefoki-backend/src/logic/headlines.js:19-24 | flattening the grouped days gives back the input, reordered |
| HeadlineDiff.HeadlineArrayToHeadlineDays | hefoki-backend/src/logic/headlines.js:4-16 | the loop builds the grouped days, whose dates are distinct and whose headlines are the input's |
| HeadlineDiff.FirstFitIndex | hefoki-backend/src/logic/headlines.js:40-57 | the first remaining A headline that B matches, or none when none does |
| HeadlineDiff.FindFirst | hefoki-backend/src/logic/headlines.js:40-59 | the inner loop finds that first matching position |
| HeadlineDiff.MatchFirstFit | hefoki-backend/src/logic/headlines.js:27-79 | the nested loops with `delete` and `Object.values` compute the first-fit matching |
| HeadlineDiff.FirstFitPartitionsB | hefoki-backend/src/logic/headlines.js:53-65 | each B headline is either matched or unmatched, and both lists keep B's order |
| HeadlineDiff.FirstFitPartitionsA | hefoki-backend/src/logic/headlines.js:54-72 | each A headline is matched at most once; the matched and unmatched A headlines are A, and `unmatched_a` keeps A's order |
| HeadlineDiff.FirstFitSound | hefoki-backend/src/logic/headlines.js:52-53 | every matched pair satisfies the matcher's rule |
| HeadlineDiff.FirstFitMaximal | hefoki-backend/src/logic/headlines.js:33-65 | no leftover A headline matches a leftover B headline |
| HeadlineDiff.LinkListsMatchReorder | hefoki-backend/src/logic/headlines.js:45-57 | the link rule depends only on the two lists' contents, not their order |
| HeadlineDiff.HeadlinesMatchExact | hefoki-backend/src/logic/headlines.js:82-121 | `headlinesMatchExact` is first-fit on deep equality |
| HeadlineDiff.HeadlinesMatchTextExact | hefoki-backend/src/logic/headlines.js:124-163 | `headlinesMatchTextExact` is first-fit on equal text |
| HeadlineDiff.HeadlinesMatchExternalLinks | hefoki-backend/src/logic/headlines.js:27-79 | `headlinesMatchExternalLinks` is first-fit on the link rule |
| HeadlineDiff.NoLinksNoLinkMatch | hefoki-backend/src/logic/headlines.js:42-57 | headlines without links are never matched by links |
| HeadlineDiff.FirstFitUnmatchable | hefoki-backend/src/logic/headlines.js:27-79 | when nothing matches, nothing is matched and both inputs are returned unchanged |
| HeadlineDiff.FirstFitLeftovers | hefoki-backend/src/logic/headlines.js:27-79 | a matcher keeps its inputs: pairs plus leftovers are the two inputs, and leftovers do not match each other |
| HeadlineDiff.Reduce | hefoki-backend/src/logic/headlines.js:166-196 | one matched list per matcher, and `matched` is their concatenation |
| HeadlineDiff.ReduceShortCircuit | hefoki-backend/src/logic/headlines.js:177-180 | once either side is empty no further matcher runs: each records `[]` and the leftovers pass through |
| HeadlineDiff.ReduceConserves | hefoki-backend/src/logic/headlines.js:182-187 | when each matcher keeps its inputs, so does the pipeline |
| HeadlineDiff.ReduceHeadlineMatchers | hefoki-backend/src/logic/headlines.js:166-196 | the loop computes the pipeline |
| HeadlineDiff.DiffHeadlines | hefoki-backend/src/logic/headlines.js:199-241 | `diffHeadlines`: unmodified are the exact matches, updated are the text matches then the link matches, deleted and added are the leftovers |
| HeadlineDiff.ConcatFrom | hefoki-backend/src/logic/headlines.js:229-233 | the `updated` loop concatenates the matched lists of every matcher after the first, in matcher order |
| HeadlineDiff.DiffPartitions | hefoki-backend/src/logic/headlines.js:226-233 | every new headline is unmodified, updated or added exactly once, and every old one is paired or deleted exactly once |
| HeadlineDiff.DiffOfNothing | hefoki-backend/src/logic/headlines.js:177-180 | with no old headlines every new one is added |
| HeadlineDiff.DiffStages | hefoki-backend/src/logic/headlines.js:208-233 | the three stages written out: each matcher runs on the previous one's leftovers |
| HeadlineDiff.DiffUnmodifiedIdentical | hefoki-backend/src/logic/headlines.js:226 | unmodified pairs are two equal headlines |
| HeadlineDiff.DiffUpdatedRelated | hefoki-backend/src/logic/headlines.js:229-233 | updated pairs share their text or an external link |
| HeadlineDiff.DiffLeftoversUnrelated | hefoki-backend/src/logic/headlines.js:227-228 | no deleted headline could have been paired with an added one |
| HeadlineDiff.DiffHeadlineDays | hefoki-backend/src/logic/headlines.js:244-262 | for each new date in order, the diff against the old day or `[]` |
| HeadlineDiff.DiffDaysAt | hefoki-backend/src/logic/headlines.js:244-262 | entry `k` of the result is the `k`-th new date with the diff of its old headlines (or `[]`) against its new ones |
| HeadlineDiff.UpdatedDayOfNewDate | hefoki-backend/src/logic/headlines.js:255 | a date with no old headlines has all its headlines added and written |
| HeadlineDiff.DayItems | hefoki-backend/src/logic/headlines.js:269-272 | as written, the concatenated day list has one item per unmodified pair, updated pair and added headline |
| HeadlineDiff.MapDays | hefoki-backend/src/logic/headlines.js:268-273 | the fold writes one day per date, in order |
| HeadlineDiff.HeadlineDayDiffsToHeadlineDays | hefoki-backend/src/logic/headlines.js:265-276 | as written, each date gets the concatenated items |
| HeadlineDiff.HeadlineDayDiffsToHeadlineDaysCorrected | hefoki-backend/src/logic/headlines.js:265-276 | each date gets its new headlines, with unmodified pairs unwrapped |
| HeadlineDiff.HeadlineDayDiffsToUpdatedHeadlineDays | hefoki-backend/src/logic/headlines.js:279-289 | each date gets its added and updated headlines |
| HeadlineDiff.HeadlineDayRestores | hefoki-backend/src/logic/headlines.js:265-276 | a full update gives back the new day's headlines, reordered |
| HeadlineDiff.UpdatedDayOmitsUnmodified | hefoki-backend/src/logic/headlines.js:283-285 | an update-only day is the new day minus its unmodified headlines |
| HeadlineDiff.DiffDaysRestore | hefoki-backend/src/logic/headlines.js:244-276 | diffing old days against new ones and writing them back in full restores every new day |
| HeadlineDiff.DayItemsKeepPairs | hefoki-backend/src/logic/headlines.js:269-272 | as written, a headline that is the same in both scrapes is written back as the pair `[h, h]` |
| LegacyHeadlines.Headline.constructor | hefoki-backend/headlines.js:1-4 | a headline object holding its `external_links` array |
| LegacyHeadlines.InsertLink | hefoki-backend/headlines.js:2 | inserting into a sorted list keeps it sorted and adds exactly the one link |
| LegacyHeadlines.SortedLinks | hefoki-backend/headlines.js:2 | the sorted permutation of a links list |
| LegacyHeadlines.SortInPlace | hefoki-backend/headlines.js:2 | `sort()` leaves the array sorted in string order and a permutation of what it held |
| LegacyHeadlines.NormalizeHeadlineInplace | hefoki-backend/headlines.js:1-4 | sorts the headline's own links array in place and returns the same object |
| LegacyHeadlines.HeadlinesMatchExternalLinks | hefoki-backend/headlines.js:7-61 | every headline's links array ends sorted and permuted; the matched B headlines, unmatched A and unmatched B are first-fit on the links as they were given |
| LegacyHeadlines.MatchIgnoresLinkOrder | hefoki-backend/headlines.js:11-13 | sorting the links first does not change which headlines match |
| LegacyHeadlines.LegacyMatchPartitions | hefoki-backend/headlines.js:35-54 | each B headline is matched or unmatched, in B's order; each A headline is matched at most once |
| LegacyHeadlines.LinklessNeverMatched | hefoki-backend/tests/headlines.test.js:47-66 | A headlines without links match nothing |
| LegacyHeadlines.ScenarioOutcome | hefoki-backend/tests/headlines.test.js:68-101 | the first-fit outcome when only a1–b1 and a2–b2 match |
| LegacyHeadlines.MatchesAndNonMatches | hefoki-backend/tests/headlines.test.js:68-101 | the test's "matches and non-matches" case: B's first two are matched, B's last two and A's first are not |
| LegacyHeadlines.ScenarioMatch | hefoki-backend/tests/headlines.test.js:68-101 | with one distinct link per headline, the scenario matches as the test expects |
| LegacyHeadlines.FirstFixtureDistinct | hefoki-backend/tests/headlines.test.js:68-101 | the fixtures' first link differs from the other four |
| HeadlineTree.GenerateAlongPaths | headlines.js:18-49 | the tree fold yields, in order, one headline per root-to-leaf path |
| HeadlineTree.PathsPerLeaf | headlines.js:28-31 | there is one path per leaf |
| HeadlineTree.PathsEndAtLeaves | headlines.js:28-31 | every path ends at a leaf |
| HeadlineTree.GenerateCount | headlines.js:18-49 | the tree yields exactly as many headlines as it has leaves |
| HeadlineTree.LeafHeadline | headlines.js:28-31 | a leaf yields one headline with its own title, its own external links, and the parent's tags then its article links |
| HeadlineTree.AlongDate | headlines.js:20 | a headline's date is the deepest truthy date on its path |
| HeadlineTree.AlongTags | headlines.js:22-25 | a headline's tags are, from the root down, each category's article links, title and url, then the leaf's article links |
| HeadlineTree.AlongLeaf | headlines.js:29-30 | a headline's text and external links are its leaf's |
| HeadlineTree.PathHeadline | headlines.js:18-49 | the headline of one path from the root |
| HeadlineTree.GeneratedHeadline | headlines.js:18-49 | the k-th headline of a tree is the headline of its k-th path |
| HeadlineTree.SinceLastList | headlines.js:84-88 | the children after the last `ul` hold no `ul` |
| HeadlineTree.TitledLists | headlines.js:63-91 | each titled list is a `ul` child of the element |
| HeadlineTree.CollectTitledLists | headlines.js:63-91 | the accumulator loop records each `ul` with the last name and href seen since the previous `ul` |
| HeadlineTree.TitledListsAreTheLists | headlines.js:84-88 | every `ul` child is recorded once, in order |
| HeadlineTree.ListAfterListUntitled | headlines.js:85-87 | a `ul` right after another `ul` has neither name nor link |
| HeadlineTree.ArticleLinksOf | headlines.js:110-111 | the article links all start with `/wiki/` |
| HeadlineTree.ExternalLinksOf | headlines.js:113-114 | the external links start with `http` and not `/wiki/` |
| HeadlineTree.DroppedLinksOf | headlines.js:107-116 | the dropped links start with neither |
| HeadlineTree.LinksPartitioned | headlines.js:107-116 | every link lands in exactly one of the three lists |
| HeadlineTree.ClassifyLinks | headlines.js:105-116 | the leaf's link loop succeeds iff every link has an href, and then yields the article and external links |
| HeadlineTree.SubcategoryTags | headlines.js:134-140 | a wiki-link category tags its headlines with its url; any other category with its title and url |
| HeadlineTree.Items | headlines.js:144 | the `li` children are elements of the list |
| HeadlineTree.ProcessCurrentEventDOM | headlines.js:53-153 | `processCurrentEventDOM` computes the parse: a story when there is no `ul`, else a category with one subcategory per titled list |
| HeadlineTree.ParseListItems | headlines.js:144-147 | the inner loop parses each `li` child in order |
| HeadlineTree.ParseStoryIffNoList | headlines.js:99 | an element parses as a story exactly when it has no `ul` child |
| HeadlineStore.GroupHeadlinesByDate | hefoki-database/headlines-interface.js:1-10 | each date holds exactly its headlines in input order; dates are distinct; the headlines are the input's |
| HeadlineStore.FetchedGet | hefoki-database/headlines-interface.js:37-43 | the fetched object's keys are exactly the requested dates, each holding the stored day or undefined |
| HeadlineStore.AssignedLookup | hefoki-database/headlines-interface.js:52-54 | an update's dates get its days; every other date keeps its day |
| HeadlineStore.RoundTrip | hefoki-database/headlines-interface.js:29-55 | storing days and then fetching their dates gives back exactly those days |
| HeadlineStore.HeadlinesInterface.constructor | hefoki-database/headlines-interface.js:13 | a new store has no `headline_days` until it connects |
| HeadlineStore.HeadlinesInterface.Connect | hefoki-database/headlines-interface.js:21-26 | `connect` starts the store empty |
| HeadlineStore.HeadlinesInterface.GetHeadlineDays | hefoki-database/headlines-interface.js:37-43 | for an array: throws iff unconnected with a non-empty request; otherwise the requested dates with their stored days |
| HeadlineStore.HeadlinesInterface.GetHeadlineDay | hefoki-database/headlines-interface.js:33-35 | for one date: throws iff unconnected; otherwise `[day ?? null]` |
| HeadlineStore.HeadlinesInterface.UpdateHeadlineDays | hefoki-database/headlines-interface.js:47-55 | throws iff unconnected with a non-empty update; otherwise each entry overwrites its date; an empty update or a throw leaves the stored days as they were |
| HeadlineStore.StoreThenFetch | hefoki-database/headlines-interface.js:21-55 | after connect and update, fetching the updated dates returns exactly the stored days |
| StaticSite.SplitKeyRejoins | hefoki-backend/src/logic/static-site-file.js:33-36 | `key_directory + key_filename` is the key, whatever the separator |
| StaticSite.SplitKeyOneCharSeparator | hefoki-backend/src/logic/static-site-file.js:22-36 | with a one-character separator, the directory is empty or ends with it, and the file name has none |
| StaticSite.SplitKeyLongSeparator | hefoki-backend/src/logic/static-site-file.js:34 | as written, key `a::b` with separator `::` splits into `a:` and `:b` |
| StaticSite.SplitKeyCorrectedSound | hefoki-backend/src/logic/static-site-file.js:22-26 | the corrected split, for any non-empty separator: rejoins, the directory ends with the separator, and the file name has none |
| StaticSite.LocatorPrefixRejoins | hefoki-backend/src/logic/static-site-file.js:53-61 | without an explicit prefix, a prefix exists iff the locator ends with the key, and prefix + key is the locator |
| StaticSite.StaticSiteFile.constructor | hefoki-backend/src/logic/static-site-file.js:21-68 | the key is `key \|\| resource_key`, split at its last separator (`/` by default); a string locator comes with its separator and prefix, a nullish one leaves all three null; content and hash as given; not modified |
| StaticSite.StaticSiteFile.Content | hefoki-backend/src/logic/static-site-file.js:92-94 | returns the content |
| StaticSite.StaticSiteFile.SetContent | hefoki-backend/src/logic/static-site-file.js:96-100 | new content, no hash, not modified; the key, its directory, file name and separator, and the locator, its separator and prefix are unchanged |
| StaticSite.StaticSiteFile.Write | hefoki-backend/src/logic/static-site-file.js:106-110 | stores the given content, or keeps the old content when given null; drops the hash; returns what is stored; the key and locator fields are unchanged |
| StaticSite.StaticSiteFile.Hash | hefoki-backend/src/logic/static-site-file.js:112-118 | a truthy cached hash is returned as it is; otherwise the content's digest is cached and returned; null content throws; content, modified flag, key and locator fields are unchanged |
| StaticSite.NewStaticSiteFile | hefoki-backend/src/logic/static-site-file.js:28-48 | throws iff the key is not a string, or is empty with no resource key, or the locator is neither nullish nor a string; otherwise the directory and file name rejoin into the key |
| StaticSite.HashTwice | hefoki-backend/src/logic/static-site-file.js:112-118 | hashing twice gives the same digest, computed once |
| StaticSite.SetThenHash | hefoki-backend/src/logic/static-site-file.js:96-118 | after new content the hash is that content's digest, never a stale one |
| Tasks.ToLower | hefoki-backend/src/tasks/utils.js:11 | lower-cases each character, keeping the length |
| Tasks.LowerCharIs | hefoki-backend/src/tasks/utils.js:11 | a character lower-cases to a given lower-case letter iff it is that letter in either case |
| Tasks.ToLowerSpellsFalse | hefoki-backend/src/tasks/utils.js:11-12 | a string lower-cases to "false" iff it spells "false" in any mix of cases |
| Tasks.ParseBooleanFalseStrings | hefoki-backend/src/tasks/utils.js:10-19 | a string parses as false iff, once trimmed, it is "0" or "false" in any case |
| Tasks.TrimPadding | hefoki-backend/src/tasks/utils.js:11 | trimming ignores whitespace added around a string |
| Tasks.ParseBooleanIgnoresPadding | hefoki-backend/src/tasks/utils.js:11 | whitespace around a flag does not change how it parses |
| Tasks.ParseBooleanDefault | hefoki-backend/src/tasks/utils.js:21 | only a nullish value consults the default, and then takes its truthiness; the empty string is true |
| Tasks.FilterDetails | hefoki-backend/src/tasks/task.js:156-166 | object details lose exactly the excluded keys and keep the other values; other details are unchanged |
| Tasks.FilterDetailsCompose | hefoki-backend/src/tasks/task.js:162-166 | filtering by one set then another is filtering by both; filtering by nothing changes nothing |
| Tasks.NatToString | hefoki-backend/src/tasks/task.js:82 | the decimal spelling of a count is non-empty |
| Tasks.NatToStringInjective | hefoki-backend/src/tasks/task.js:82 | distinct counts are spelled differently |
| Tasks.AnonymousNamesDistinct | hefoki-backend/src/tasks/task.js:97 | `task-<n>` names for distinct counts differ |
| Tasks.Task.constructor | hefoki-backend/src/tasks/task.js:2-30 | a new task is unstarted, unfinished, unresolved, without exception or subtasks; its details are `details ?? {}`, its exclude set is the given keys, and its handler is the given function |
| Tasks.Task.Status | hefoki-backend/src/tasks/task.js:122-147 | the status is 102 exactly while the task is unfinished (or its recorded code is 102), is never 0, and is null exactly for a finished, unresolved task with no truthy code and no truthy exception |
| Tasks.Task.ToJson | hefoki-backend/src/tasks/task.js:156-181 | `toJSON` reports the task's status and its details filtered by the exclude set |
| Tasks.Task.Finish | hefoki-backend/src/tasks/task.js:116-120 | started and finished, nothing else changed |
| Tasks.Task.Resolve | hefoki-backend/src/tasks/task.js:102-107 | finished and resolved with the details, `null` for undefined (the default `details=null`); the status is the code when non-zero |
| Tasks.Task.Error | hefoki-backend/src/tasks/task.js:109-114 | finished, not resolved, with the exception recorded, `true` for undefined (the default `exception=true`); the status is the code when non-zero, and 500 when the code is 0 and the recorded exception truthy |
| Tasks.Task.Start | hefoki-backend/src/tasks/task.js:39 | started, nothing else changed |
| Tasks.Task.Settle | hefoki-backend/src/tasks/task.js:47-60 | success resolves with the details (null for nullish) and status 200; failure records the exception (`true` for a rejection with undefined) with status 500 and rethrows what was thrown |
| Tasks.Task.Run | hefoki-backend/src/tasks/task.js:38-63 | `run`: finished; resolved with status 200 and the (non-nullish) result as details on success; on an exception, not resolved, status 500, the exception recorded (`true` for undefined), the details kept and the exception rethrown; name, subtasks and exclude set unchanged |
| Tasks.Task.RunSubtask | hefoki-backend/src/tasks/task.js:81-84 | the subtask is registered under its name, replacing any previous one of that name, and run; its result or exception is passed through |
| Tasks.Task.RunNewSubtask | hefoki-backend/src/tasks/task.js:87-99 | a non-string name throws the constructor's TypeError and registers nothing; otherwise a new task with that name is registered and run; the parent's own state (status fields, details, exclude set) is unchanged |
| Tasks.Task.RunAnonymousSubtask | hefoki-backend/src/tasks/task.js:93-99 | as written, the one argument (a handler or an options object) becomes the new task's third constructor argument, and every such subtask is named `task-undefined`, replacing the previous one; the parent's own state is unchanged |
| Tasks.Task.RunAnonymousSubtaskCorrected | hefoki-backend/src/tasks/task.js:97-99 | as intended, a one-argument subtask (a handler or an options object) is named after the number of subtasks so far and added; the parent's own state is unchanged |
| Tasks.NewTask | hefoki-backend/src/tasks/task.js:2-4 | `new Task` throws a TypeError iff the name is not a string; otherwise the task has status 102 and no subtasks |
| Tasks.RunsSubtasks | hefoki-backend/tests/task.test.js:21-52 | the test's root task with two subtasks: all statuses are 200, both subtasks are registered in order, and the details are their names |
| Tasks.ExcludesProperties | hefoki-backend/tests/task.test.js:55-70 | `toJSON` drops the excluded property and keeps the other |
| Tasks.UndefinedRejection | hefoki-backend/src/tasks/task.js:47-60 | a handler rejecting with undefined leaves the task failed with status 500 and the exception recorded as `true`, and the rejection is passed on unchanged |
| Tasks.AnonymousSubtasksCollide | hefoki-backend/src/tasks/task.js:93-98 | as written, two one-argument subtasks leave a single entry: the second replaces the first |
| Tasks.AnonymousSubtasksKept | hefoki-backend/src/tasks/task.js:97-98 | as intended, two one-argument subtasks are kept as `task-0` and `task-1` |

## Left out

- IndexedMerge.MergeIndexed: requires that B does not run out while A still has a larger key. The loop as written never ends on such input (`IndexedMerge.SourceDiverges`). In `incrementBetweenBuilds` this holds when every old date has a new date at or after it (`Increment.LastReaches`).
- IndexedMerge.MergeIndexed: the `TypeError` for non-array inputs (`hefoki-backend/src/logic/frontend.js:26-31`) is not modelled; the model's inputs are always sequences.
- Js.LexLessIsStrictTotalOrder: `LexLess` compares Unicode scalar values, while JavaScript's `<` and `sort()` compare UTF-16 code units. The two orders differ only on strings with characters above U+FFFF, which date keys never contain.
- Pagination.UpdatePaginationIdempotent: proved only for pages where no anchor has both the `prev` and `next` classes. With such an anchor, the second direction can undo the first.
- HTML parsing and serialisation (Cheerio): pages are classed anchors plus opaque text, and the portal's DOM is an abstract element tree.
- `parseHeadlinesFromHtml`, `fetchHeadlines` and the portal download are not modelled: network and Cheerio queries.
- Filesystem, S3, CloudFront, DynamoDB and SQLite access, `walkSSGFilesAsync`, the deploy and upload functions, `localizePath`, and the `StaticSiteFileLocal`/`StaticSiteFileS3` subclasses are not modelled: they are I/O.
- MD5 is the `digest` parameter; the model does not compute it.
- `Promise.all` concurrency is modelled as a sequential pass. In `incrementBetweenBuilds` the concurrent writes go to distinct keys.
- In `Task.run`, the handler's settled value or exception and `runSubtasks`' waiting are the `outcome` parameter. The model does not run the handler or the subtasks.
- Task time fields (`start_time`, `end_time`, `duration`), the `tasks`/`start_time`/`end_time` constructor options, argument spreading, and `this.promise` are not modelled.
- Tasks.Task.RunSubtask: the arity check (no argument, or more than three, throws a TypeError) is not modelled; each arity is its own method.
- Tasks.Task.Status: the 207 branch is unreachable as written: `status_codes` is a `Set`, whose `length` is undefined. The model omits it.
- Tasks.Task.ToJson: `exception?.toString()` is kept as the exception value. Subtasks are reported without their own JSON serialisation.
- Tasks.FilterDetails: object key order is not modelled, since details objects are maps.
- Tasks.ToLower: lowers ASCII letters only. No other character lower-cases into a letter of "false" or "0", so `parseBoolean`'s result is the same.
- The diverging copies of `parseBoolean` in `task-frontend.js` and `task-headlines.js` are not part of this model.
- HeadlineDiff.ExactMatch: `deepEqual` is structural equality on the headline datatype.
- LegacyHeadlines.HeadlinesMatchExternalLinks: headlines with null `external_links` (which throw in the older file) are not modelled; every headline has a links array.
- JavaScript's ordering of integer-like object keys and inherited prototype keys are not modelled: dictionaries keep insertion order.
- HeadlineTree: the parse nodes' `element` and `parent` back-references are not modelled; comments and text nodes are one non-element kind.
- StaticSite.StaticSiteFile.constructor: a non-string `resource_key` or separator, and `mimetype` (`Mime.lookup` of an undefined `key_name`), are not modelled.
- Pagination.NormalizeKeyToUrl: only its absolute-path result and the date round trip are proved. `slice(0, 10)` on keys other than `yyyy-mm-dd/index.html` is modelled but not characterised.
- Increment.IncrementBetweenBuilds: returns the uploads as written (`Publish`); the intended publishing (`PublishCorrected`) is modelled in `Uploads` with `corrected` set, and every lemma about `Uploads` holds for both.
- Increment.Uploads: running the pass twice (idempotence) is not proved. A second run would compare against a published site that the first run's uploads changed, and the deploy that publishes them is not modelled.
- Increment.MergeDays: a date only the old build has stays in the merged chain, so its neighbours keep linking to it. Removing a day from the site is not a case the code repairs, and the model follows the code.

## Findings

| source | as written | input that shows it | evidently intended | confidence | as-written member | corrected member |
|---|---|---|---|---|---|---|
| hefoki-backend/frontend.js:314-315 | `a && p !== q \|\| r !== s` groups as `(a && p !== q) \|\| r !== s`, so a side without a page can still be flagged for a pagination update | the test's merge of [1,2,3] with [0,2,3,4]: the entry for key 1 has no B page, its `next` is 2 and its `b_next` is null, so it is flagged for a B pagination update and so for an update | `a && (p !== q \|\| r !== s)`, as the newer `src/logic/frontend.js:343-344` writes it | high, not executed | LegacyFrontend.LegacyFlagsMarkMissingSide | Increment.Classify |
| hefoki-backend/src/logic/headlines.js:269-272 | `diff.unmodified.concat(...)` keeps the unmodified `[a, b]` pairs as two-element arrays inside the day list | a day whose only headline `h` is unchanged is written back as `[[h, h]]` | `diff.unmodified.map(hp => hp[1]).concat(...)`, so the day lists the new headlines | high, not executed | HeadlineDiff.DayItemsKeepPairs | HeadlineDiff.HeadlineDayRestores |
| hefoki-backend/src/logic/static-site-file.js:34 | the file name starts at `lastIndexOf(sep) + 1`, one character after the separator starts, whatever the separator's length | key `a::b` with separator `::` gives directory `a:` and file name `:b` | `lastIndexOf(sep) + sep.length`, so that the directory ends with the separator (all callers use `/`) | medium, not executed | StaticSite.SplitKeyLongSeparator | StaticSite.SplitKeyCorrectedSound |
| hefoki-backend/src/tasks/task.js:94 | `task-${this.tasks.length}` reads `length` of a plain object, which is undefined | two `runSubtask(fn)` calls: both tasks are named `task-undefined`, and the second replaces the first | `task-${Object.values(this.tasks).length}`, as line 97 counts | high, not executed | Tasks.AnonymousSubtasksCollide | Tasks.AnonymousSubtasksKept |
| hefoki-backend/src/logic/frontend.js:438-440 | `if (force \|\| content != original_content \|\| merge_entry.is_new_page)` writes an update only when rendering changed it or it is a new page | without `force`, a date both builds have whose new page differs from the published one (a hash update) but whose links already name its chain neighbours: rendering leaves it unchanged, so it is never uploaded | every `is_update` entry is written and pruning drops what equals the published file, as the comment at lines 327-332 says a page may be updated because its content hash differs | high, not executed | Increment.UnchangedLinksNotUploaded | Increment.CorrectedUploadsUpdates |
