# TweetMap result table, as a verified model

TweetMap searches Bluesky posts and shows them in a table. This project models the parts of it that compute something:

- **Media classification** (`getMediaInfo`). It collects a post's image URLs and finds a video thumbnail from a fixed list of optional fields. Failing that, it derives one from a YouTube link. It decides whether the post is a video from twelve independent signals. For a video without a thumbnail, it builds a placeholder: a gradient coloured by a 32-bit rolling hash of the record key, and an icon chosen by the linked platform.
- **Row values** (`createTableRow`). These are the profile and post links, the post text truncated to 40 UTF-16 code units, and the two count cells `❤️ n` and `🔄 n`.
- **Sort controller** (`handleSortClick`, `sortTable`). Each sortable header steps through none → desc → asc → none, and the other header is reset. Rows are reordered stably by the count the comparator reads back from the cell text. Returning to "none" asks for a page reload.
- **Search pipeline** (the search button handler). It reads the limit and the like range from the form, then filters by like range and by the image/video requirements. It cuts the list to the limit and chooses between the alert, "no results", "no matching results", the error message and the table with its optional "no more results" line.

**Modelling approach**

- **Posts.** Posts are JSON values (`Json.JValue`), and optional chaining is a lookup that returns `Option`, where `None` stands for `undefined`.
- **Strings.** Strings are sequences of UTF-16 code units, because the hash reads `charCodeAt` and truncation counts code units.
- **Exceptions.** A JavaScript exception is `Options.Result.Thrown`. The code has no guards of its own, so it throws on unusual JSON, for example on a post without `uri`, on a non-string link, or on a `null` post once a like bound is given. The model throws where the code does on the JSON values it models; the gaps are listed under "Left out".
- **Imperative code.** Loops that push, flip a flag or break are methods. Each is proved equal to a specification function, and the properties are lemmas about those functions.
- **Sort controller.** The controller is a class whose methods update its direction and arrow fields and sort its row array in place.
- **Fetch.** The fetch is a parameter of the search handler: what `BskyApi.search` returned, or that it threw.
- **Pipeline callbacks.** The pipeline's functions and lemmas take the classifier and the row builder as function values, so each property holds for any classifier. `SearchPipeline.OnSearchClick` binds them to `MediaClassifier.Classify` and `ResultTable.BuildRow`, as the page does.

**Two behaviours that are easy to miss** (the model follows the code):

- **Classification can throw.** `getMediaInfo` throws, for example, when:
  - the post is `null`;
  - it has no `uri`, or a `uri` that is neither a string nor an array;
  - it has a truthy `embed.images` that is not an array, or one with a `null` entry;
  - it has a truthy external link, `mimeType` or text that is neither a string nor an array, so it has no `includes`;
  - it has an array link whose entries lead the YouTube or Vimeo branch to call `split` on it;
  - a video placeholder's seed is not a string but has a positive `length`, so the hash loop calls `charCodeAt` on it.

  `WellShapedClassifies` shows that posts of the shapes Bluesky returns never throw.
- **No embed does not always mean no media.** A post with no embed and no video word in its text is still marked as video when its uri holds one of the two hard-coded record keys `3lm7a45qdsc25` and `3lm75kx6fzc2t`, and `record.embed` still counts. `NoEmbedNoMedia` states the property with those exclusions.

## Model

| member | source | states |
|---|---|---|
| MediaClassifier.GetMediaInfo | js/uiComponents.js:170-501 | getMediaInfo's result is the classification `Classify(post)`, throwing exactly where the source throws, and `hasMedia` is `images ≠ [] or isVideo` |
| MediaClassifier.CollectImages | js/uiComponents.js:180-186 | the forEach over `embed.images` pushes exactly the truthy `fullsize` values in order; a truthy non-array `images` or a null entry throws |
| MediaClassifier.TruthyFullsizesAppend | js/uiComponents.js:180-186 | collecting images distributes over concatenation, so the entries' order is kept |
| MediaClassifier.TruthyFullsizesMembers | js/uiComponents.js:180-186 | a value is collected exactly when some entry's `fullsize` is that value and it is truthy |
| MediaClassifier.ProbeThumbnailPaths | js/uiComponents.js:229-235 | the loop with `break` keeps the first truthy candidate, or nothing |
| MediaClassifier.FirstTruthyAt | js/uiComponents.js:229-235 | the candidate taken is the first truthy one: all earlier ones are falsy |
| MediaClassifier.FirstTruthyNone | js/uiComponents.js:229-235 | no candidate is taken exactly when every candidate is falsy |
| MediaClassifier.ImageFallbackThumbnail | js/uiComponents.js:213-226 | with the first sixteen candidates falsy, `embed.images[0].fullsize` becomes the thumbnail, for video and image-only posts alike |
| MediaClassifier.ImageFallbackCandidate | js/uiComponents.js:213-235 | with the first sixteen candidates falsy and a truthy first image, the probe loop takes that image as the URL thumbnail |
| MediaClassifier.ClassifyGenerated | js/uiComponents.js:428-500 | a video post without a URL thumbnail gets the placeholder as its thumbnail and counts as media |
| MediaClassifier.FindThumbnail | js/uiComponents.js:189-302 | the thumbnail comes from the fixed paths first, and from the YouTube link loop only when no path matched |
| MediaClassifier.DeriveFromUrls | js/uiComponents.js:247-301 | the link loop, stopping at the first thumbnail or exception, computes `DeriveThumbnail(urls)`; the lemmas below say what that is |
| MediaClassifier.DeriveThumbnailAt | js/uiComponents.js:247-301 | the first link whose probe does not come back empty decides the loop: its thumbnail is returned, or its exception ends the loop |
| MediaClassifier.DeriveThumbnailNone | js/uiComponents.js:247-301 | the loop derives nothing and does not throw exactly when every link's probe comes back empty |
| MediaClassifier.WatchLinkId | js/uiComponents.js:254-258 | for a watch link the id is the text after the first `v=`, up to the next `v=` or `&`, and contains neither |
| MediaClassifier.ShortLinkId | js/uiComponents.js:259-263 | for a `youtu.be/` link the id is the text after it, up to `?` or a second `youtu.be/`, and contains neither |
| MediaClassifier.DerivedFromYouTube | js/uiComponents.js:238-302 | a derived thumbnail comes from the first link whose probe found one, every earlier probe having found nothing; that link is a YouTube link with a non-empty id and the thumbnail is `https://img.youtube.com/vi/{id}/hqdefault.jpg`; Vimeo, X, Twitch and TikTok links give none |
| MediaClassifier.DeriveThumbnailOfStrings | js/uiComponents.js:247-301 | the link loop never throws on string links |
| MediaClassifier.DetectVideo | js/uiComponents.js:306-425 | after the twelve checks `isVideo` is the disjunction of the signals; no check clears it; only the mime, link, uri and text checks can throw |
| MediaClassifier.ScanExternalUrls | js/uiComponents.js:345-363 | the external-link loop sets the flag at the first link naming youtube.com, youtu.be, vimeo.com, .mp4 or video, and breaks |
| MediaClassifier.ScanMediaKeys | js/uiComponents.js:378-389 | the media-object loop sets the flag at the first object with a key mentioning video, stream or duration |
| MediaClassifier.MissingUriThrows | js/uiComponents.js:392-393 | a post without `uri` is never classified: `post.uri.includes` throws |
| MediaClassifier.WithoutEmbedOrRecord | js/uiComponents.js:304-425 | without `embed` and `record`, no image, thumbnail or video signal fires except the forced record keys and the text; the serialized-embed check is swallowed by its catch |
| MediaClassifier.NoEmbedNoMedia | js/uiComponents.js:170-501 | a post with no embed or record, no forced key and no video word is classified as no media, no images, no video, no thumbnail |
| MediaClassifier.GeneratedOnlyForVideo | js/uiComponents.js:432-500 | a generated thumbnail appears exactly when the post is video and no URL thumbnail was found; otherwise the thumbnail is the URL one |
| MediaClassifier.SynthesizeThumbnail | js/uiComponents.js:432-493 | the placeholder is built from the seed, the icon and the gradient, throwing where the source does |
| MediaClassifier.SeedOfKey | js/uiComponents.js:435-436 | a non-empty record key is the colour seed, whatever the text |
| MediaClassifier.SameKeySamePlaceholder | js/uiComponents.js:435-490 | two posts with the same record key and the same links get the same placeholder |
| MediaClassifier.StringSeedBackground | js/uiComponents.js:456-460 | a string seed gives `linear-gradient(45deg, c(seed), c(seed + 'alt'))` |
| MediaClassifier.SeedHash | js/uiComponents.js:438-445 | a string seed hashes to `Hash(seed)`; any other seed throws exactly when its `length` is a number above 0, and otherwise hashes to 0 |
| MediaClassifier.GradientFor | js/uiComponents.js:438-460 | the gradient computed with the hashCode loop equals its specification, throwing for a non-string seed with a positive `length` |
| MediaClassifier.ClapperBoardExample | js/uiComponents.js:403-490 | a post whose text has the clapper board and whose embed is null is video, with the gradient of its record key and the default icon |
| MediaClassifier.WellShapedClassifies | js/uiComponents.js:170-501 | classification never throws on a post with a string uri, image objects, string links, mime types and text |
| MediaClassifier.LookupsThroughAbsent | js/uiComponents.js:191-226 | every optional chain through a missing or null `embed`/`record` is undefined |
| Synthesis.HashCode | js/uiComponents.js:438-445 | the hashCode loop returns `Hash(s)`, at most 2^31 |
| Synthesis.HashStepIsTimes31 | js/uiComponents.js:441-442 | `((h << 5) - h) + c` followed by `\|= 0` is `31·h + c` wrapped to signed 32 bits |
| Synthesis.HashFoldIsPolynomial | js/uiComponents.js:439-443 | the folded hash is the base-31 polynomial of the code units, wrapped to 32 bits once |
| Synthesis.ToInt32 | js/uiComponents.js:442 | `\|= 0` yields a signed 32-bit value congruent to its argument modulo 2^32 |
| Synthesis.ToInt32Congruent | js/uiComponents.js:442 | arguments equal modulo 2^32 wrap to the same value |
| Synthesis.HashFold | js/uiComponents.js:439-443 | the hash after the loop is a signed 32-bit integer |
| Synthesis.Hash | js/uiComponents.js:444 | `Math.abs` of the folded hash is at most 2^31 |
| Synthesis.JsRem | js/uiComponents.js:450-452 | `%` truncates: it is the mathematical remainder for a non-negative dividend and the negated remainder of the magnitude for a negative one, so it keeps the dividend's sign |
| Synthesis.ChannelsBright | js/uiComponents.js:447-454 | every hash below 2^31 gives three channels in [100, 254] |
| Synthesis.ChannelsAtTwoTo31 | js/uiComponents.js:450-452 | for the hash 2^31 the signed `>>` makes green 92 and blue 37, below 100 |
| Synthesis.EdgeKeyHash | js/uiComponents.js:438-454 | the record key `3lmb7drzm22xn` hashes to 2^31, so its placeholder colour is not bright |
| Synthesis.IconPrecedence | js/uiComponents.js:462-482 | with string links the icon follows youtube > vimeo > twitter/x.com > tiktok > twitch, defaulting to the clapper board |
| Json.Lookup | js/uiComponents.js:191 | a property is found exactly when a member with that name exists, and its value is that member's |
| Json.PathOfUndefined | js/uiComponents.js:191 | an optional chain on undefined stays undefined |
| Json.TruthyValues | js/uiComponents.js:239-245 | `.filter(Boolean)` keeps exactly the truthy defined values |
| Json.TruthyValuesAreFiltered | js/uiComponents.js:239-245 | `.filter(Boolean)` keeps the truthy values in their order and with their multiplicity: position by position it is the filter of the lookups by truthiness |
| Json.LengthNumber | js/uiComponents.js:440 | `v.length` is the code-unit count of a string, the item count of an array, and NaN for an object without a `length` member |
| Json.TruthyValuesOfFalsy | js/uiComponents.js:466-470 | filtering only falsy lookups leaves nothing |
| Json.IncludesAny | js/uiComponents.js:392-393 | `includes` is defined exactly on strings and arrays; on anything else the call throws |
| Json.SomeIncludesDecidedAt | js/uiComponents.js:339 | `.some(v => v && v.includes(..))` is decided by the first entry that matches or throws |
| Json.SomeIncludesUndecided | js/uiComponents.js:339 | with no entry matching or throwing, `.some` answers false |
| Json.SomeIncludesOfStrings | js/uiComponents.js:472-481 | on string entries `.some` never throws and answers whether some entry matches |
| JsStrings.LastSegmentOfJoin | js/uiComponents.js:435 | `split('/').pop()` of a text ending in `/seg` is `seg` |
| JsStrings.TrimEmptyIffBlank | js/main.js:12-13 | the trimmed query is empty exactly when the query is all whitespace |
| JsStrings.ParseIntOfDigits | js/uiComponents.js:145-146 | `parseInt` of a run of decimal digits is its decimal value |
| JsStrings.ParseIntOfNatText | js/uiComponents.js:145-146 | `parseInt` reads back the decimal text of a natural number |
| JsStrings.KeepDigitsAppend | js/uiComponents.js:145 | `replace(/[^\d]/g, '')` distributes over concatenation |
| JsStrings.KeepDigits | js/uiComponents.js:145 | `replace(/[^\d]/g, '')` leaves only decimal digits and never lengthens the text |
| JsStrings.IndexOf | js/uiComponents.js:254-262 | the position found is the first occurrence of the needle, and -1 exactly when there is none |
| JsStrings.BeforeFirst | js/uiComponents.js:256-262 | `split(t)[0]` is a prefix free of `t` that `t` follows, or the whole text when `t` does not occur |
| JsStrings.LastSegment | js/uiComponents.js:435 | `split('/').pop()` is the slash-free tail of the text, preceded by a slash whenever it is not all of it |
| JsStrings.TrimStart | js/main.js:12 | `trim` drops exactly the leading whitespace: what it drops is whitespace and what is left does not start with whitespace |
| JsStrings.TrimEnd | js/main.js:12 | `trim` drops exactly the trailing whitespace: what it drops is whitespace and what is left does not end with whitespace |
| JsStrings.NatDigits | js/uiComponents.js:601 | the count is shown as a non-empty run of decimal digits |
| ResultTable.Truncate | js/uiComponents.js:587-588 | a text of at most 40 units is shown as is; a longer one as its first 40 units followed by `...` |
| ResultTable.TruncateIdempotent | js/uiComponents.js:588 | truncating a shown text again changes nothing |
| ResultTable.TruncateBounds | js/uiComponents.js:588 | the shown text has at most 43 units and begins with the post text's first 40 |
| ResultTable.PostUrlKeepsRecordKey | js/uiComponents.js:592 | the post link ends in the record key: its last `/` segment is the uri's |
| ResultTable.ParseCount | js/uiComponents.js:145-146 | the comparator's key is the value of the cell's decimal digits, and 0 when it has none |
| ResultTable.ParseCountOfTail | js/uiComponents.js:145-146 | a digit-free prefix followed by digits reads back as the digits' value |
| ResultTable.CountRoundTrip | js/uiComponents.js:601 | the cell `❤️ n` reads back as `n` |
| ResultTable.CountOfFalsy | js/uiComponents.js:601 | a missing or falsy count shows `0` and reads back as 0 |
| ResultTable.NegativeCount | js/uiComponents.js:145-146 | the comparator drops the minus sign of a negative count |
| ResultTable.CountReadsBack | js/uiComponents.js:600-605 | a count cell reads back as the magnitude of a numeric count, and as 0 for a missing or falsy one |
| ResultTable.Snippet | js/uiComponents.js:587-588 | the text cell throws exactly when a truthy non-string `record.text` has a `length` above 40, which leads to a missing `substring` |
| ResultTable.BuildRowParts | js/uiComponents.js:508-613 | a built row holds the classification, the profile link from the handle, the post link from a string uri, the text snippet and the two count cells |
| ResultTable.BuildRowMeaning | js/uiComponents.js:508-613 | a built row keeps the classification, links to the post's record key and shows counts the sort reads back as the post's counts |
| Options.MapAll | js/uiComponents.js:66-71 | building the body gives one row per post in order, or throws exactly when some row throws |
| SortController.SortableTable.constructor | js/uiComponents.js:36-40 | a new table has both headers unsorted with the double arrow |
| SortController.SortableTable.Click | js/uiComponents.js:80-121 | the clicked column moves none → desc → asc → none; the other becomes none; arrows follow; for asc/desc the rows are stably sorted by count; for none a reload is requested and the rows stay |
| SortController.SortableTable.SortTable | js/uiComponents.js:128-163 | direction none requests a reload and leaves the rows; otherwise the rows become their stable sort by the comparator |
| SortController.HandleSortClick | js/uiComponents.js:80-121 | without a table nothing changes; with one, the clicked column moves to its next direction and the other to none, arrows follow, and the rows are stably sorted by count or a reload is requested |
| SortController.SortRows | js/uiComponents.js:158 | `rows.sort(compareFn)` leaves the rows sorted, a permutation of before, with equal counts in their prior order |
| SortController.Compare | js/uiComponents.js:140-155 | the comparator is negative, zero or positive as the first row's key is below, equal to or above the second's, negated for descending order |
| SortController.CompareZeroIffSameCount | js/uiComponents.js:153-155 | two rows compare equal exactly when they show the same count |
| SortController.SortedByCount | js/uiComponents.js:140-158 | rows sorted by the comparator show ascending counts for asc and descending counts for desc |
| StableSort.InsertionSort | js/uiComponents.js:158 | a stable sort by key: sorted, a permutation, every group of equal keys in its original order |
| StableSort.InsertLast | js/uiComponents.js:158 | one insertion step extends the sorted prefix by one element and keeps every group of equal keys and the multiset |
| StableSort.StableSortUnique | js/uiComponents.js:158 | the stable-sort contract fixes the result: two sorted orders with the same groups of equal keys are equal |
| SearchPipeline.Search | js/main.js:11-91 | the handler's step-by-step result, with early returns, is the view `SearchView(classify, build, form, fetched)` for the classifier and row builder it calls |
| SearchPipeline.OnSearchClick | js/main.js:11-91 | the handler as wired to `getMediaInfo` and `createTableRow` shows `SearchView(Classify, BuildRow, form, fetched)` |
| SearchPipeline.FilterAndCut | js/main.js:31-70 | reassigning the working list through the like filter, the media filter and the cut yields `Selected(...)`, or the exception of a `null` post under a like bound or of a throwing classification |
| SearchPipeline.Limit | js/main.js:21 | the limit is the parsed count unless that is NaN or 0, then 20; it is never 0 |
| SearchPipeline.Truncated | js/main.js:68-70 | the cut list is a prefix of at most `limit` posts for a non-negative limit; a negative limit drops that many from the end |
| SearchPipeline.Rows | js/main.js:77 | the table has one row per shown post, in order, or the handler fails when some row throws |
| SearchPipeline.ResultsView | js/main.js:24-87 | once the fetch has returned, the alert is never shown, and "no results" is shown exactly when the fetch returned nothing |
| SearchPipeline.SelectedAreFirstWanted | js/main.js:34-70 | the shown posts are the first `limit` fetched posts that pass both filters, in fetched order |
| SearchPipeline.SelectedSubsequence | js/main.js:34-70 | the shown posts are an order-preserving subsequence of the fetched ones, at most `limit` of them for `limit ≥ 0`, each passing both filters |
| SearchPipeline.WantedAreShown | js/main.js:34-70 | a fetched post passing both filters is shown whenever the filtered list fits the limit |
| SearchPipeline.LikeFilterMeaning | js/main.js:34-47 | the like filter throws exactly when a bound is given and some post is `null`; otherwise it keeps exactly the posts within the bounds |
| SearchPipeline.SelectedThrows | js/main.js:34-70 | the filters throw exactly when a bound is given and some post is `null`, or a requirement is checked and a post passing the like stage has a throwing classification |
| SearchPipeline.NullPostFails | js/main.js:34-90 | with a non-blank query and a like bound, a `null` fetched post shows the error message |
| SearchPipeline.MediaFilterThrows | js/main.js:51-64 | the media filter throws exactly when a requirement is checked and some post's classification throws |
| SearchPipeline.WithinBoundsMeaning | js/main.js:36-46 | a post is kept exactly when its count is not below a given minimum nor above a given maximum |
| SearchPipeline.NaNExcludesNothing | js/main.js:31-46 | a bound that parses to NaN, or a count that is NaN, excludes nothing |
| SearchPipeline.NoFilterKeepsAll | js/main.js:34-70 | with no bound and no requirement the shown posts are the fetched ones, cut to the limit |
| SearchPipeline.AlertIffBlank | js/main.js:12-16 | the alert appears exactly when the query is all whitespace |
| SearchPipeline.NoResultsIffEmptyFetch | js/main.js:24-27 | "no results" appears exactly when the query is not blank and the fetch returned nothing |
| SearchPipeline.NoMatchingIffFilteredAway | js/main.js:72-75 | "no matching results" appears exactly when the fetch returned posts and nothing survived the filters and the cut |
| SearchPipeline.TableMeaning | js/main.js:77-87 | the table has one row per shown post; the "no more results" line appears exactly when fewer rows than both the limit and the fetched count are shown |
| Subsequences.FilterIsSubsequence | js/main.js:35-47 | `filter` returns an order-preserving subsequence |
| Subsequences.FilterMembers | js/main.js:35-47 | a post survives `filter` exactly when it is in the list and passes the test |
| Subsequences.FilterKeepsAll | js/main.js:34 | a test every post passes keeps the list unchanged |
| Subsequences.FilterFilter | js/main.js:35-64 | the like filter followed by the media filter is one filter by both tests |
| Subsequences.PrefixIsSubsequence | js/main.js:68-70 | `slice(0, limit)` is a subsequence |

## Left out

- The DOM, `innerHTML` and the HTML around each value are not modelled. This covers `createResultTable`, `createTableHeader`, `createTableBody` and the markup of `createTableRow`. A count or text containing markup would change the cells' `textContent`; the model reads back the template's text as written.
- `location.reload()` is a page reload. The model records that a reload was requested and leaves the rows as they were.
- Numbers are integers, so floating point is not modelled. This affects:
  - a fractional like count;
  - `parseInt` of more than 15 digits, which loses precision in JavaScript;
  - number text of 1e21 and above, which JavaScript writes in exponent form.
- JSON.parse with duplicate keys keeps the last one; `Json.Lookup` takes the first. Bluesky objects have distinct keys.
- `JSON.stringify` is modelled for null, booleans, strings, arrays and objects in member order. Integer numbers use their decimal text.
- Json.ToNumber: a string or array like count or `length` is read as a number only when it is an optionally signed decimal integer. Hexadecimal, binary, octal, fractional, exponent and `Infinity` forms are treated as NaN. An object is always NaN: JSON objects cannot carry callable `valueOf` or `toString` members, and an own member of that name that is not callable, which makes JavaScript throw, is not modelled.
- `Array.prototype.sort`'s own algorithm is not specified beyond stability. The model sorts by insertion, and `StableSort.StableSortUnique` shows that every stable sort gives the same result.
- The network call `BskyApi.search` and the async control flow are not modelled, and neither is the race between overlapping searches. The handler takes the fetch's outcome as a parameter.
- These are left out because they are output or DOM code only:
  - `console.log` / `console.error` and the debug-mode logging;
  - the zoom helpers `showZoomedImage`, `moveZoomedImage` and `hideZoomedImage`;
  - `js/app.js`, `app.js` and `js/bskyApi.js`, which are event wiring, table building and the network wrapper.
- The Vimeo, Twitter/X, Twitch and TikTok branches of the link loop only log, so they are modelled as giving no thumbnail.
