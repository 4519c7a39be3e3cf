// The search button's handler: read the limit and the like bounds from the
// form, keep the fetched posts whose like count lies within the bounds and
// whose media meet the checked requirements, cut the list to the limit and
// choose what the results area shows. The fetch itself is a parameter.

module SearchPipeline {
  import opened Options
  import opened JsStrings
  import opened Json
  import opened MediaClassifier
  import opened ResultTable
  import opened Subsequences

  /** The limit used when the result-count field is empty, not a number or 0. */
  const DEFAULT_LIMIT: int := 20

  // ---------------------------------------------------------------------
  // Reading the form

  /** `parseInt(resultCount.value) || 20` */
  function Limit(countText: JsString): (n: int)
    ensures n != 0
    ensures ParseInt(countText).Some? && ParseInt(countText).value != 0 ==> n == ParseInt(countText).value
    ensures ParseInt(countText).None? || ParseInt(countText) == Some(0) ==> n == DEFAULT_LIMIT
  {
    match ParseInt(countText)
    case Some(v) => if v != 0 then v else DEFAULT_LIMIT
    case None => DEFAULT_LIMIT
  }

  /**
   * `field.value ? parseInt(field.value) : null`: `None` for an empty field
   * (null), `Some(None)` for a value that parses to NaN.
   */
  function Bound(text: JsString): Option<Option<int>>
  {
    if text == [] then None else Some(ParseInt(text))
  }

  // ---------------------------------------------------------------------
  // Like counts as the relational operators see them

  /** `post.likeCount || 0`, as a number. */
  function LikeNumber(post: JValue): Option<int>
  {
    var count := Get(Some(post), LIKE_COUNT);
    if TruthyOpt(count) then ToNumber(count.value) else Some(0)
  }

  /** `x < y` on numbers: false whenever either side is NaN. */
  predicate Less(x: Option<int>, y: Option<int>)
  {
    x.Some? && y.Some? && x.value < y.value
  }

  /** The like-range test of the first filter. */
  predicate WithinBounds(post: JValue, min: Option<Option<int>>, max: Option<Option<int>>)
  {
    !(min.Some? && Less(LikeNumber(post), min.value)) && !(max.Some? && Less(max.value, LikeNumber(post)))
  }

  function LikeTest(min: Option<Option<int>>, max: Option<Option<int>>): JValue -> bool
  {
    post => WithinBounds(post, min, max)
  }

  /** The test the like stage applies: the like range when a bound is given, none otherwise. */
  function LikeStage(min: Option<Option<int>>, max: Option<Option<int>>): JValue -> bool
  {
    if min.Some? || max.Some? then LikeTest(min, max) else (post: JValue) => true
  }

  /**
   * The like filter, applied only when a bound is given; reading
   * `likeCount` of a `null` post throws, which ends the handler.
   */
  function LikeFiltered(posts: seq<JValue>, min: Option<Option<int>>, max: Option<Option<int>>): Result<seq<JValue>>
  {
    if !(min.Some? || max.Some?) then Ok(posts)
    else if JNull in posts then Thrown
    else Ok(Filter(posts, LikeTest(min, max)))
  }

  // ---------------------------------------------------------------------
  // The media requirements

  /** What the handler calls to classify a post (`getMediaInfo`) and to build its row (`createTableRow`). */
  type Classifier = JValue -> Result<MediaInfo>
  type RowBuilder = JValue -> Result<Row>

  predicate MeetsRequirements(info: MediaInfo, requireImage: bool, requireVideo: bool)
  {
    !(requireImage && |info.images| == 0) && !(requireVideo && !info.isVideo)
  }

  /** The media test of the second filter, for a post whose classification does not throw. */
  function MediaTest(classify: Classifier, requireImage: bool, requireVideo: bool): JValue -> bool
  {
    post => classify(post).Ok? && MeetsRequirements(classify(post).value, requireImage, requireVideo)
  }

  /** Some post's classification throws, which ends the filter and the handler. */
  predicate SomeThrows(classify: Classifier, posts: seq<JValue>)
  {
    exists i :: 0 <= i < |posts| && classify(posts[i]).Thrown?
  }

  /** The media filter, applied only when a requirement is checked. */
  function MediaFiltered(classify: Classifier, posts: seq<JValue>, requireImage: bool, requireVideo: bool): Result<seq<JValue>>
  {
    if !(requireImage || requireVideo) then Ok(posts)
    else if SomeThrows(classify, posts) then Thrown
    else Ok(Filter(posts, MediaTest(classify, requireImage, requireVideo)))
  }

  // ---------------------------------------------------------------------
  // The limit

  /**
   * `if (list.length > limit) list = list.slice(0, limit)`; a negative end
   * counts from the end of the list.
   */
  function Truncated(posts: seq<JValue>, limit: int): (r: seq<JValue>)
    ensures r <= posts
    ensures limit >= 0 ==> |r| == if |posts| < limit then |posts| else limit
    ensures limit < 0 ==> |r| == if |posts| + limit < 0 then 0 else |posts| + limit
  {
    if |posts| > limit then
      if limit >= 0 then posts[..limit]
      else if |posts| + limit < 0 then []
      else posts[..|posts| + limit]
    else posts
  }

  // ---------------------------------------------------------------------
  // The pipeline and the view

  /** The posts the table shows, or `Thrown` when the like test or a classification throws. */
  function Selected(classify: Classifier, results: seq<JValue>, min: Option<Option<int>>, max: Option<Option<int>>,
                    requireImage: bool, requireVideo: bool, limit: int): Result<seq<JValue>>
  {
    match LikeFiltered(results, min, max)
    case Thrown => Thrown
    case Ok(liked) =>
      match MediaFiltered(classify, liked, requireImage, requireVideo)
      case Thrown => Thrown
      case Ok(kept) => Ok(Truncated(kept, limit))
  }

  /** What the results area ends up showing. */
  datatype View =
    | Alert                                    // blank query: an alert, the results area is left as it was
    | NoResults                                // the fetch found nothing
    | NoMatching                               // nothing is left after filtering
    | Failed                                   // an exception reached the handler's catch
    | Table(rows: seq<Row>, noMore: bool)      // the table, and whether the "no more results" line follows

  /** `posts.forEach(post => tbody.appendChild(createTableRow(post)))` as the rows it builds. */
  function Rows(build: RowBuilder, posts: seq<JValue>): (r: Result<seq<Row>>)
    ensures r.Ok? ==> |r.value| == |posts| && forall i :: 0 <= i < |posts| ==> build(posts[i]) == Ok(r.value[i])
    ensures r.Thrown? <==> exists i :: 0 <= i < |posts| && build(posts[i]).Thrown?
  {
    MapAll(posts, build)
  }

  /** The form's inputs. */
  datatype Form = Form(query: JsString, countText: JsString, minText: JsString, maxText: JsString,
                       requireImage: bool, requireVideo: bool)

  /** The outcome of the handler, given what `BskyApi.search` returned or whether it threw. */
  function SearchView(classify: Classifier, build: RowBuilder, form: Form, fetched: Result<seq<JValue>>): View
  {
    if Trim(form.query) == [] then Alert
    else
      match fetched
      case Thrown => Failed
      case Ok(results) => ResultsView(classify, build, form, results)
  }

  /** The outcome once the fetch has returned `results`: never the alert. */
  function ResultsView(classify: Classifier, build: RowBuilder, form: Form, results: seq<JValue>): (v: View)
    ensures v != Alert
    ensures v == NoResults <==> results == []
  {
    var limit := Limit(form.countText);
    if |results| == 0 then NoResults
    else
      match Selected(classify, results, Bound(form.minText), Bound(form.maxText), form.requireImage, form.requireVideo, limit)
      case Thrown => Failed
      case Ok(shown) =>
        if |shown| == 0 then NoMatching
        else
          match Rows(build, shown)
          case Thrown => Failed
          case Ok(rows) => Table(rows, |shown| < limit && |shown| < |results|)
  }

  /** The two filters and the cut, reassigning the working list as each applies. */
  method FilterAndCut(classify: Classifier, results: seq<JValue>, min: Option<Option<int>>, max: Option<Option<int>>,
                      requireImage: bool, requireVideo: bool, limit: int) returns (r: Result<seq<JValue>>)
    ensures r == Selected(classify, results, min, max, requireImage, requireVideo, limit)
  {
    var filtered := results;
    if min.Some? || max.Some? {
      if JNull in results {
        return Thrown;
      }
      filtered := Filter(results, LikeTest(min, max));
    }
    ghost var liked := filtered;
    assert LikeFiltered(results, min, max) == Ok(liked);
    if requireImage || requireVideo {
      if SomeThrows(classify, filtered) {
        return Thrown;
      }
      filtered := Filter(filtered, MediaTest(classify, requireImage, requireVideo));
    }
    assert MediaFiltered(classify, liked, requireImage, requireVideo) == Ok(filtered);
    if |filtered| > limit {
      filtered := Truncated(filtered, limit);
    }
    r := Ok(filtered);
  }

  /**
   * The click handler, step by step: it returns as soon as the view is
   * decided.
   */
  method Search(classify: Classifier, build: RowBuilder, form: Form, fetched: Result<seq<JValue>>) returns (view: View)
    ensures view == SearchView(classify, build, form, fetched)
  {
    if Trim(form.query) == [] {
      return Alert;
    }
    var limit := Limit(form.countText);
    if fetched.Thrown? {
      return Failed;
    }
    var results := fetched.value;
    if |results| == 0 {
      return NoResults;
    }
    var selected := FilterAndCut(classify, results, Bound(form.minText), Bound(form.maxText),
                                 form.requireImage, form.requireVideo, limit);
    if selected.Thrown? {
      return Failed;
    }
    var shown := selected.value;
    if |shown| == 0 {
      return NoMatching;
    }
    var rows := Rows(build, shown);
    if rows.Thrown? {
      return Failed;
    }
    view := Table(rows.value, |shown| < limit && |shown| < |results|);
  }

  /** The handler as the page wires it: `getMediaInfo` classifies, `createTableRow` builds the rows. */
  method OnSearchClick(form: Form, fetched: Result<seq<JValue>>) returns (view: View)
    ensures view == SearchView(Classify, BuildRow, form, fetched)
  {
    view := Search(Classify, BuildRow, form, fetched);
  }

  // ---------------------------------------------------------------------
  // What the pipeline promises

  /** The test a shown post passed: the like range when a bound is given, the media when a requirement is checked. */
  function Wanted(classify: Classifier, min: Option<Option<int>>, max: Option<Option<int>>,
                  requireImage: bool, requireVideo: bool): JValue -> bool
  {
    Both(LikeStage(min, max),
         if requireImage || requireVideo then MediaTest(classify, requireImage, requireVideo) else (post: JValue) => true)
  }

  /**
   * The shown posts are the first `limit` fetched posts that pass both
   * filters, in their fetched order.
   */
  lemma SelectedAreFirstWanted(classify: Classifier, results: seq<JValue>, min: Option<Option<int>>, max: Option<Option<int>>,
                               requireImage: bool, requireVideo: bool, limit: int)
    requires Selected(classify, results, min, max, requireImage, requireVideo, limit).Ok?
    ensures Selected(classify, results, min, max, requireImage, requireVideo, limit).value ==
            Truncated(Filter(results, Wanted(classify, min, max, requireImage, requireVideo)), limit)
  {
    var p := LikeStage(min, max);
    var q := if requireImage || requireVideo then MediaTest(classify, requireImage, requireVideo) else (post: JValue) => true;
    if !(min.Some? || max.Some?) {
      FilterKeepsAll(results, p);
    }
    if !(requireImage || requireVideo) {
      FilterKeepsAll(Filter(results, p), q);
    }
    FilterFilter(results, p, q);
  }

  /**
   * The shown posts are an order-preserving subsequence of the fetched
   * ones, no more than `limit` of them when the limit is not negative, and
   * each passes both filters.
   */
  lemma SelectedSubsequence(classify: Classifier, results: seq<JValue>, min: Option<Option<int>>, max: Option<Option<int>>,
                            requireImage: bool, requireVideo: bool, limit: int, shown: seq<JValue>)
    requires Selected(classify, results, min, max, requireImage, requireVideo, limit) == Ok(shown)
    ensures IsSubsequence(shown, results)
    ensures limit >= 0 ==> |shown| <= limit
    ensures forall post :: post in shown ==> Wanted(classify, min, max, requireImage, requireVideo)(post)
  {
    SelectedAreFirstWanted(classify, results, min, max, requireImage, requireVideo, limit);
    var wanted := Wanted(classify, min, max, requireImage, requireVideo);
    var all := Filter(results, wanted);
    var i1 := FilterIsSubsequence(results, wanted);
    var i2 := PrefixIsSubsequence(all, |shown|);
    assert shown == all[..|shown|];
    var i3 := SubsequenceTrans(shown, all, results, i2, i1);
    forall post | post in shown ensures wanted(post) {
      FilterMembers(results, wanted, post);
    }
  }

  /** Every fetched post that passes both filters is shown when the filtered list fits within the limit. */
  lemma WantedAreShown(classify: Classifier, results: seq<JValue>, min: Option<Option<int>>, max: Option<Option<int>>,
                       requireImage: bool, requireVideo: bool, limit: int, post: JValue)
    requires Selected(classify, results, min, max, requireImage, requireVideo, limit).Ok?
    requires |Filter(results, Wanted(classify, min, max, requireImage, requireVideo))| <= limit
    requires post in results && Wanted(classify, min, max, requireImage, requireVideo)(post)
    ensures post in Selected(classify, results, min, max, requireImage, requireVideo, limit).value
  {
    SelectedAreFirstWanted(classify, results, min, max, requireImage, requireVideo, limit);
    FilterMembers(results, Wanted(classify, min, max, requireImage, requireVideo), post);
  }

  /** The media filter throws exactly when a requirement is checked and some post's classification throws. */
  lemma MediaFilterThrows(classify: Classifier, posts: seq<JValue>, requireImage: bool, requireVideo: bool)
    ensures MediaFiltered(classify, posts, requireImage, requireVideo).Thrown? <==>
            (requireImage || requireVideo) && exists post :: post in posts && classify(post).Thrown?
  {
    if (requireImage || requireVideo) && exists post :: post in posts && classify(post).Thrown? {
      var post :| post in posts && classify(post).Thrown?;
      var i :| 0 <= i < |posts| && posts[i] == post;
    }
  }

  /**
   * The like filter throws exactly when a bound is given and some post is
   * `null`; otherwise it keeps exactly the posts that pass the like stage.
   */
  lemma LikeFilterMeaning(posts: seq<JValue>, min: Option<Option<int>>, max: Option<Option<int>>)
    ensures LikeFiltered(posts, min, max).Thrown? <==>
            (min.Some? || max.Some?) && exists i :: 0 <= i < |posts| && posts[i].JNull?
    ensures LikeFiltered(posts, min, max).Ok? ==>
            forall post :: post in LikeFiltered(posts, min, max).value <==> post in posts && LikeStage(min, max)(post)
  {
    if LikeFiltered(posts, min, max).Ok? {
      forall post ensures post in LikeFiltered(posts, min, max).value <==> post in posts && LikeStage(min, max)(post) {
        if min.Some? || max.Some? {
          FilterMembers(posts, LikeTest(min, max), post);
        }
      }
    }
  }

  /**
   * The pipeline throws exactly when a bound is given and some post is
   * `null`, or when a requirement is checked and some post that passes the
   * like stage has a classification that throws.
   */
  lemma SelectedThrows(classify: Classifier, results: seq<JValue>, min: Option<Option<int>>, max: Option<Option<int>>,
                       requireImage: bool, requireVideo: bool, limit: int)
    ensures Selected(classify, results, min, max, requireImage, requireVideo, limit).Thrown? <==>
            ((min.Some? || max.Some?) && JNull in results) ||
            ((requireImage || requireVideo) &&
             exists post :: post in results && LikeStage(min, max)(post) && classify(post).Thrown?)
  {
    LikeFilterMeaning(results, min, max);
    var liked := LikeFiltered(results, min, max);
    if liked.Ok? {
      MediaFilterThrows(classify, liked.value, requireImage, requireVideo);
    }
  }

  /** With a like bound given, a `null` among the fetched posts shows the error message. */
  lemma NullPostFails(classify: Classifier, build: RowBuilder, form: Form, results: seq<JValue>)
    requires Trim(form.query) != [] && (form.minText != [] || form.maxText != []) && JNull in results
    ensures SearchView(classify, build, form, Ok(results)) == Failed
  {
  }

  /** A post is kept by the like filter iff its count is not below a given minimum nor above a given maximum. */
  lemma WithinBoundsMeaning(post: JValue, lo: int, hi: int)
    requires LikeNumber(post).Some?
    ensures WithinBounds(post, Some(Some(lo)), Some(Some(hi))) <==> lo <= LikeNumber(post).value <= hi
    ensures WithinBounds(post, Some(Some(lo)), None) <==> lo <= LikeNumber(post).value
    ensures WithinBounds(post, None, Some(Some(hi))) <==> LikeNumber(post).value <= hi
  {
  }

  /** A bound that parses to NaN excludes nothing, and neither does a count that is NaN. */
  lemma NaNExcludesNothing(post: JValue, bound: Option<Option<int>>)
    requires bound == None || bound == Some(None) || LikeNumber(post).None?
    ensures WithinBounds(post, bound, Some(None)) && WithinBounds(post, Some(None), bound)
  {
  }

  /** With no bound and no requirement the shown posts are the fetched ones, cut to the limit. */
  lemma NoFilterKeepsAll(classify: Classifier, results: seq<JValue>, limit: int)
    ensures Selected(classify, results, None, None, false, false, limit) == Ok(Truncated(results, limit))
  {
  }

  // ---------------------------------------------------------------------
  // Which message appears

  /** A blank query raises the alert and nothing else does. */
  lemma AlertIffBlank(classify: Classifier, build: RowBuilder, form: Form, fetched: Result<seq<JValue>>)
    ensures SearchView(classify, build, form, fetched) == Alert <==>
            forall i :: 0 <= i < |form.query| ==> IsWhitespace(form.query[i])
  {
    TrimEmptyIffBlank(form.query);
  }

  /** "No results" appears exactly when the query is not blank and the fetch returned nothing. */
  lemma NoResultsIffEmptyFetch(classify: Classifier, build: RowBuilder, form: Form, fetched: Result<seq<JValue>>)
    ensures SearchView(classify, build, form, fetched) == NoResults <==> Trim(form.query) != [] && fetched == Ok([])
  {
  }

  /**
   * "No matching results" appears exactly when the fetch returned posts, no
   * classification threw and nothing survived the filters and the cut.
   */
  lemma NoMatchingIffFilteredAway(classify: Classifier, build: RowBuilder, form: Form, results: seq<JValue>)
    ensures SearchView(classify, build, form, Ok(results)) == NoMatching <==>
            Trim(form.query) != [] && results != [] &&
            Selected(classify, results, Bound(form.minText), Bound(form.maxText), form.requireImage, form.requireVideo,
                     Limit(form.countText)) == Ok([])
  {
  }

  /**
   * The table shows one row per selected post, in order, and the "no more
   * results" line follows exactly when fewer posts are shown than both the
   * limit and the fetched count.
   */
  lemma TableMeaning(classify: Classifier, build: RowBuilder, form: Form, results: seq<JValue>, rows: seq<Row>, noMore: bool)
    requires SearchView(classify, build, form, Ok(results)) == Table(rows, noMore)
    ensures var limit := Limit(form.countText);
            var selected := Selected(classify, results, Bound(form.minText), Bound(form.maxText),
                                     form.requireImage, form.requireVideo, limit);
            selected.Ok? && |selected.value| == |rows| > 0 &&
            (forall i :: 0 <= i < |rows| ==> build(selected.value[i]) == Ok(rows[i])) &&
            (noMore <==> |rows| < limit && |rows| < |results|) &&
            IsSubsequence(selected.value, results)
  {
    var limit := Limit(form.countText);
    var min, max := Bound(form.minText), Bound(form.maxText);
    var shown := Selected(classify, results, min, max, form.requireImage, form.requireVideo, limit).value;
    SelectedSubsequence(classify, results, min, max, form.requireImage, form.requireVideo, limit, shown);
  }
}
