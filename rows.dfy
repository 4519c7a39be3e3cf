// The values createTableRow computes for one post: the profile link, the
// post link built from the record key, the truncated text, the media
// classification and the two count cells the sort reads back. The HTML
// around them is not modelled.

module ResultTable {
  import opened Options
  import opened JsStrings
  import opened Json
  import opened MediaClassifier

  const AUTHOR: Step := Key(Bmp("author"))
  const HANDLE: Step := Key(Bmp("handle"))
  const LIKE_COUNT: Step := Key(Bmp("likeCount"))
  const REPOST_COUNT: Step := Key(Bmp("repostCount"))

  const PROFILE_BASE: JsString := Bmp("https://bsky.app/profile/")
  const POST_INFIX: JsString := Bmp("/post/")
  const ELLIPSIS: JsString := Bmp("...")
  const SPACE: JsString := Bmp(" ")
  const ZERO: JsString := Bmp("0")

  /** The number of code units of post text shown before the ellipsis. */
  const SNIPPET_LENGTH: nat := 40

  const HEART: JsString := [0x2764 as CodeUnit, 0xFE0F as CodeUnit]   // heavy black heart, emoji style
  const REPOST: JsString := SurrogatePair(0x1F504)                      // anticlockwise arrows

  /** One table row, as the values it displays. */
  datatype Row = Row(profileUrl: JsString, postUrl: JsString, snippet: JsString, media: MediaInfo,
                     likesText: JsString, repostsText: JsString)

  // ---------------------------------------------------------------------
  // Text truncation

  /** `text.length > 40 ? text.substring(0, 40) + '...' : text`, counting UTF-16 code units. */
  function Truncate(text: JsString): (r: JsString)
    ensures |text| <= SNIPPET_LENGTH ==> r == text
    ensures |text| > SNIPPET_LENGTH ==>
              (|r| == SNIPPET_LENGTH + |ELLIPSIS| && r[..SNIPPET_LENGTH] == text[..SNIPPET_LENGTH] &&
               r[SNIPPET_LENGTH..] == ELLIPSIS)
  {
    if |text| > SNIPPET_LENGTH then text[..SNIPPET_LENGTH] + ELLIPSIS else text
  }

  /** Truncating twice changes nothing more: a truncated text keeps its first 40 units and its ellipsis. */
  lemma TruncateIdempotent(text: JsString)
    ensures Truncate(Truncate(text)) == Truncate(text)
  {
    if |text| > SNIPPET_LENGTH {
      var r := Truncate(text);
      assert r[..SNIPPET_LENGTH] + ELLIPSIS == r;
    }
  }

  /** The shown text never exceeds 43 units and always starts the post text. */
  lemma TruncateBounds(text: JsString)
    ensures |Truncate(text)| <= SNIPPET_LENGTH + |ELLIPSIS|
    ensures var n := if |text| < SNIPPET_LENGTH then |text| else SNIPPET_LENGTH;
            Truncate(text)[..n] == text[..n]
  {
  }

  /**
   * `post.record?.text || ''` as the template shows it: a string is
   * truncated; any other value whose `length` exceeds 40 (a long array, an
   * object with a large `length` member) has no `substring` and throws; the
   * rest are shown as their text.
   */
  function Snippet(post: JValue): (r: Result<JsString>)
    ensures var text := Path(Some(post), [RECORD, TEXT]);
            r.Thrown? <==> TruthyOpt(text) && !text.value.JStr? &&
                           LengthNumber(text.value).Some? && LengthNumber(text.value).value > SNIPPET_LENGTH
  {
    var text := Path(Some(post), [RECORD, TEXT]);
    if !TruthyOpt(text) then Ok([])
    else if text.value.JStr? then Ok(Truncate(text.value.s))
    else
      var length := LengthNumber(text.value);
      if length.Some? && length.value > SNIPPET_LENGTH then Thrown else Ok(ToText(text.value))
  }

  // ---------------------------------------------------------------------
  // Links

  /** `https://bsky.app/profile/${post.author.handle}` */
  function ProfileUrl(handle: Option<JValue>): JsString
  {
    PROFILE_BASE + ToTextOpt(handle)
  }

  /** `https://bsky.app/profile/${handle}/post/${post.uri.split('/').pop()}` */
  function PostUrl(handle: Option<JValue>, uri: JsString): JsString
  {
    ProfileUrl(handle) + POST_INFIX + LastSegment(uri)
  }

  /** The post link ends in the record key of the uri: its own last segment is the uri's. */
  lemma PostUrlKeepsRecordKey(handle: Option<JValue>, uri: JsString)
    ensures LastSegment(PostUrl(handle, uri)) == LastSegment(uri)
  {
    assert POST_INFIX[|POST_INFIX| - 1] == SLASH;
    LastSegmentAfter(ProfileUrl(handle), POST_INFIX, LastSegment(uri));
  }

  // ---------------------------------------------------------------------
  // Count cells

  /** `❤️ ${post.likeCount || 0}` and `🔄 ${post.repostCount || 0}`. */
  function CountText(icon: JsString, count: Option<JValue>): JsString
  {
    icon + SPACE + (if TruthyOpt(count) then ToText(count.value) else ZERO)
  }

  /** The comparator's key: `parseInt(text.replace(/[^\d]/g, '')) || 0`. */
  function ParseCount(text: JsString): (n: nat)
    ensures n == DigitsValue(KeepDigits(text), 10)
  {
    var digits := KeepDigits(text);
    var parsed := ParseInt(digits);
    assert digits != [] ==> parsed == Some(DigitsValue(digits, 10)) by {
      if digits != [] {
        ParseIntOfDigits(digits);
      }
    }
    match parsed
    case None => 0
    case Some(v) => if v > 0 then v else 0
  }

  /** An icon with no decimal digit in it. */
  predicate DigitFree(icon: JsString)
  {
    forall i :: 0 <= i < |icon| ==> !IsDecimalDigit(icon[i])
  }

  lemma {:induction false} KeepDigitsOfDigitFree(s: JsString)
    requires DigitFree(s)
    ensures KeepDigits(s) == []
    decreases |s|
  {
    if s != [] {
      KeepDigitsOfDigitFree(s[..|s| - 1]);
    }
  }

  /** A digit-free head followed by a non-empty run of digits reads back as the run's value. */
  lemma ParseCountOfTail(head: JsString, digits: JsString)
    requires DigitFree(head) && digits != [] && forall i :: 0 <= i < |digits| ==> IsDecimalDigit(digits[i])
    ensures ParseCount(head + digits) == DigitsValue(digits, 10)
  {
    KeepDigitsOfDigitFree(head);
    KeepDigitsAppend(head, digits);
    KeepDigitsOfDigits(digits);
    assert KeepDigits(head + digits) == digits;
    ParseIntOfDigits(digits);
  }

  /** Reading a count cell back gives the count it shows: the sort key of `❤️ n` is `n`. */
  lemma CountRoundTrip(icon: JsString, n: nat)
    requires DigitFree(icon)
    ensures ParseCount(CountText(icon, Some(JNum(n)))) == n
  {
    if n == 0 {
      CountOfFalsy(icon, Some(JNum(0)));
    } else {
      SpaceAfter(icon);
      assert CountText(icon, Some(JNum(n))) == (icon + SPACE) + NatDigits(n);
      ParseCountOfTail(icon + SPACE, NatDigits(n));
      NatDigitsValue(n);
    }
  }

  /** A missing or falsy count shows `0` and reads back as 0. */
  lemma CountOfFalsy(icon: JsString, count: Option<JValue>)
    requires DigitFree(icon) && !TruthyOpt(count)
    ensures ParseCount(CountText(icon, count)) == 0
  {
    SpaceAfter(icon);
    assert CountText(icon, count) == (icon + SPACE) + ZERO;
    ParseCountOfTail(icon + SPACE, ZERO);
  }

  /** The comparator drops the minus sign: a negative count sorts as its magnitude. */
  lemma NegativeCount(icon: JsString, n: int)
    requires DigitFree(icon) && n < 0
    ensures ParseCount(CountText(icon, Some(JNum(n)))) == -n
  {
    var head := icon + SPACE + [0x2D as CodeUnit];
    SpaceAfter(icon);
    assert DigitFree(head) by {
      assert forall i :: 0 <= i < |head| ==> head[i] == (if i < |icon| + 1 then (icon + SPACE)[i] else 0x2D);
    }
    var m: nat := -n;
    var digits := NatDigits(m);
    assert ToText(JNum(n)) == [0x2D as CodeUnit] + digits;
    var text := CountText(icon, Some(JNum(n)));
    assert text == head + digits;
    ParseCountOfTail(head, digits);
    NatDigitsValue(m);
    assert ParseCount(text) == m;
  }

  lemma SpaceAfter(icon: JsString)
    requires DigitFree(icon)
    ensures DigitFree(icon + SPACE)
  {
    assert forall i :: 0 <= i < |icon + SPACE| ==> (icon + SPACE)[i] == (if i < |icon| then icon[i] else 0x20);
  }

  lemma CountIconsDigitFree()
    ensures DigitFree(HEART) && DigitFree(REPOST)
  {
  }

  // ---------------------------------------------------------------------
  // createTableRow

  /**
   * The row for one post. `post.author.avatar` throws when the author is
   * missing or null, getMediaInfo may throw, each image URL must be a
   * string for `replace`, and the uri must be a string for `split`.
   */
  function BuildRow(post: JValue): Result<Row>
  {
    var author := Get(Some(post), AUTHOR);
    if author.None? || author == Some(JNull) then Thrown
    else
      match Classify(post)
      case Thrown => Thrown
      case Ok(media) =>
        if exists i :: 0 <= i < |media.images| && !media.images[i].JStr? then Thrown
        else
          match Get(Some(post), URI)
          case Some(JStr(uri)) =>
            (match Snippet(post)
             case Thrown => Thrown
             case Ok(snippet) =>
               var handle := Get(author, HANDLE);
               Ok(Row(ProfileUrl(handle), PostUrl(handle, uri), snippet, media,
                      CountText(HEART, Get(Some(post), LIKE_COUNT)), CountText(REPOST, Get(Some(post), REPOST_COUNT)))))
          case _ => Thrown
  }

  /** What a built row is made of: the classification, the links from the handle and a string uri, and the two count cells. */
  lemma BuildRowParts(post: JValue, row: Row) returns (uri: JsString)
    requires BuildRow(post) == Ok(row)
    ensures Classify(post) == Ok(row.media)
    ensures Get(Some(post), URI) == Some(JStr(uri))
    ensures row.profileUrl == ProfileUrl(Get(Get(Some(post), AUTHOR), HANDLE))
    ensures row.postUrl == PostUrl(Get(Get(Some(post), AUTHOR), HANDLE), uri)
    ensures Snippet(post) == Ok(row.snippet)
    ensures row.likesText == CountText(HEART, Get(Some(post), LIKE_COUNT))
    ensures row.repostsText == CountText(REPOST, Get(Some(post), REPOST_COUNT))
  {
    uri := Get(Some(post), URI).value.s;
  }

  /** A count cell reads back as the magnitude of a numeric count, and as 0 for a missing or falsy one. */
  lemma CountReadsBack(icon: JsString, count: Option<JValue>)
    requires DigitFree(icon)
    ensures forall n :: count == Some(JNum(n)) ==> ParseCount(CountText(icon, count)) == Abs(n)
    ensures !TruthyOpt(count) ==> ParseCount(CountText(icon, count)) == 0
  {
    if count.Some? && count.value.JNum? {
      var n := count.value.n;
      if n >= 0 {
        CountRoundTrip(icon, n);
      } else {
        NegativeCount(icon, n);
      }
    } else if !TruthyOpt(count) {
      CountOfFalsy(icon, count);
    }
  }

  /** The row keeps the classification, links to the post's record key and shows the counts the sort reads back. */
  lemma BuildRowMeaning(post: JValue, row: Row)
    requires BuildRow(post) == Ok(row)
    ensures Classify(post) == Ok(row.media)
    ensures exists uri :: Get(Some(post), URI) == Some(JStr(uri)) && LastSegment(row.postUrl) == LastSegment(uri)
    ensures forall n :: Get(Some(post), LIKE_COUNT) == Some(JNum(n)) ==> ParseCount(row.likesText) == Abs(n)
    ensures !TruthyOpt(Get(Some(post), LIKE_COUNT)) ==> ParseCount(row.likesText) == 0
    ensures forall n :: Get(Some(post), REPOST_COUNT) == Some(JNum(n)) ==> ParseCount(row.repostsText) == Abs(n)
    ensures !TruthyOpt(Get(Some(post), REPOST_COUNT)) ==> ParseCount(row.repostsText) == 0
  {
    var uri := BuildRowParts(post, row);
    PostUrlKeepsRecordKey(Get(Get(Some(post), AUTHOR), HANDLE), uri);
    CountIconsDigitFree();
    CountReadsBack(HEART, Get(Some(post), LIKE_COUNT));
    CountReadsBack(REPOST, Get(Some(post), REPOST_COUNT));
  }

  function Abs(n: int): nat
  {
    if n < 0 then -n else n
  }
}
