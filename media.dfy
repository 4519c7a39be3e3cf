// getMediaInfo: classify a post record as carrying images and/or video,
// find or derive a thumbnail URL, and synthesize a placeholder thumbnail
// for a video that has none. The specification functions below follow the
// statements of the source in order, including every place where a call on
// an unexpected value throws; GetMediaInfo is the imperative version, with
// its loops, proved equal to Classify.

module MediaClassifier {
  import opened Options
  import opened JsStrings
  import opened Json
  import opened Synthesis

  // ---------------------------------------------------------------------
  // Field names and the fixed lists of optional chains the source probes

  const EMBED: Step := Key(Bmp("embed"))
  const MEDIA: Step := Key(Bmp("media"))
  const EXTERNAL: Step := Key(Bmp("external"))
  const RECORD: Step := Key(Bmp("record"))
  const VALUE: Step := Key(Bmp("value"))
  const IMAGES: Step := Key(Bmp("images"))
  const FULLSIZE: Step := Key(Bmp("fullsize"))
  const THUMB: Step := Key(Bmp("thumb"))
  const THUMBNAIL: Step := Key(Bmp("thumbnail"))
  const THUMBNAIL_URL: Step := Key(Bmp("thumbnailUrl"))
  const THUMBNAILS: Step := Key(Bmp("thumbnails"))
  const IMAGE: Step := Key(Bmp("image"))
  const POSTER: Step := Key(Bmp("poster"))
  const OG: Step := Key(Bmp("og"))
  const CARD: Step := Key(Bmp("card"))
  const TYPE: Step := Key(Bmp("type"))
  const MIME_TYPE: Step := Key(Bmp("mimeType"))
  const VIDEO_FIELD: Step := Key(Bmp("video"))
  const URI: Step := Key(Bmp("uri"))
  const HREF: Step := Key(Bmp("href"))
  const TEXT: Step := Key(Bmp("text"))

  /** The thumbnail candidates, highest priority first (`possibleThumbnailPaths`). */
  const THUMBNAIL_PATHS: seq<seq<Step>> := [
    [EMBED, MEDIA, THUMBNAIL], [EMBED, MEDIA, THUMBNAIL_URL], [EMBED, MEDIA, IMAGE],
    [EMBED, MEDIA, THUMB], [EMBED, MEDIA, THUMBNAILS, First], [EMBED, MEDIA, POSTER],
    [EMBED, EXTERNAL, THUMBNAIL], [EMBED, EXTERNAL, THUMBNAIL_URL], [EMBED, EXTERNAL, IMAGE],
    [EMBED, EXTERNAL, THUMB], [EMBED, EXTERNAL, THUMBNAILS, First], [EMBED, EXTERNAL, POSTER],
    [EMBED, RECORD, VALUE, EMBED, MEDIA, THUMBNAIL], [EMBED, RECORD, VALUE, EMBED, EXTERNAL, THUMBNAIL],
    [RECORD, EMBED, MEDIA, THUMBNAIL], [RECORD, EMBED, EXTERNAL, THUMBNAIL],
    [EMBED, IMAGES, First, FULLSIZE], [EMBED, IMAGES, First, THUMB], [RECORD, EMBED, IMAGES, First, FULLSIZE],
    [EMBED, EXTERNAL, OG, IMAGE], [RECORD, EXTERNAL, OG, IMAGE],
    [EMBED, CARD, IMAGE], [RECORD, CARD, IMAGE],
    [EMBED, IMAGES, First, FULLSIZE]
  ]

  /** Index of `embed.images[0].fullsize` among the thumbnail candidates (its first appearance). */
  const FIRST_IMAGE_CANDIDATE: nat := 16

  /** The links searched for a YouTube id (`videoUrls`). */
  const VIDEO_URL_PATHS: seq<seq<Step>> := [
    [EMBED, EXTERNAL, URI], [RECORD, EXTERNAL, URI], [EMBED, RECORD, EXTERNAL, URI],
    [EMBED, MEDIA, HREF], [RECORD, EMBED, MEDIA, HREF]
  ]

  /** The external links (`externalUrls`, and `urls` of the icon choice). */
  const EXTERNAL_URI_PATHS: seq<seq<Step>> := [
    [EMBED, EXTERNAL, URI], [RECORD, EXTERNAL, URI], [EMBED, RECORD, EXTERNAL, URI]
  ]

  /** The five `type === 'video'` tests. */
  const TYPE_PATHS: seq<seq<Step>> := [
    [EMBED, MEDIA, TYPE], [EMBED, EXTERNAL, TYPE], [EMBED, RECORD, VALUE, EMBED, MEDIA, TYPE],
    [RECORD, EMBED, MEDIA, TYPE], [RECORD, EMBED, RECORD, EMBED, MEDIA, TYPE]
  ]

  const MIME_PATHS: seq<seq<Step>> := [
    [EMBED, MEDIA, MIME_TYPE], [RECORD, EMBED, MEDIA, MIME_TYPE], [EMBED, RECORD, VALUE, EMBED, MEDIA, MIME_TYPE]
  ]

  const VIDEO_FIELD_PATHS: seq<seq<Step>> := [
    [EMBED, MEDIA, VIDEO_FIELD], [RECORD, EMBED, MEDIA, VIDEO_FIELD], [EMBED, RECORD, VALUE, EMBED, MEDIA, VIDEO_FIELD]
  ]

  const MEDIA_PATHS: seq<seq<Step>> := [[EMBED, MEDIA], [RECORD, EMBED, MEDIA]]

  // ---------------------------------------------------------------------
  // Marker strings

  const VIDEO: JsString := Bmp("video")
  const STREAM: JsString := Bmp("stream")
  const DURATION: JsString := Bmp("duration")
  const YOUTUBE_COM: JsString := Bmp("youtube.com")
  const YOUTU_BE: JsString := Bmp("youtu.be")
  const VIMEO_COM: JsString := Bmp("vimeo.com")
  const MP4: JsString := Bmp(".mp4")
  const WATCH: JsString := Bmp("youtube.com/watch?v=")
  const V_EQ: JsString := Bmp("v=")
  const SHORT: JsString := Bmp("youtu.be/")
  const AMP: JsString := Bmp("&")
  const QMARK: JsString := Bmp("?")

  /** Substrings of an external link that mark it as video. */
  const URL_MARKERS: seq<JsString> := [YOUTUBE_COM, YOUTU_BE, VIMEO_COM, MP4, VIDEO]
  /** Substrings of a media key, and of the serialized embed, that mark video. */
  const KEY_MARKERS: seq<JsString> := [VIDEO, STREAM, DURATION]
  /** Words of the post text that mark video: video, the Korean words for video, the clapper board. */
  const TEXT_MARKERS: seq<JsString> := [VIDEO, Bmp("동영상"), Bmp("영상"), SurrogatePair(0x1F3AC)]
  /** Record keys of two example posts that are always classified as video. */
  const FORCED_IDS: seq<JsString> := [Bmp("3lm7a45qdsc25"), Bmp("3lm75kx6fzc2t")]

  // ---------------------------------------------------------------------
  // The result

  datatype Thumbnail =
    | NoThumbnail
    | Found(value: JValue)                               // a truthy value from a known path, or a derived URL
    | Generated(background: JsString, icon: JsString)    // `{isGenerated: true, background, icon}`

  datatype MediaInfo = MediaInfo(hasMedia: bool, images: seq<JValue>, isVideo: bool, thumbnail: Thumbnail)

  function Lookups(post: JValue, paths: seq<seq<Step>>): (r: seq<Option<JValue>>)
    ensures |r| == |paths|
    ensures forall i :: 0 <= i < |paths| ==> r[i] == Path(Some(post), paths[i])
  {
    seq(|paths|, i requires 0 <= i < |paths| => Path(Some(post), paths[i]))
  }

  // ---------------------------------------------------------------------
  // Images

  function FullsizeOf(img: JValue): Option<JValue>
  {
    Get(Some(img), FULLSIZE)
  }

  /** The truthy `fullsize` values of `items`, in order. */
  function TruthyFullsizes(items: seq<JValue>): seq<JValue>
  {
    if items == [] then []
    else
      var last := FullsizeOf(items[|items| - 1]);
      TruthyFullsizes(items[..|items| - 1]) + (if TruthyOpt(last) then [last.value] else [])
  }

  /**
   * `post.embed?.images.forEach(img => { if (img.fullsize) images.push(img.fullsize) })`:
   * a truthy `images` that is not an array has no forEach, and a null entry
   * has no properties; both throw.
   */
  function Images(post: JValue): Result<seq<JValue>>
  {
    var entries := Path(Some(post), [EMBED, IMAGES]);
    if !TruthyOpt(entries) then Ok([])
    else if !entries.value.JArr? || JNull in entries.value.items then Thrown
    else Ok(TruthyFullsizes(entries.value.items))
  }

  // ---------------------------------------------------------------------
  // Thumbnail from a known path, or derived from a YouTube link

  /** The first truthy candidate. */
  function FirstTruthy(os: seq<Option<JValue>>): Option<JValue>
  {
    if os == [] then None else if TruthyOpt(os[0]) then os[0] else FirstTruthy(os[1..])
  }

  /** The video id of a YouTube watch or short link, or the empty string. */
  function YouTubeId(url: JsString): JsString
  {
    if Contains(url, WATCH) then
      ContainsInfix(url, WATCH, V_EQ, 18);
      BeforeFirst(SplitSecond(url, V_EQ), AMP)
    else if Contains(url, SHORT) then
      BeforeFirst(SplitSecond(url, SHORT), QMARK)
    else []
  }

  function YouTubeThumbnailUrl(id: JsString): JsString
  {
    Bmp("https://img.youtube.com/vi/") + id + Bmp("/hqdefault.jpg")
  }

  /**
   * One pass of the link loop: Ok(Some(url)) when a YouTube link yields a
   * non-empty id, Ok(None) when the loop goes on. Vimeo, Twitter/X, Twitch
   * and TikTok links are recognised but give nothing. An array link answers
   * `includes` but has no `split`; any other value has neither.
   */
  function ProbeUrl(url: JValue): Result<Option<JsString>>
  {
    match url
    case JStr(s) =>
      if Contains(s, YOUTUBE_COM) || Contains(s, YOUTU_BE) then
        var id := YouTubeId(s);
        Ok(if id != [] then Some(YouTubeThumbnailUrl(id)) else None)
      else Ok(None)
    case JArr(items) =>
      if JStr(YOUTUBE_COM) in items || JStr(YOUTU_BE) in items then
        (if JStr(WATCH) in items || JStr(SHORT) in items then Thrown else Ok(None))
      else if JStr(VIMEO_COM) in items then Thrown
      else Ok(None)
    case _ => Thrown
  }

  /** The link loop: the first derived thumbnail URL, stopping early on a throw. */
  function DeriveThumbnail(urls: seq<JValue>): Result<Option<JsString>>
  {
    if urls == [] then Ok(None)
    else
      match ProbeUrl(urls[0])
      case Thrown => Thrown
      case Ok(Some(u)) => Ok(Some(u))
      case Ok(None) => DeriveThumbnail(urls[1..])
  }

  /** `videoThumbnail` before synthesis: a known path first, a YouTube link only when no path matched. */
  function UrlThumbnail(post: JValue): Result<Thumbnail>
  {
    var found := FirstTruthy(Lookups(post, THUMBNAIL_PATHS));
    if found.Some? then Ok(Found(found.value))
    else
      match DeriveThumbnail(TruthyValues(Lookups(post, VIDEO_URL_PATHS)))
      case Thrown => Thrown
      case Ok(Some(u)) => Ok(Found(JStr(u)))
      case Ok(None) => Ok(NoThumbnail)
  }

  // ---------------------------------------------------------------------
  // The video signals, in source order

  /** 1-5: one of the five `type` fields is the string "video". */
  predicate TypeSignal(post: JValue)
  {
    exists i :: 0 <= i < |TYPE_PATHS| && Path(Some(post), TYPE_PATHS[i]) == Some(JStr(VIDEO))
  }

  /** 6: a `mimeType` includes "video". */
  function MimeSignal(post: JValue): Result<bool>
  {
    SomeIncludes(Lookups(post, MIME_PATHS), [VIDEO])
  }

  /** 7: an external link includes a video marker. */
  function UrlSignal(post: JValue): Result<bool>
  {
    SomeIncludes(Lookups(post, EXTERNAL_URI_PATHS), URL_MARKERS)
  }

  /** 8: a `video` field is defined; `null` counts, only `undefined` does not. */
  predicate FieldSignal(post: JValue)
  {
    exists i :: 0 <= i < |VIDEO_FIELD_PATHS| && Path(Some(post), VIDEO_FIELD_PATHS[i]).Some?
  }

  predicate KeyMarked(key: JsString)
  {
    exists j :: 0 <= j < |KEY_MARKERS| && Contains(key, KEY_MARKERS[j])
  }

  /**
   * `media && Object.keys(media).some(...)`: only an object has keys that can
   * match; the keys of arrays and strings are digit strings, and other
   * primitives have none.
   */
  predicate MediaKeyHit(media: Option<JValue>)
  {
    media.Some? && media.value.JObj? &&
    exists j :: 0 <= j < |media.value.members| && KeyMarked(media.value.members[j].key)
  }

  /** 9: a media object has a key that mentions video, stream or duration. */
  predicate KeySignal(post: JValue)
  {
    exists i :: 0 <= i < |MEDIA_PATHS| && MediaKeyHit(Path(Some(post), MEDIA_PATHS[i]))
  }

  /** 10: `post.uri` includes one of the two forced ids; it throws without a uri. */
  function UriSignal(post: JValue): Result<bool>
  {
    match IncludesAny(Get(Some(post), URI), FORCED_IDS)
    case None => Thrown
    case Some(b) => Ok(b)
  }

  /** 11: a truthy `post.text` includes a video word. */
  function TextSignal(post: JValue): Result<bool>
  {
    var text := Get(Some(post), TEXT);
    if !TruthyOpt(text) then Ok(false)
    else
      match IncludesAny(text, TEXT_MARKERS)
      case None => Thrown
      case Some(b) => Ok(b)
  }

  /**
   * 12: `JSON.stringify(post.embed)` includes a marker. Without an embed the
   * call returns undefined, `includes` on it throws, and the catch leaves the
   * flag as it was: the signal is simply false.
   */
  predicate SerializedSignal(post: JValue)
  {
    var embed := Get(Some(post), EMBED);
    embed.Some? && exists j :: 0 <= j < |KEY_MARKERS| && Contains(Serialize(embed.value), KEY_MARKERS[j])
  }

  /** `isVideo` after the twelve checks: their disjunction, unless one of them throws. */
  function VideoFlag(post: JValue): Result<bool>
  {
    var mime := MimeSignal(post);
    var url := UrlSignal(post);
    var uri := UriSignal(post);
    var text := TextSignal(post);
    if mime.Thrown? || url.Thrown? || uri.Thrown? || text.Thrown? then Thrown
    else Ok(TypeSignal(post) || mime.value || url.value || FieldSignal(post) || KeySignal(post)
            || uri.value || text.value || SerializedSignal(post))
  }

  // ---------------------------------------------------------------------
  // The placeholder thumbnail

  /**
   * `idForColor || textForColor`: the last `/` segment of the uri when it is
   * non-empty, else `post.record?.text` when truthy, else the empty string.
   * `split` throws on a uri that is not a string.
   */
  function ColorSeed(post: JValue): Result<JValue>
  {
    match Get(Some(post), URI)
    case Some(JStr(uri)) =>
      var id := LastSegment(uri);
      var text := Path(Some(post), [RECORD, TEXT]);
      Ok(if id != [] then JStr(id) else if TruthyOpt(text) then text.value else JStr([]))
    case _ => Thrown
  }

  /**
   * hashCode of a seed that need not be a string: the loop runs while
   * `i < str.length`, so a value whose length is not a positive number leaves
   * it unentered (hash 0), and any other non-string (a non-empty array, an
   * object with a positive `length` member) enters it and throws on
   * `charCodeAt`.
   */
  function SeedHash(seed: JValue): (r: Result<nat>)
    ensures seed.JStr? ==> r == Ok(Hash(seed.s))
    ensures !seed.JStr? ==> (r.Thrown? <==> LengthNumber(seed).Some? && LengthNumber(seed).value > 0)
    ensures r.Ok? && !seed.JStr? ==> r.value == 0
  {
    match seed
    case JStr(s) => Ok(Hash(s))
    case _ =>
      var length := LengthNumber(seed);
      if length.Some? && length.value > 0 then Thrown else Ok(0)
  }

  /** generateGradientBackground(seed): `seed + 'alt'` is always a string. */
  function Background(seed: JValue): Result<JsString>
  {
    match SeedHash(seed)
    case Thrown => Thrown
    case Ok(h) => Ok(GradientOf(ColorText(Channels(h)), RandomColor(ToText(seed) + ALT)))
  }

  function Synthesize(post: JValue): Result<Thumbnail>
  {
    match ColorSeed(post)
    case Thrown => Thrown
    case Ok(seed) =>
      match Icon(Lookups(post, EXTERNAL_URI_PATHS))
      case Thrown => Thrown
      case Ok(icon) =>
        match Background(seed)
        case Thrown => Thrown
        case Ok(background) => Ok(Generated(background, icon))
  }

  // ---------------------------------------------------------------------
  // getMediaInfo

  function Classify(post: JValue): Result<MediaInfo>
  {
    if post.JNull? then Thrown  // `post.embed` on null
    else
      match Images(post)
      case Thrown => Thrown
      case Ok(images) =>
        match UrlThumbnail(post)
        case Thrown => Thrown
        case Ok(thumb) =>
          match VideoFlag(post)
          case Thrown => Thrown
          case Ok(isVideo) =>
            match (if thumb.NoThumbnail? && isVideo then Synthesize(post) else Ok(thumb))
            case Thrown => Thrown
            case Ok(t) => Ok(MediaInfo(|images| > 0 || isVideo, images, isVideo, t))
  }

  // ---------------------------------------------------------------------
  // Properties of the classification

  /** Collecting images distributes over concatenation, so the order of `embed.images` is kept. */
  lemma {:induction false} TruthyFullsizesAppend(a: seq<JValue>, b: seq<JValue>)
    ensures TruthyFullsizes(a + b) == TruthyFullsizes(a) + TruthyFullsizes(b)
    decreases |b|
  {
    if b != [] {
      var init := b[..|b| - 1];
      assert (a + b)[..|a + b| - 1] == a + init;
      assert (a + b)[|a + b| - 1] == b[|b| - 1];
      TruthyFullsizesAppend(a, init);
    } else {
      assert a + b == a;
    }
  }

  /** The collected images are exactly the truthy `fullsize` values of the entries. */
  lemma {:induction false} TruthyFullsizesMembers(items: seq<JValue>, v: JValue)
    ensures v in TruthyFullsizes(items) <==>
            Truthy(v) && exists k :: 0 <= k < |items| && FullsizeOf(items[k]) == Some(v)
    decreases |items|
  {
    if items != [] {
      var init := items[..|items| - 1];
      TruthyFullsizesMembers(init, v);
      if exists k :: 0 <= k < |init| && FullsizeOf(init[k]) == Some(v) {
        var k :| 0 <= k < |init| && FullsizeOf(init[k]) == Some(v);
        assert items[k] == init[k];
      }
      if exists k :: 0 <= k < |items| && FullsizeOf(items[k]) == Some(v) {
        var k :| 0 <= k < |items| && FullsizeOf(items[k]) == Some(v);
        if k < |init| {
          assert init[k] == items[k];
        }
      }
    }
  }

  /** The first candidate that is truthy, with all earlier ones falsy, is the one taken. */
  lemma {:induction false} FirstTruthyAt(os: seq<Option<JValue>>, i: nat)
    requires i < |os| && TruthyOpt(os[i])
    requires forall j :: 0 <= j < i ==> !TruthyOpt(os[j])
    ensures FirstTruthy(os) == os[i]
    decreases i
  {
    if i > 0 {
      assert !TruthyOpt(os[0]);
      forall j | 0 <= j < i - 1 ensures !TruthyOpt(os[1..][j]) {
        assert os[1..][j] == os[j + 1];
      }
      FirstTruthyAt(os[1..], i - 1);
    }
  }

  /** No candidate is found exactly when every candidate is falsy. */
  lemma {:induction false} FirstTruthyNone(os: seq<Option<JValue>>)
    ensures FirstTruthy(os) == None <==> forall j :: 0 <= j < |os| ==> !TruthyOpt(os[j])
    decreases |os|
  {
    if os != [] {
      FirstTruthyNone(os[1..]);
      if forall j :: 0 <= j < |os[1..]| ==> !TruthyOpt(os[1..][j]) {
        forall j | 1 <= j < |os| ensures !TruthyOpt(os[j]) {
          assert os[j] == os[1..][j - 1];
        }
      }
    }
  }

  /**
   * A post whose sixteen earlier thumbnail candidates are all unset but that
   * has a first image takes that image's `fullsize` as its thumbnail, and
   * keeps it whether or not it is a video.
   */
  lemma ImageFallbackThumbnail(post: JValue, m: MediaInfo)
    requires forall j :: 0 <= j < FIRST_IMAGE_CANDIDATE ==> !TruthyOpt(Path(Some(post), THUMBNAIL_PATHS[j]))
    requires TruthyOpt(Path(Some(post), [EMBED, IMAGES, First, FULLSIZE]))
    requires Classify(post) == Ok(m)
    ensures m.thumbnail == Found(Path(Some(post), [EMBED, IMAGES, First, FULLSIZE]).value)
  {
    ImageFallbackCandidate(post);
    GeneratedOnlyForVideo(post, m);
  }

  lemma ImageFallbackCandidate(post: JValue)
    requires forall j :: 0 <= j < FIRST_IMAGE_CANDIDATE ==> !TruthyOpt(Path(Some(post), THUMBNAIL_PATHS[j]))
    requires TruthyOpt(Path(Some(post), [EMBED, IMAGES, First, FULLSIZE]))
    ensures UrlThumbnail(post) == Ok(Found(Path(Some(post), [EMBED, IMAGES, First, FULLSIZE]).value))
  {
    var os := Lookups(post, THUMBNAIL_PATHS);
    assert THUMBNAIL_PATHS[FIRST_IMAGE_CANDIDATE] == [EMBED, IMAGES, First, FULLSIZE];
    FirstTruthyAt(os, FIRST_IMAGE_CANDIDATE);
  }

  /**
   * For a link with `youtube.com/watch?v=`, the id is what follows the first
   * `v=`, up to the next `v=` or `&` or the end of the link.
   */
  lemma WatchLinkId(url: JsString) returns (pre: JsString, rest: JsString)
    requires Contains(url, WATCH)
    ensures url == pre + V_EQ + YouTubeId(url) + rest
    ensures !Contains(pre, V_EQ)
    ensures !Contains(YouTubeId(url), V_EQ) && !Contains(YouTubeId(url), AMP)
    ensures rest == [] || OccursAt(rest, V_EQ, 0) || OccursAt(rest, AMP, 0)
  {
    ContainsInfix(url, WATCH, V_EQ, 18);
    pre, rest := CutBetween(url, V_EQ, AMP);
  }

  /** For a `youtu.be/` link (without a watch link), the id is what follows, up to `?` or a second `youtu.be/`. */
  lemma ShortLinkId(url: JsString) returns (pre: JsString, rest: JsString)
    requires !Contains(url, WATCH) && Contains(url, SHORT)
    ensures url == pre + SHORT + YouTubeId(url) + rest
    ensures !Contains(pre, SHORT)
    ensures !Contains(YouTubeId(url), SHORT) && !Contains(YouTubeId(url), QMARK)
    ensures rest == [] || OccursAt(rest, SHORT, 0) || OccursAt(rest, QMARK, 0)
  {
    pre, rest := CutBetween(url, SHORT, QMARK);
  }

  /**
   * A derived thumbnail comes from the first link whose probe found one,
   * every earlier link having found nothing, and that link is a YouTube link
   * with a non-empty id: `https://img.youtube.com/vi/{id}/hqdefault.jpg`.
   */
  lemma {:induction false} DerivedFromYouTube(urls: seq<JValue>, u: JsString)
    requires DeriveThumbnail(urls) == Ok(Some(u))
    ensures exists i :: 0 <= i < |urls| && ProbeUrl(urls[i]) == Ok(Some(u)) &&
              (forall j :: 0 <= j < i ==> ProbeUrl(urls[j]) == Ok(None)) &&
              urls[i].JStr? && (Contains(urls[i].s, YOUTUBE_COM) || Contains(urls[i].s, YOUTU_BE)) &&
              YouTubeId(urls[i].s) != [] && u == YouTubeThumbnailUrl(YouTubeId(urls[i].s))
    decreases |urls|
  {
    if ProbeUrl(urls[0]) != Ok(Some(u)) {
      DerivedFromYouTube(urls[1..], u);
      var rest := urls[1..];
      var i :| 0 <= i < |rest| && ProbeUrl(rest[i]) == Ok(Some(u)) &&
              (forall j :: 0 <= j < i ==> ProbeUrl(rest[j]) == Ok(None)) &&
              rest[i].JStr? && (Contains(rest[i].s, YOUTUBE_COM) || Contains(rest[i].s, YOUTU_BE)) &&
              YouTubeId(rest[i].s) != [] && u == YouTubeThumbnailUrl(YouTubeId(rest[i].s));
      assert urls[i + 1] == rest[i];
      forall j | 0 <= j < i + 1 ensures ProbeUrl(urls[j]) == Ok(None) {
        if j > 0 {
          assert urls[j] == rest[j - 1];
        }
      }
    }
  }

  /**
   * Conversely, the first link whose probe does not come back empty decides
   * the loop: its thumbnail is the result, or its exception ends the loop.
   */
  lemma {:induction false} DeriveThumbnailAt(urls: seq<JValue>, i: nat)
    requires i < |urls| && ProbeUrl(urls[i]) != Ok(None)
    requires forall j :: 0 <= j < i ==> ProbeUrl(urls[j]) == Ok(None)
    ensures DeriveThumbnail(urls) == ProbeUrl(urls[i])
    decreases i
  {
    if i > 0 {
      var rest := urls[1..];
      assert ProbeUrl(urls[0]) == Ok(None);
      forall j | 0 <= j < i - 1 ensures ProbeUrl(rest[j]) == Ok(None) {
        assert rest[j] == urls[j + 1];
      }
      assert rest[i - 1] == urls[i];
      DeriveThumbnailAt(rest, i - 1);
    }
  }

  /** No thumbnail is derived, and nothing throws, exactly when every probe finds nothing. */
  lemma {:induction false} DeriveThumbnailNone(urls: seq<JValue>)
    ensures DeriveThumbnail(urls) == Ok(None) <==> forall j :: 0 <= j < |urls| ==> ProbeUrl(urls[j]) == Ok(None)
    decreases |urls|
  {
    if urls != [] {
      var rest := urls[1..];
      DeriveThumbnailNone(rest);
      if forall j :: 0 <= j < |urls| ==> ProbeUrl(urls[j]) == Ok(None) {
        forall j | 0 <= j < |rest| ensures ProbeUrl(rest[j]) == Ok(None) {
          assert rest[j] == urls[j + 1];
        }
      }
      if DeriveThumbnail(urls) == Ok(None) {
        forall j | 0 <= j < |urls| ensures ProbeUrl(urls[j]) == Ok(None) {
          if j > 0 {
            assert urls[j] == rest[j - 1];
          }
        }
      }
    }
  }

  /**
   * A thumbnail is generated exactly for a video without a found or derived
   * URL, from the colour seed of the post and the icon of its links.
   */
  lemma GeneratedOnlyForVideo(post: JValue, m: MediaInfo)
    requires Classify(post) == Ok(m)
    ensures m.thumbnail.Generated? <==> m.isVideo && UrlThumbnail(post) == Ok(NoThumbnail)
    ensures !m.thumbnail.Generated? ==> UrlThumbnail(post) == Ok(m.thumbnail)
    ensures m.thumbnail.Generated? ==>
              exists seed :: ColorSeed(post) == Ok(seed) && Background(seed) == Ok(m.thumbnail.background) &&
                Icon(Lookups(post, EXTERNAL_URI_PATHS)) == Ok(m.thumbnail.icon)
    ensures m.hasMedia == (m.images != [] || m.isVideo)
    ensures Images(post) == Ok(m.images) && VideoFlag(post) == Ok(m.isVideo)
  {
    var thumb := UrlThumbnail(post);
    assert Images(post).Ok? && thumb.Ok? && VideoFlag(post).Ok?;
    assert !thumb.value.Generated?;
    if thumb.value.NoThumbnail? && m.isVideo {
      var seed := ColorSeed(post).value;
      assert Synthesize(post) == Ok(m.thumbnail);
      assert Background(seed) == Ok(m.thumbnail.background);
    } else {
      assert m.thumbnail == thumb.value;
    }
  }

  /** A string seed gives generateGradientBackground(seed). */
  lemma StringSeedBackground(s: JsString)
    ensures Background(JStr(s)) == Ok(GradientBackground(s))
  {
  }

  /** The Bluesky shapes: a uri string, an array of image objects, string links, mime types and texts. */
  predicate WellShaped(post: JValue)
  {
    post.JObj? &&
    Get(Some(post), URI).Some? && Get(Some(post), URI).value.JStr? &&
    (var entries := Path(Some(post), [EMBED, IMAGES]);
     !TruthyOpt(entries) || (entries.value.JArr? && JNull !in entries.value.items)) &&
    TruthyAreStrings(Lookups(post, VIDEO_URL_PATHS)) &&
    TruthyAreStrings(Lookups(post, MIME_PATHS)) &&
    TruthyAreStrings([Get(Some(post), TEXT)]) &&
    TruthyAreStrings([Path(Some(post), [RECORD, TEXT])])
  }

  /** The link loop over string links never throws. */
  lemma {:induction false} DeriveThumbnailOfStrings(urls: seq<JValue>)
    requires forall i :: 0 <= i < |urls| ==> urls[i].JStr?
    ensures DeriveThumbnail(urls).Ok?
    decreases |urls|
  {
    if urls != [] {
      DeriveThumbnailOfStrings(urls[1..]);
    }
  }

  lemma WellShapedThumbnail(post: JValue)
    requires WellShaped(post)
    ensures UrlThumbnail(post).Ok?
  {
    var links := TruthyValues(Lookups(post, VIDEO_URL_PATHS));
    forall i | 0 <= i < |links| ensures links[i].JStr? {
      assert links[i] in links;
    }
    DeriveThumbnailOfStrings(links);
  }

  lemma WellShapedExternal(post: JValue)
    requires WellShaped(post)
    ensures TruthyAreStrings(Lookups(post, EXTERNAL_URI_PATHS))
  {
    var videoUrls := Lookups(post, VIDEO_URL_PATHS);
    var external := Lookups(post, EXTERNAL_URI_PATHS);
    forall i | 0 <= i < |external| && TruthyOpt(external[i]) ensures external[i].value.JStr? {
      assert EXTERNAL_URI_PATHS[i] == VIDEO_URL_PATHS[i];
      assert external[i] == videoUrls[i];
    }
  }

  lemma WellShapedVideoFlag(post: JValue)
    requires WellShaped(post)
    ensures VideoFlag(post).Ok?
  {
    WellShapedExternal(post);
    SomeIncludesOfStrings(Lookups(post, EXTERNAL_URI_PATHS), URL_MARKERS);
    SomeIncludesOfStrings(Lookups(post, MIME_PATHS), [VIDEO]);
    var text := [Get(Some(post), TEXT)];
    assert TruthyOpt(text[0]) ==> text[0].value.JStr?;
  }

  lemma WellShapedSynthesize(post: JValue)
    requires WellShaped(post)
    ensures Synthesize(post).Ok?
  {
    WellShapedExternal(post);
    IconPrecedence(Lookups(post, EXTERNAL_URI_PATHS));
    var text := [Path(Some(post), [RECORD, TEXT])];
    assert TruthyOpt(text[0]) ==> text[0].value.JStr?;
  }

  /** Classification of a well-shaped post never throws. */
  lemma WellShapedClassifies(post: JValue)
    requires WellShaped(post)
    ensures Classify(post).Ok?
  {
    WellShapedThumbnail(post);
    WellShapedVideoFlag(post);
    WellShapedSynthesize(post);
  }

  /** Without a uri, `post.uri.includes` throws: such a post is never classified. */
  lemma MissingUriThrows(post: JValue)
    requires Get(Some(post), URI) == None
    ensures Classify(post) == Thrown
  {
  }

  /** A field that is missing or null: every optional chain through it is undefined. */
  predicate Absent(post: JValue, step: Step)
  {
    Get(Some(post), step) == None || Get(Some(post), step) == Some(JNull)
  }

  /** Every path goes through `embed` or `record`. */
  predicate Rooted(paths: seq<seq<Step>>)
  {
    forall i :: 0 <= i < |paths| ==> |paths[i]| >= 2 && (paths[i][0] == EMBED || paths[i][0] == RECORD)
  }

  lemma {:induction false} LookupsThroughAbsent(post: JValue, paths: seq<seq<Step>>)
    requires Rooted(paths) && Absent(post, EMBED) && Absent(post, RECORD)
    ensures forall i :: 0 <= i < |paths| ==> Lookups(post, paths)[i] == None
  {
    forall i | 0 <= i < |paths| ensures Path(Some(post), paths[i]) == None {
      var p := paths[i];
      if Get(Some(post), p[0]) == None {
        PathOfUndefined(p[1..]);
      } else {
        assert p[1..][1..] == p[2..];
        PathOfUndefined(p[2..]);
      }
    }
  }

  /** Of all the checks, only the forced ids and the text can still mark a post without embed or record. */
  lemma WithoutEmbedOrRecord(post: JValue)
    requires Absent(post, EMBED) && Absent(post, RECORD)
    ensures Images(post) == Ok([]) && UrlThumbnail(post) == Ok(NoThumbnail)
    ensures !TypeSignal(post) && MimeSignal(post) == Ok(false) && UrlSignal(post) == Ok(false)
    ensures !FieldSignal(post) && !KeySignal(post) && !SerializedSignal(post)
    ensures Icon(Lookups(post, EXTERNAL_URI_PATHS)) == Ok(ICON_DEFAULT)
  {
    AbsentThumbnail(post);
    AbsentFields(post);
    AbsentLinks(post);
  }

  lemma AbsentThumbnail(post: JValue)
    requires Absent(post, EMBED) && Absent(post, RECORD)
    ensures Images(post) == Ok([]) && UrlThumbnail(post) == Ok(NoThumbnail)
  {
    LookupsThroughAbsent(post, THUMBNAIL_PATHS);
    LookupsThroughAbsent(post, VIDEO_URL_PATHS);
    LookupsThroughAbsent(post, [[EMBED, IMAGES]]);
    assert Lookups(post, [[EMBED, IMAGES]])[0] == Path(Some(post), [EMBED, IMAGES]);
    FirstTruthyNone(Lookups(post, THUMBNAIL_PATHS));
    TruthyValuesOfFalsy(Lookups(post, VIDEO_URL_PATHS));
  }

  lemma AbsentFields(post: JValue)
    requires Absent(post, EMBED) && Absent(post, RECORD)
    ensures !TypeSignal(post) && !FieldSignal(post) && !KeySignal(post) && !SerializedSignal(post)
  {
    LookupsThroughAbsent(post, TYPE_PATHS);
    LookupsThroughAbsent(post, VIDEO_FIELD_PATHS);
    LookupsThroughAbsent(post, MEDIA_PATHS);
    assert !TypeSignal(post) by {
      forall i | 0 <= i < |TYPE_PATHS| ensures Path(Some(post), TYPE_PATHS[i]) != Some(JStr(VIDEO)) {
        assert Lookups(post, TYPE_PATHS)[i] == None;
      }
    }
    assert !FieldSignal(post) by {
      forall i | 0 <= i < |VIDEO_FIELD_PATHS| ensures Path(Some(post), VIDEO_FIELD_PATHS[i]).None? {
        assert Lookups(post, VIDEO_FIELD_PATHS)[i] == None;
      }
    }
    assert !KeySignal(post) by {
      forall i | 0 <= i < |MEDIA_PATHS| ensures !MediaKeyHit(Path(Some(post), MEDIA_PATHS[i])) {
        assert Lookups(post, MEDIA_PATHS)[i] == None;
      }
    }
    assert Serialize(JNull) == NULL_TEXT;
  }

  lemma AbsentLinks(post: JValue)
    requires Absent(post, EMBED) && Absent(post, RECORD)
    ensures MimeSignal(post) == Ok(false) && UrlSignal(post) == Ok(false)
    ensures Icon(Lookups(post, EXTERNAL_URI_PATHS)) == Ok(ICON_DEFAULT)
  {
    LookupsThroughAbsent(post, EXTERNAL_URI_PATHS);
    LookupsThroughAbsent(post, MIME_PATHS);
    SomeIncludesUndecided(Lookups(post, MIME_PATHS), [VIDEO]);
    SomeIncludesUndecided(Lookups(post, EXTERNAL_URI_PATHS), URL_MARKERS);
    IconPrecedence(Lookups(post, EXTERNAL_URI_PATHS));
  }

  /**
   * A post without embed or record, whose uri has neither forced id and
   * whose text has no video word, has no media and no thumbnail.
   */
  lemma NoEmbedNoMedia(post: JValue, uri: JsString)
    requires post.JObj? && Absent(post, EMBED) && Absent(post, RECORD)
    requires Get(Some(post), URI) == Some(JStr(uri))
    requires forall k :: 0 <= k < |FORCED_IDS| ==> !Contains(uri, FORCED_IDS[k])
    requires TextSignal(post) == Ok(false)
    ensures Classify(post) == Ok(MediaInfo(false, [], false, NoThumbnail))
  {
    WithoutEmbedOrRecord(post);
    assert UriSignal(post) == Ok(false) by {
      assert IncludesAny(Some(JStr(uri)), FORCED_IDS) == Some(false);
    }
    assert VideoFlag(post) == Ok(false);
  }

  const EXAMPLE_KEY: JsString := [0x61, 0x62, 0x63, 0x31, 0x32, 0x33]   // "abc123"
  const CLAPPER_TEXT: JsString := Bmp("check this ") + ICON_DEFAULT

  /** The post with uri `.../abc123`, text "check this " and the clapper board, and a null embed. */
  function ClapperPost(prefix: JsString): JValue
  {
    JObj([Member(Bmp("uri"), JStr(prefix + [SLASH] + EXAMPLE_KEY)), Member(Bmp("text"), JStr(CLAPPER_TEXT)),
          Member(Bmp("embed"), JNull)])
  }

  /**
   * The clapper board in the text alone makes the post a video, and its
   * placeholder is the gradient of the record key with the default icon,
   * whatever the rest of the uri.
   */
  lemma ClapperBoardExample(prefix: JsString)
    ensures Classify(ClapperPost(prefix)) ==
            Ok(MediaInfo(true, [], true, Generated(GradientBackground(EXAMPLE_KEY), ICON_DEFAULT)))
  {
    var post := ClapperPost(prefix);
    ClapperPostFields(prefix);
    AbsentThumbnail(post);
    ClapperIsVideo(prefix);
    ClapperPlaceholder(prefix);
    ClassifyGenerated(post, Generated(GradientBackground(EXAMPLE_KEY), ICON_DEFAULT));
  }

  /** A video post without a URL thumbnail whose placeholder can be built. */
  lemma ClassifyGenerated(post: JValue, t: Thumbnail)
    requires post.JObj? && UrlThumbnail(post) == Ok(NoThumbnail) && VideoFlag(post) == Ok(true)
    requires Synthesize(post) == Ok(t)
    ensures Images(post).Ok? ==> Classify(post) == Ok(MediaInfo(true, Images(post).value, true, t))
  {
  }

  lemma ClapperIsVideo(prefix: JsString)
    ensures VideoFlag(ClapperPost(prefix)) == Ok(true)
  {
    var post := ClapperPost(prefix);
    ClapperPostFields(prefix);
    AbsentLinks(post);
    assert OccursAt(CLAPPER_TEXT, TEXT_MARKERS[3], 11);
    assert TextSignal(post) == Ok(true);
  }

  lemma ClapperPlaceholder(prefix: JsString)
    ensures Synthesize(ClapperPost(prefix)) == Ok(Generated(GradientBackground(EXAMPLE_KEY), ICON_DEFAULT))
  {
    var post := ClapperPost(prefix);
    ClapperPostFields(prefix);
    AbsentLinks(post);
    LastSegmentOfJoin(prefix, EXAMPLE_KEY);
    SeedOfKey(post, prefix + [SLASH] + EXAMPLE_KEY);
    assert ColorSeed(post) == Ok(JStr(EXAMPLE_KEY));
    StringSeedBackground(EXAMPLE_KEY);
  }

  lemma ClapperPostFields(prefix: JsString)
    ensures Get(Some(ClapperPost(prefix)), URI) == Some(JStr(prefix + [SLASH] + EXAMPLE_KEY))
    ensures Get(Some(ClapperPost(prefix)), TEXT) == Some(JStr(CLAPPER_TEXT))
    ensures Get(Some(ClapperPost(prefix)), EMBED) == Some(JNull)
    ensures Get(Some(ClapperPost(prefix)), RECORD) == None
  {
    var members := ClapperPost(prefix).members;
    assert |Bmp("uri")| == 3 && |Bmp("text")| == 4 && |Bmp("embed")| == 5 && |Bmp("record")| == 6;
    assert Lookup(members[2..], Bmp("embed")) == Some(JNull);
    assert Lookup(members[1..], Bmp("embed")) == Some(JNull);
    assert Lookup(members[1..], Bmp("text")) == Some(JStr(CLAPPER_TEXT));
    assert Lookup(members[2..][1..], Bmp("record")) == None;
    assert Lookup(members[2..], Bmp("record")) == None;
    assert Lookup(members[1..], Bmp("record")) == None;
  }

  /** Two posts with the same record key and the same links get the same placeholder. */
  lemma SameKeySamePlaceholder(p: JValue, q: JValue, u: JsString, v: JsString)
    requires Get(Some(p), URI) == Some(JStr(u)) && Get(Some(q), URI) == Some(JStr(v))
    requires LastSegment(u) == LastSegment(v) != []
    requires Lookups(p, EXTERNAL_URI_PATHS) == Lookups(q, EXTERNAL_URI_PATHS)
    ensures Synthesize(p) == Synthesize(q)
  {
    SeedOfKey(p, u);
    SeedOfKey(q, v);
    SynthesizeOfSeedAndLinks(p, q);
  }

  /** The placeholder depends on the post only through its colour seed and its links. */
  lemma SynthesizeOfSeedAndLinks(p: JValue, q: JValue)
    requires ColorSeed(p) == ColorSeed(q)
    requires Lookups(p, EXTERNAL_URI_PATHS) == Lookups(q, EXTERNAL_URI_PATHS)
    ensures Synthesize(p) == Synthesize(q)
  {
  }

  /** A non-empty record key is the colour seed, whatever the text. */
  lemma SeedOfKey(post: JValue, uri: JsString)
    requires Get(Some(post), URI) == Some(JStr(uri)) && LastSegment(uri) != []
    ensures ColorSeed(post) == Ok(JStr(LastSegment(uri)))
  {
  }

  // ---------------------------------------------------------------------
  // getMediaInfo as the source runs it: loops that push, break and flip a flag

  /** `post.embed.images.forEach(...)`, pushing each truthy `fullsize`. */
  method CollectImages(post: JValue) returns (r: Result<seq<JValue>>)
    ensures r == Images(post)
  {
    var entries := Path(Some(post), [EMBED, IMAGES]);
    if !TruthyOpt(entries) {
      return Ok([]);
    }
    if !entries.value.JArr? {
      return Thrown;
    }
    var items := entries.value.items;
    var images: seq<JValue> := [];
    var i := 0;
    while i < |items|
      invariant 0 <= i <= |items|
      invariant JNull !in items[..i]
      invariant images == TruthyFullsizes(items[..i])
    {
      if items[i].JNull? {
        return Thrown;
      }
      var full := FullsizeOf(items[i]);
      if TruthyOpt(full) {
        images := images + [full.value];
      }
      assert items[..i + 1][..i] == items[..i];
      i := i + 1;
    }
    assert items[..i] == items;
    return Ok(images);
  }

  /** The loop over `possibleThumbnailPaths` that keeps the first truthy one and breaks. */
  method ProbeThumbnailPaths(post: JValue) returns (found: Option<JValue>)
    ensures found == FirstTruthy(Lookups(post, THUMBNAIL_PATHS))
  {
    var candidates := Lookups(post, THUMBNAIL_PATHS);
    found := None;
    var i := 0;
    while i < |candidates|
      invariant 0 <= i <= |candidates|
      invariant FirstTruthy(candidates[i..]) == FirstTruthy(candidates)
    {
      if TruthyOpt(candidates[i]) {
        found := candidates[i];
        break;
      }
      assert candidates[i..][1..] == candidates[i + 1..];
      i := i + 1;
    }
  }

  /** The loop over `videoUrls`, stopping at the first link that yields a YouTube thumbnail. */
  method DeriveFromUrls(urls: seq<JValue>) returns (r: Result<Option<JsString>>)
    ensures r == DeriveThumbnail(urls)
  {
    var i := 0;
    while i < |urls|
      invariant 0 <= i <= |urls|
      invariant DeriveThumbnail(urls[i..]) == DeriveThumbnail(urls)
    {
      var step := ProbeUrl(urls[i]);
      if step.Thrown? {
        return Thrown;
      }
      if step.value.Some? {
        return step;
      }
      assert urls[i..][1..] == urls[i + 1..];
      i := i + 1;
    }
    return Ok(None);
  }

  /** Check 7: the loop over `externalUrls` that sets the flag and breaks at the first video link. */
  method ScanExternalUrls(post: JValue) returns (r: Result<bool>)
    ensures r == UrlSignal(post)
  {
    var urls := Lookups(post, EXTERNAL_URI_PATHS);
    var i := 0;
    while i < |urls|
      invariant 0 <= i <= |urls|
      invariant SomeIncludes(urls[i..], URL_MARKERS) == UrlSignal(post)
    {
      if TruthyOpt(urls[i]) {
        var hit := IncludesAny(urls[i], URL_MARKERS);
        if hit.None? {
          return Thrown;
        }
        if hit.value {
          return Ok(true);
        }
      }
      assert urls[i..][1..] == urls[i + 1..];
      i := i + 1;
    }
    return Ok(false);
  }

  /** Check 9: the loop over `mediaFields` that breaks at the first media object with a video-like key. */
  method ScanMediaKeys(post: JValue) returns (hit: bool)
    ensures hit == KeySignal(post)
  {
    var fields := Lookups(post, MEDIA_PATHS);
    hit := false;
    var i := 0;
    while i < |fields|
      invariant 0 <= i <= |fields|
      invariant forall j :: 0 <= j < i ==> !MediaKeyHit(fields[j])
    {
      if MediaKeyHit(fields[i]) {
        hit := true;
        break;
      }
      i := i + 1;
    }
  }

  /** generateGradientBackground, hashing with the `hashCode` loop. */
  method GradientFor(seed: JValue) returns (r: Result<JsString>)
    ensures r == Background(seed)
  {
    var first: nat := 0;
    if seed.JStr? {
      first := HashCode(seed.s);
    } else {
      var length := LengthNumber(seed);
      if length.Some? && length.value > 0 {
        return Thrown;
      }
    }
    var second := HashCode(ToText(seed) + ALT);
    r := Ok(GradientOf(ColorText(Channels(first)), ColorText(Channels(second))));
  }

  /** The thumbnail probe, then the YouTube loop when no path matched. */
  method FindThumbnail(post: JValue) returns (r: Result<Thumbnail>)
    ensures r == UrlThumbnail(post)
  {
    var found := ProbeThumbnailPaths(post);
    if found.Some? {
      return Ok(Found(found.value));
    }
    var derived := DeriveFromUrls(TruthyValues(Lookups(post, VIDEO_URL_PATHS)));
    if derived.Thrown? {
      return Thrown;
    }
    if derived.value.Some? {
      return Ok(Found(JStr(derived.value.value)));
    }
    return Ok(NoThumbnail);
  }

  /** The twelve checks in source order; each can only set `isVideo`, never clear it. */
  method DetectVideo(post: JValue) returns (r: Result<bool>)
    ensures r == VideoFlag(post)
  {
    var isVideo := false;
    if Path(Some(post), TYPE_PATHS[0]) == Some(JStr(VIDEO)) {
      isVideo := true;
    } else if Path(Some(post), TYPE_PATHS[1]) == Some(JStr(VIDEO)) {
      isVideo := true;
    } else if Path(Some(post), TYPE_PATHS[2]) == Some(JStr(VIDEO)) {
      isVideo := true;
    } else if Path(Some(post), TYPE_PATHS[3]) == Some(JStr(VIDEO)) {
      isVideo := true;
    } else if Path(Some(post), TYPE_PATHS[4]) == Some(JStr(VIDEO)) {
      isVideo := true;
    }
    assert isVideo == TypeSignal(post);
    var mime := MimeSignal(post);
    if mime.Thrown? {
      return Thrown;
    }
    if mime.value {
      isVideo := true;
    }
    var url := ScanExternalUrls(post);
    if url.Thrown? {
      return Thrown;
    }
    if url.value {
      isVideo := true;
    }
    if FieldSignal(post) {
      isVideo := true;
    }
    var keyHit := ScanMediaKeys(post);
    if keyHit {
      isVideo := true;
    }
    var uri := UriSignal(post);
    if uri.Thrown? {
      return Thrown;
    }
    if uri.value {
      isVideo := true;
    }
    var text := TextSignal(post);
    if text.Thrown? {
      return Thrown;
    }
    if text.value {
      isVideo := true;
    }
    if SerializedSignal(post) {
      isVideo := true;
    }
    return Ok(isVideo);
  }

  /** The generated thumbnail: seed, icon, then the gradient. */
  method SynthesizeThumbnail(post: JValue) returns (r: Result<Thumbnail>)
    ensures r == Synthesize(post)
  {
    var seed := ColorSeed(post);
    if seed.Thrown? {
      return Thrown;
    }
    var icon := Icon(Lookups(post, EXTERNAL_URI_PATHS));
    if icon.Thrown? {
      return Thrown;
    }
    var background := GradientFor(seed.value);
    if background.Thrown? {
      return Thrown;
    }
    return Ok(Generated(background.value, icon.value));
  }

  /** getMediaInfo(post): images, thumbnail, video flag, then the generated thumbnail if needed. */
  method GetMediaInfo(post: JValue) returns (r: Result<MediaInfo>)
    ensures r == Classify(post)
    ensures r.Ok? ==> r.value.hasMedia == (r.value.images != [] || r.value.isVideo)
  {
    if post.JNull? {
      return Thrown;
    }
    var images := CollectImages(post);
    if images.Thrown? {
      return Thrown;
    }
    var thumbnail := FindThumbnail(post);
    if thumbnail.Thrown? {
      return Thrown;
    }
    var isVideo := DetectVideo(post);
    if isVideo.Thrown? {
      return Thrown;
    }
    var final := thumbnail.value;
    if final.NoThumbnail? && isVideo.value {
      var generated := SynthesizeThumbnail(post);
      if generated.Thrown? {
        return Thrown;
      }
      final := generated.value;
    }
    r := Ok(MediaInfo(|images.value| > 0 || isVideo.value, images.value, isVideo.value, final));
  }
}
