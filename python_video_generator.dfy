/**
 * The deterministic parts of the zoom-and-crossfade slideshow generator: the
 * Storage object each bear image URL names, the order the images are shown
 * in, the reported duration, and where the video and its thumbnail are
 * uploaded and linked.
 */
module PythonVideoGenerator {
  import opened Wrappers
  import opened Strings
  import opened Seqs
  import opened Urls
  import opened PercentEncoding

  /** Seconds each image is shown, and seconds two neighbouring clips overlap. */
  const ClipDuration: real := 2.0
  const CrossfadeDuration: real := 0.5

  // ---------------------------------------------------------------------------
  // From an image URL to its Storage object
  // ---------------------------------------------------------------------------

  /** `parts[-1]`. */
  function LastPart(parts: seq<string>): string
    requires |parts| > 0
  {
    parts[|parts| - 1]
  }

  /**
   * `_extract_storage_path`: on the download host, the unquoted last part of
   * the path split at `/o/` (when `/o/` occurs); on the public Storage host,
   * the third part of the path split at its first two `/` (when there are
   * two); everything else raises `ValueError`.
   */
  function ExtractStoragePath(url: string): (r: Result<string, string>)
    ensures r.Err? ==> r.error == "Unsupported Storage URL format: " + url
    ensures r.Ok? ==> HostOf(url) == FirebaseHost || HostOf(url) == StorageHost
    ensures HostOf(url) == FirebaseHost ==> (r.Ok? <==> IndexOf(ParsedPath(url), "/o/", 0).Some?)
    ensures HostOf(url) == FirebaseHost && r.Ok? ==>
      exists pre, raw :: ParsedPath(url) == pre + "/o/" + raw
        && (forall k: nat :: !OccursAt(raw, "/o/", k)) && r.value == Unquote(raw)
    ensures HostOf(url) == FirebaseHost && r.Ok? ==>
      |Split(ParsedPath(url), "/o/")| > 1 && r.value == Unquote(LastPart(Split(ParsedPath(url), "/o/")))
    ensures HostOf(url) == StorageHost ==> (r.Ok? <==> |SplitMax(ParsedPath(url), "/", 2)| == 3)
    ensures HostOf(url) == StorageHost && r.Ok? ==>
      exists a, b :: ParsedPath(url) == a + "/" + b + "/" + r.value && '/' !in a && '/' !in b
  {
    var path := ParsedPath(url);
    assert |FirebaseHost| == 8 + |StorageHost|;
    if HostOf(url) == FirebaseHost then
      if IndexOf(path, "/o/", 0).None? then Err("Unsupported Storage URL format: " + url)
      else
        AfterLastMarker(path);
        Ok(Unquote(LastPart(Split(path, "/o/"))))
    else if HostOf(url) == StorageHost && |SplitMax(path, "/", 2)| >= 3 then
      SplitMaxTwoChar(path, '/');
      Ok(SplitMax(path, "/", 2)[2])
    else Err("Unsupported Storage URL format: " + url)
  }

  /** The last part of a split at `/o/` follows a `/o/` and holds none. */
  lemma AfterLastMarker(path: string)
    requires IndexOf(path, "/o/", 0).Some?
    ensures exists pre :: path == pre + "/o/" + LastPart(Split(path, "/o/"))
    ensures forall k: nat :: !OccursAt(LastPart(Split(path, "/o/")), "/o/", k)
  {
    var parts := Split(path, "/o/");
    SplitLastPart(path, "/o/");
    forall k: nat ensures !OccursAt(LastPart(parts), "/o/", k) {
      SplitPartsFree(path, "/o/", |parts| - 1, k);
    }
  }

  // ---------------------------------------------------------------------------
  // Uploads
  // ---------------------------------------------------------------------------

  /** `videos/<user_id>/<timestamp>.mp4` and `videos/<user_id>/<timestamp>.jpg`. */
  function UploadPaths(userId: string, timestamp: int): (paths: (string, string))
    ensures StartsWith(paths.0, "videos/" + userId + "/" + IntToString(timestamp))
    ensures StartsWith(paths.1, "videos/" + userId + "/" + IntToString(timestamp))
    ensures paths.0[|"videos/" + userId + "/" + IntToString(timestamp)|..] == ".mp4"
    ensures paths.1[|"videos/" + userId + "/" + IntToString(timestamp)|..] == ".jpg"
    ensures paths.0 != paths.1
  {
    var stem := "videos/" + userId + "/" + IntToString(timestamp);
    var video := stem + ".mp4";
    var thumb := stem + ".jpg";
    assert video[..|stem|] == stem && video[|stem|..] == ".mp4";
    assert thumb[..|stem|] == stem && thumb[|stem|..] == ".jpg";
    assert video[|stem| + 1] != thumb[|stem| + 1];
    (video, thumb)
  }

  /** The download URL of an uploaded object, with only `/` encoded in its path. */
  function DownloadUrl(bucketName: string, storagePath: string, token: string): string
  {
    FirebaseUrl(bucketName, EncodeSlashes(storagePath), token)
  }

  /** A text holds none of the characters that break the slash-only encoding on the way back. */
  predicate SlashEncodable(s: string)
  {
    PathSafe(s) && '%' !in s && ';' !in s
  }

  lemma SlashesEncoded(s: string)
    requires SlashEncodable(s)
    ensures PathSafe(EncodeSlashes(s)) && ';' !in EncodeSlashes(s) && '/' !in EncodeSlashes(s)
  {
    var e := EncodeSlashes(s);
    ReplaceCharRemoves(s, '/', "%2F");
    ReplaceCharKeepsOut(s, '/', "%2F", '?');
    ReplaceCharKeepsOut(s, '/', "%2F", '#');
    ReplaceCharKeepsOut(s, '/', "%2F", ';');
    assert forall i :: 0 <= i < |e| ==> e[i] in e;
  }

  lemma NoSemicolonInPath(bucketName: string, encoded: string)
    requires ';' !in bucketName && ';' !in encoded
    ensures forall i :: 0 <= i < |FirebasePath(bucketName, encoded)| ==> FirebasePath(bucketName, encoded)[i] != ';'
  {
    var p := FirebasePath(bucketName, encoded);
    forall i | 0 <= i < |p| ensures p[i] != ';' {
      if 6 <= i < 6 + |bucketName| {
        assert p[i] == bucketName[i - 6] && bucketName[i - 6] in bucketName;
      } else if 9 + |bucketName| <= i {
        assert p[i] == encoded[i - 9 - |bucketName|] && encoded[i - 9 - |bucketName|] in encoded;
      }
    }
  }

  /** The download URL's path carries no `;` parameters, so `urlparse` keeps it whole. */
  lemma NoParamsInDownloadUrl(bucketName: string, encoded: string, token: string)
    requires PathSafe(bucketName) && ';' !in bucketName && PathSafe(encoded) && ';' !in encoded
    ensures ParsedPath(FirebaseUrl(bucketName, encoded, token)) == FirebasePath(bucketName, encoded)
  {
    SplitFirebaseUrl(bucketName, encoded, token);
    NoSemicolonInPath(bucketName, encoded);
    NoParams(FirebaseUrl(bucketName, encoded, token));
  }

  /** Splitting a download URL's path at `/o/` gives the part before the object and the encoded object path. */
  lemma SplitDownloadPath(bucketName: string, encoded: string)
    requires |bucketName| >= 2 && '/' !in bucketName && '/' !in encoded
    ensures IndexOf(FirebasePath(bucketName, encoded), "/o/", 0).Some?
    ensures |Split(FirebasePath(bucketName, encoded), "/o/")| == 2
    ensures LastPart(Split(FirebasePath(bucketName, encoded), "/o/")) == encoded
  {
    var p := FirebasePath(bucketName, encoded);
    var m := 6 + |bucketName|;
    forall k: nat ensures OccursAt(p, "/o/", k) <==> k == m {
      OnlyObjectMarker(bucketName, encoded, k);
    }
    FirstOccurrence(p, "/o/", m);
    assert p[m + 3..] == encoded;
    forall k: nat ensures !OccursAt(encoded, "/o/", k) {
      if k + 3 <= |encoded| {
        assert encoded[k..k + 3][0] == encoded[k];
        assert encoded[k] in encoded;
      }
    }
    SplitNone(encoded, "/o/");
  }

  /** A download URL built for a path without `%`, `?`, `#` or `;` is read back as that path. */
  lemma DownloadUrlRoundTrip(bucketName: string, storagePath: string, token: string)
    requires ValidBucket(bucketName) && ';' !in bucketName
    requires SlashEncodable(storagePath)
    ensures ExtractStoragePath(DownloadUrl(bucketName, storagePath, token)) == Ok(storagePath)
  {
    var e := EncodeSlashes(storagePath);
    SlashesEncoded(storagePath);
    SplitFirebaseUrl(bucketName, e, token);
    NoParamsInDownloadUrl(bucketName, e, token);
    SplitDownloadPath(bucketName, e);
    UnquoteEncodeSlashes(storagePath);
  }

  /** The upload paths hold only what the user id brings besides digits, `-`, `/`, `.` and letters. */
  lemma UploadPathsEncodable(userId: string, timestamp: int)
    requires SlashEncodable(userId)
    ensures SlashEncodable(UploadPaths(userId, timestamp).0) && SlashEncodable(UploadPaths(userId, timestamp).1)
  {
    var t := IntToString(timestamp);
    IntToStringChars(timestamp);
    var stem := "videos/" + userId + "/" + t;
    assert forall i :: 7 <= i < 7 + |userId| ==> stem[i] == userId[i - 7];
    assert forall i :: 8 + |userId| <= i < |stem| ==> stem[i] == t[i - 8 - |userId|];
    assert forall i :: 0 <= i < |stem| ==> stem[i] != '%' && stem[i] != ';' && stem[i] != '?' && stem[i] != '#' by {
      forall i | 0 <= i < |stem| ensures stem[i] != '%' && stem[i] != ';' && stem[i] != '?' && stem[i] != '#' {
        if 7 <= i < 7 + |userId| {
          assert userId[i - 7] in userId;
        }
      }
    }
    var (video, thumb) := UploadPaths(userId, timestamp);
    assert video == stem + ".mp4" && thumb == stem + ".jpg";
    assert forall i :: 0 <= i < |video| ==> video[i] != '%' && video[i] != ';' && video[i] != '?' && video[i] != '#' by {
      forall i | 0 <= i < |video| ensures video[i] != '%' && video[i] != ';' && video[i] != '?' && video[i] != '#' {
        if i < |stem| {
          assert video[i] == stem[i];
        }
      }
    }
    assert forall i :: 0 <= i < |thumb| ==> thumb[i] != '%' && thumb[i] != ';' && thumb[i] != '?' && thumb[i] != '#' by {
      forall i | 0 <= i < |thumb| ensures thumb[i] != '%' && thumb[i] != ';' && thumb[i] != '?' && thumb[i] != '#' {
        if i < |stem| {
          assert thumb[i] == stem[i];
        }
      }
    }
  }

  // ---------------------------------------------------------------------------
  // The whole generation
  // ---------------------------------------------------------------------------

  /** `n * CLIP_DURATION - (n - 1) * CROSSFADE_DURATION`. */
  function Duration(n: nat): (d: real)
  {
    n as real * ClipDuration - (n as real - 1.0) * CrossfadeDuration
  }

  /** Every clip adds 1.5 seconds beyond the half second of the first. */
  lemma DurationFormula(n: nat)
    ensures Duration(n) == 1.5 * n as real + 0.5
  {
  }

  /**
   * The images in the order of the loop: each URL's object, named by
   * `extract`, is fetched in turn, and the first URL that cannot be read or
   * fetched stops it.
   */
  function FetchedFrames(urls: seq<string>, extract: string -> Result<string, string>,
                         fetch: string -> Result<(), string>): (r: Result<seq<string>, string>)
    decreases |urls|
  {
    if |urls| == 0 then Ok([])
    else
      match FetchedFrames(urls[..|urls| - 1], extract, fetch)
      case Err(e) => Err(e)
      case Ok(frames) =>
        match extract(urls[|urls| - 1])
        case Err(e) => Err(e)
        case Ok(p) =>
          match fetch(p)
          case Err(e) => Err(e)
          case Ok(_) => Ok(frames + [p])
  }

  /** When the loop finishes, one frame per URL stands in the URLs' order, each that URL's object. */
  lemma {:induction false} FramesInOrder(urls: seq<string>, extract: string -> Result<string, string>,
                                         fetch: string -> Result<(), string>)
    requires FetchedFrames(urls, extract, fetch).Ok?
    ensures |FetchedFrames(urls, extract, fetch).value| == |urls|
    ensures forall i :: 0 <= i < |urls| ==>
      extract(urls[i]) == Ok(FetchedFrames(urls, extract, fetch).value[i])
      && fetch(FetchedFrames(urls, extract, fetch).value[i]).Ok?
    decreases |urls|
  {
    if |urls| > 0 {
      var init := urls[..|urls| - 1];
      FramesInOrder(init, extract, fetch);
      assert forall i :: 0 <= i < |init| ==> init[i] == urls[i];
    }
  }

  /** A failure in a prefix of the URLs is the failure of the whole loop. */
  lemma {:induction false} FailureStops(urls: seq<string>, j: nat, extract: string -> Result<string, string>,
                                        fetch: string -> Result<(), string>)
    requires j <= |urls| && FetchedFrames(urls[..j], extract, fetch).Err?
    ensures FetchedFrames(urls, extract, fetch) == FetchedFrames(urls[..j], extract, fetch)
    decreases |urls| - j
  {
    if j < |urls| {
      assert urls[..j + 1][..j] == urls[..j];
      FailureStops(urls, j + 1, extract, fetch);
    } else {
      assert urls[..j] == urls;
    }
  }

  /** What the generator returns, with the Storage objects it showed, oldest first. */
  datatype Slideshow = Slideshow(frames: seq<string>, videoUrl: string, thumbnailUrl: string, duration: real)

  /** The outside work of one generation, as outcomes: fetching, rendering and uploading. */
  datatype SlideshowServices = SlideshowServices(
    fetch: string -> Result<(), string>,        // download and resize one object
    render: seq<string> -> Result<(), string>,  // thumbnail from the first frame, then the video
    upload: string -> Result<(), string>,       // upload to a storage path
    videoToken: string,
    thumbnailToken: string)

  /**
   * `generate_video_from_bears`: fewer than two URLs are refused; the
   * newest-first URLs are shown oldest first; video and thumbnail are named
   * after `timestamp` (the rendered file's modification time).
   */
  function GeneratedSlideshow(imageUrls: seq<string>, userId: string, bucketName: string, timestamp: int,
                              s: SlideshowServices): (r: Result<Slideshow, string>)
  {
    if |imageUrls| < 2 then Err("At least 2 images are required")
    else
      match FetchedFrames(Reverse(imageUrls), ExtractStoragePath, s.fetch)
      case Err(e) => Err(e)
      case Ok(frames) =>
        match s.render(frames)
        case Err(e) => Err(e)
        case Ok(_) =>
          var (videoPath, thumbPath) := UploadPaths(userId, timestamp);
          match s.upload(videoPath)
          case Err(e) => Err(e)
          case Ok(_) =>
            match s.upload(thumbPath)
            case Err(e) => Err(e)
            case Ok(_) =>
              Ok(Slideshow(frames, DownloadUrl(bucketName, videoPath, s.videoToken),
                           DownloadUrl(bucketName, thumbPath, s.thumbnailToken), Duration(|imageUrls|)))
  }

  /** The download loop: the Storage object of each URL in turn, each fetched before the next. */
  method FetchFrames(urls: seq<string>, fetch: string -> Result<(), string>) returns (r: Result<seq<string>, string>)
    ensures r == FetchedFrames(urls, ExtractStoragePath, fetch)
  {
    var frames: seq<string> := [];
    for i := 0 to |urls|
      invariant FetchedFrames(urls[..i], ExtractStoragePath, fetch) == Ok(frames)
    {
      assert urls[..i + 1][..i] == urls[..i];
      var path := ExtractStoragePath(urls[i]);
      if path.Err? {
        FailureStops(urls, i + 1, ExtractStoragePath, fetch);
        return Err(path.error);
      }
      var fetched := fetch(path.value);
      if fetched.Err? {
        FailureStops(urls, i + 1, ExtractStoragePath, fetch);
        return Err(fetched.error);
      }
      frames := frames + [path.value];
    }
    assert urls[..|urls|] == urls;
    return Ok(frames);
  }

  /** The generator, with its download loop over the reversed URLs. */
  method GenerateVideoFromBears(imageUrls: seq<string>, userId: string, bucketName: string, timestamp: int,
                                s: SlideshowServices) returns (r: Result<Slideshow, string>)
    ensures r == GeneratedSlideshow(imageUrls, userId, bucketName, timestamp, s)
  {
    if |imageUrls| < 2 {
      return Err("At least 2 images are required");
    }
    var fetched := FetchFrames(Reverse(imageUrls), s.fetch);
    if fetched.Err? {
      return Err(fetched.error);
    }
    var frames := fetched.value;
    var rendered := s.render(frames);
    if rendered.Err? {
      return Err(rendered.error);
    }
    var (videoPath, thumbPath) := UploadPaths(userId, timestamp);
    var up := s.upload(videoPath);
    if up.Err? {
      return Err(up.error);
    }
    up := s.upload(thumbPath);
    if up.Err? {
      return Err(up.error);
    }
    var videoUrl := DownloadUrl(bucketName, videoPath, s.videoToken);
    var thumbnailUrl := DownloadUrl(bucketName, thumbPath, s.thumbnailToken);
    return Ok(Slideshow(frames, videoUrl, thumbnailUrl, Duration(|imageUrls|)));
  }

  /**
   * A finished slideshow shows every image once, oldest first (the reverse of
   * the newest-first input), and lasts `1.5n + 0.5` seconds; fewer than two
   * images are refused.
   */
  lemma SlideshowShape(imageUrls: seq<string>, userId: string, bucketName: string, timestamp: int, s: SlideshowServices)
    ensures |imageUrls| < 2 ==> GeneratedSlideshow(imageUrls, userId, bucketName, timestamp, s) == Err("At least 2 images are required")
    ensures GeneratedSlideshow(imageUrls, userId, bucketName, timestamp, s).Ok? ==>
      var v := GeneratedSlideshow(imageUrls, userId, bucketName, timestamp, s).value;
      |v.frames| == |imageUrls|
      && (forall i :: 0 <= i < |imageUrls| ==> ExtractStoragePath(imageUrls[|imageUrls| - 1 - i]) == Ok(v.frames[i]))
      && v.duration == 1.5 * |imageUrls| as real + 0.5
  {
    if GeneratedSlideshow(imageUrls, userId, bucketName, timestamp, s).Ok? {
      SlideshowParts(imageUrls, userId, bucketName, timestamp, s);
      FramesInOrder(Reverse(imageUrls), ExtractStoragePath, s.fetch);
      DurationFormula(|imageUrls|);
    }
  }

  /** A finished slideshow's frames are those the download loop produced, its duration that of its image count. */
  lemma SlideshowParts(imageUrls: seq<string>, userId: string, bucketName: string, timestamp: int, s: SlideshowServices)
    requires GeneratedSlideshow(imageUrls, userId, bucketName, timestamp, s).Ok?
    ensures FetchedFrames(Reverse(imageUrls), ExtractStoragePath, s.fetch).Ok?
    ensures GeneratedSlideshow(imageUrls, userId, bucketName, timestamp, s).value.frames
      == FetchedFrames(Reverse(imageUrls), ExtractStoragePath, s.fetch).value
    ensures GeneratedSlideshow(imageUrls, userId, bucketName, timestamp, s).value.duration == Duration(|imageUrls|)
  {
    var fetched := FetchedFrames(Reverse(imageUrls), ExtractStoragePath, s.fetch);
    assert fetched.Ok?;
    var frames := fetched.value;
    var paths := UploadPaths(userId, timestamp);
    assert s.render(frames).Ok? && s.upload(paths.0).Ok? && s.upload(paths.1).Ok?;
    assert GeneratedSlideshow(imageUrls, userId, bucketName, timestamp, s)
      == Ok(Slideshow(frames, DownloadUrl(bucketName, paths.0, s.videoToken),
                      DownloadUrl(bucketName, paths.1, s.thumbnailToken), Duration(|imageUrls|)));
  }

  /** The returned links are the download URLs of the two upload paths, each with its own token. */
  lemma SlideshowLinks(imageUrls: seq<string>, userId: string, bucketName: string, timestamp: int, s: SlideshowServices)
    requires GeneratedSlideshow(imageUrls, userId, bucketName, timestamp, s).Ok?
    ensures GeneratedSlideshow(imageUrls, userId, bucketName, timestamp, s).value.videoUrl
      == DownloadUrl(bucketName, UploadPaths(userId, timestamp).0, s.videoToken)
    ensures GeneratedSlideshow(imageUrls, userId, bucketName, timestamp, s).value.thumbnailUrl
      == DownloadUrl(bucketName, UploadPaths(userId, timestamp).1, s.thumbnailToken)
  {
  }

  /** With a user id free of `%`, `?`, `#` and `;`, the returned URLs name the uploaded video and thumbnail. */
  lemma SlideshowUrlsNameUploads(imageUrls: seq<string>, userId: string, bucketName: string, timestamp: int,
                                 s: SlideshowServices)
    requires ValidBucket(bucketName) && ';' !in bucketName && SlashEncodable(userId)
    requires GeneratedSlideshow(imageUrls, userId, bucketName, timestamp, s).Ok?
    ensures ExtractStoragePath(GeneratedSlideshow(imageUrls, userId, bucketName, timestamp, s).value.videoUrl)
      == Ok(UploadPaths(userId, timestamp).0)
    ensures ExtractStoragePath(GeneratedSlideshow(imageUrls, userId, bucketName, timestamp, s).value.thumbnailUrl)
      == Ok(UploadPaths(userId, timestamp).1)
  {
    SlideshowLinks(imageUrls, userId, bucketName, timestamp, s);
    UploadPathsEncodable(userId, timestamp);
    DownloadUrlRoundTrip(bucketName, UploadPaths(userId, timestamp).0, s.videoToken);
    DownloadUrlRoundTrip(bucketName, UploadPaths(userId, timestamp).1, s.thumbnailToken);
  }
}
