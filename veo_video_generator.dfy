/**
 * The deterministic parts of the Veo history-movie generator: which bear
 * images are sent, which Storage object each image URL names, how the
 * generated video's `gs://` URI is read, and the download URLs given to the
 * uploaded video and thumbnail.
 */
module VeoVideoGenerator {
  import opened Wrappers
  import opened Strings
  import opened Seqs
  import opened Urls
  import opened PercentEncoding
  import Storage

  /** Reference-to-video takes at most three subject images. */
  const MaxReferenceImages: nat := 3

  /** `bearImageUrls.slice(0, 3)`, rejected when nothing is left. */
  function ReferenceUrls(bearImageUrls: seq<string>): (r: Result<seq<string>, string>)
    ensures r.Ok? <==> |bearImageUrls| > 0
    ensures r.Ok? ==> 1 <= |r.value| <= MaxReferenceImages && |r.value| <= |bearImageUrls|
    ensures r.Ok? ==> r.value == bearImageUrls[..|r.value|]
    ensures r.Ok? ==> |r.value| == MaxReferenceImages || r.value == bearImageUrls
    ensures r.Err? ==> r.error == "At least 1 bear image is required"
  {
    var urls := Take(bearImageUrls, MaxReferenceImages);
    if |urls| < 1 then Err("At least 1 bear image is required") else Ok(urls)
  }

  // ---------------------------------------------------------------------------
  // From an image URL to its Storage object
  // ---------------------------------------------------------------------------

  /** The characters a JavaScript regular expression's `.` does not match. */
  predicate IsLineTerminator(c: char)
  {
    c == '\n' || c == '\r' || c == '\U{2028}' || c == '\U{2029}'
  }

  predicate LineFree(s: string)
  {
    forall i :: 0 <= i < |s| ==> !IsLineTerminator(s[i])
  }

  /** `/\/o\/(.+)$/` matches at `k`: `/o/` there, then at least one character, and no line terminator up to the end. */
  predicate MarkerMatchesAt(p: string, k: nat)
  {
    OccursAt(p, "/o/", k) && k + 3 < |p| && LineFree(p[k + 3..])
  }

  /** The leftmost position at or after `from` where the pattern matches. */
  function FirstMarkerMatch(p: string, from: nat): (r: Option<nat>)
    ensures r.Some? ==> from <= r.value && MarkerMatchesAt(p, r.value)
    ensures r.Some? ==> forall k: nat :: from <= k < r.value ==> !MarkerMatchesAt(p, k)
    ensures r.None? ==> forall k: nat :: from <= k ==> !MarkerMatchesAt(p, k)
    decreases |p| - from
  {
    if from + 3 >= |p| then None
    else if MarkerMatchesAt(p, from) then Some(from)
    else FirstMarkerMatch(p, from + 1)
  }

  /** `pathParts.slice(1)`. */
  function DropFirst(parts: seq<string>): (r: seq<string>)
    ensures |parts| > 0 ==> [parts[0]] + r == parts
    ensures |parts| == 0 ==> r == []
  {
    if |parts| == 0 then [] else parts[1..]
  }

  /**
   * `downloadAndBase64Encode`'s choice of object: for a download URL the
   * percent-decoded text after the first `/o/` of the path name; for a
   * public Storage URL the non-empty path segments after the bucket; any
   * other host, or a download URL without `/o/`, is rejected.
   */
  function ObjectPathOf(url: string): Result<string, string>
  {
    var path := PathnameOf(url);
    if SplitUrl(url).scheme == "" then Err("Invalid URL")
    else if HostOf(url) == FirebaseHost then
      match FirstMarkerMatch(path, 0)
      case None => Err("Invalid Firebase Storage URL: " + url)
      case Some(k) => DecodeURIComponent(path[k + 3..])
    else if HostOf(url) == StorageHost then
      Ok(Join(DropFirst(NonEmptyParts(Split(path, "/"))), "/"))
    else Err("Unsupported URL format: " + url)
  }

  /** A URL without a scheme, or on a host other than the two Storage hosts, is rejected. */
  lemma ObjectPathRejects(url: string)
    ensures SplitUrl(url).scheme == "" ==> ObjectPathOf(url) == Err("Invalid URL")
    ensures SplitUrl(url).scheme != "" && HostOf(url) != FirebaseHost && HostOf(url) != StorageHost ==>
      ObjectPathOf(url) == Err("Unsupported URL format: " + url)
  {
  }

  /**
   * On the download host the object is the decoded text after the leftmost
   * `/o/` followed by a line-free rest (`FirstMarkerMatch`); without one the
   * URL is rejected.
   */
  lemma ObjectPathDownload(url: string)
    requires SplitUrl(url).scheme != "" && HostOf(url) == FirebaseHost
    ensures FirstMarkerMatch(PathnameOf(url), 0).None? ==> ObjectPathOf(url) == Err("Invalid Firebase Storage URL: " + url)
    ensures FirstMarkerMatch(PathnameOf(url), 0).Some? ==>
      ObjectPathOf(url) == DecodeURIComponent(PathnameOf(url)[FirstMarkerMatch(PathnameOf(url), 0).value + 3..])
  {
  }

  /** On the public host the object is the non-empty path segments after the bucket, joined by `/`. */
  lemma ObjectPathPublic(url: string)
    requires SplitUrl(url).scheme != "" && HostOf(url) == StorageHost
    ensures ObjectPathOf(url) == Ok(Join(DropFirst(NonEmptyParts(Split(PathnameOf(url), "/"))), "/"))
  {
    assert |FirebaseHost| == 8 + |StorageHost|;
  }

  /** `downloadAndBase64Encode`: the chosen object read as Base64 by `read`. */
  function DownloadAndBase64Encode(url: string, read: string -> Result<string, string>): (r: Result<string, string>)
    ensures ObjectPathOf(url).Err? ==> r == Err(ObjectPathOf(url).error)
    ensures ObjectPathOf(url).Ok? ==> r == read(ObjectPathOf(url).value)
  {
    match ObjectPathOf(url)
    case Err(e) => Err(e)
    case Ok(p) => read(p)
  }

  /** `Promise.all` over `xs.map(f)`: every value, or the first failure in list order. */
  function All(xs: seq<string>, f: string -> Result<string, string>): (r: Result<seq<string>, string>)
    ensures r.Ok? <==> forall i :: 0 <= i < |xs| ==> f(xs[i]).Ok?
    ensures r.Ok? ==> |r.value| == |xs| && forall i :: 0 <= i < |xs| ==> r.value[i] == f(xs[i]).value
    ensures r.Err? ==> exists i :: 0 <= i < |xs| && f(xs[i]) == Err(r.error)
  {
    if |xs| == 0 then Ok([])
    else
      assert forall i :: 1 <= i < |xs| ==> xs[1..][i - 1] == xs[i];
      match f(xs[0])
      case Err(e) => Err(e)
      case Ok(y) =>
        match All(xs[1..], f)
        case Err(e) => Err(e)
        case Ok(ys) => Ok([y] + ys)
  }

  /** `Promise.all(urls.map(downloadAndBase64Encode))`. */
  function DownloadAll(urls: seq<string>, read: string -> Result<string, string>): (r: Result<seq<string>, string>)
  {
    All(urls, url => DownloadAndBase64Encode(url, read))
  }

  /** All images are downloaded, in the order of their URLs, or the error of one that failed is raised. */
  lemma DownloadAllImages(urls: seq<string>, read: string -> Result<string, string>)
    ensures DownloadAll(urls, read).Ok? <==> forall i :: 0 <= i < |urls| ==> DownloadAndBase64Encode(urls[i], read).Ok?
    ensures DownloadAll(urls, read).Ok? ==> |DownloadAll(urls, read).value| == |urls|
    ensures DownloadAll(urls, read).Ok? ==>
      forall i :: 0 <= i < |urls| ==> DownloadAll(urls, read).value[i] == DownloadAndBase64Encode(urls[i], read).value
    ensures DownloadAll(urls, read).Err? ==>
      exists i :: 0 <= i < |urls| && DownloadAndBase64Encode(urls[i], read) == Err(DownloadAll(urls, read).error)
  {
    var f := url => DownloadAndBase64Encode(url, read);
    assert forall i :: 0 <= i < |urls| ==> f(urls[i]) == DownloadAndBase64Encode(urls[i], read);
  }

  // ---------------------------------------------------------------------------
  // The generated video's location
  // ---------------------------------------------------------------------------

  /** The folder Veo writes into: `videos/<userId>/veo_output/<start time>/`. */
  function OutputGcsUri(bucketName: string, userId: string, startTime: int): (uri: string)
    ensures StartsWith(uri, "gs://" + bucketName + "/videos/" + userId + "/")
  {
    var prefix := "gs://" + bucketName + "/videos/" + userId + "/";
    var uri := prefix + "veo_output/" + IntToString(startTime) + "/";
    assert uri[..|prefix|] == prefix;
    uri
  }

  /**
   * `downloadFromGcs`'s `/^gs:\/\/([^/]+)\/(.+)$/`: the bucket is everything
   * up to the first `/` after `gs://` and must not be empty, the object path
   * is the non-empty, line-terminator-free rest.
   */
  function ParseGcsUri(uri: string): (r: Result<(string, string), string>)
    ensures r.Ok? ==> uri == "gs://" + r.value.0 + "/" + r.value.1
    ensures r.Ok? ==> |r.value.0| > 0 && '/' !in r.value.0 && |r.value.1| > 0 && LineFree(r.value.1)
    ensures r.Err? ==> r.error == "Invalid GCS URI: " + uri
  {
    if !StartsWith(uri, "gs://") then Err("Invalid GCS URI: " + uri)
    else
      var rest := uri[5..];
      var k := IndexOfAny(rest, {'/'});
      if k == 0 || k == |rest| then Err("Invalid GCS URI: " + uri)
      else
        var bucket := rest[..k];
        var path := rest[k + 1..];
        if |path| == 0 || !LineFree(path) then Err("Invalid GCS URI: " + uri)
        else
          assert '/' !in bucket by {
            forall i | 0 <= i < |bucket| ensures bucket[i] != '/' {
              assert bucket[i] == rest[i];
            }
          }
          assert uri == uri[..5] + rest;
          assert rest == bucket + "/" + path;
          Ok((bucket, path))
  }

  /** Every `gs://<bucket>/<path>` the pattern allows is read back as that bucket and path. */
  lemma GcsUriRoundTrip(bucket: string, path: string)
    requires |bucket| > 0 && '/' !in bucket && |path| > 0 && LineFree(path)
    ensures ParseGcsUri("gs://" + bucket + "/" + path) == Ok((bucket, path))
  {
    var uri := "gs://" + bucket + "/" + path;
    assert uri[..5] == "gs://";
    var rest := uri[5..];
    assert rest == bucket + ("/" + path);
    assert forall i :: 0 <= i < |bucket| ==> bucket[i] !in {'/'} by {
      forall i | 0 <= i < |bucket| ensures bucket[i] !in {'/'} {
        assert bucket[i] in bucket;
      }
    }
    IndexOfAnyPrefix(bucket, "/" + path, {'/'});
    assert rest[..|bucket|] == bucket;
    assert rest[|bucket| + 1..] == path;
  }

  // ---------------------------------------------------------------------------
  // Uploads
  // ---------------------------------------------------------------------------

  /** A template literal shows a missing download token as `undefined`. */
  function TokenText(token: Option<string>): string
  {
    match token
    case Some(t) => t
    case None => "undefined"
  }

  /** `uploadToStorage`'s result: the download URL of `storagePath`, whose path is encoded by `encodeURIComponent`. */
  function UploadUrl(bucketName: string, storagePath: string, token: Option<string>): string
  {
    FirebaseUrl(bucketName, EncodeURIComponent(storagePath), TokenText(token))
  }

  /** An encoded path is non-empty when the path is, and holds nothing that ends a path or a regular-expression line. */
  lemma EncodedPlain(s: string)
    requires |s| > 0
    ensures |EncodeURIComponent(s)| > 0
    ensures PathSafe(EncodeURIComponent(s)) && LineFree(EncodeURIComponent(s)) && '/' !in EncodeURIComponent(s)
  {
    var e := EncodeURIComponent(s);
    EncodedCharacters(s);
    assert forall i :: 0 <= i < |e| ==> e[i] != '/' && e[i] != '?' && e[i] != '#' && !IsLineTerminator(e[i]) by {
      forall i | 0 <= i < |e| ensures e[i] != '/' && e[i] != '?' && e[i] != '#' && !IsLineTerminator(e[i]) {
        assert IsUnreserved(e[i]) || e[i] == '%';
      }
    }
  }

  /** The object marker of a download URL is found right after the bucket. */
  lemma MarkerAfterBucket(bucketName: string, encoded: string)
    requires ValidBucket(bucketName) && '/' !in encoded && |encoded| > 0 && LineFree(encoded)
    ensures FirstMarkerMatch(FirebasePath(bucketName, encoded), 0) == Some(6 + |bucketName|)
  {
    var p := FirebasePath(bucketName, encoded);
    var m := 6 + |bucketName|;
    forall k: nat ensures OccursAt(p, "/o/", k) <==> k == m {
      OnlyObjectMarker(bucketName, encoded, k);
    }
    assert p[m + 3..] == encoded;
    assert MarkerMatchesAt(p, m);
  }

  /**
   * The download URL `uploadToStorage` returns names, for
   * `downloadAndBase64Encode`, exactly the object it uploaded.
   */
  lemma UploadedObjectRoundTrip(bucketName: string, storagePath: string, token: Option<string>)
    requires ValidBucket(bucketName) && |storagePath| > 0
    ensures ObjectPathOf(UploadUrl(bucketName, storagePath, token)) == Ok(storagePath)
  {
    var e := EncodeURIComponent(storagePath);
    EncodedPlain(storagePath);
    SplitFirebaseUrl(bucketName, e, TokenText(token));
    MarkerAfterBucket(bucketName, e);
    assert FirebasePath(bucketName, e)[6 + |bucketName| + 3..] == e;
    DecodeEncode(storagePath);
    ObjectPathDownload(UploadUrl(bucketName, storagePath, token));
  }

  /** The video and its thumbnail share the stem `videos/<userId>/<timestamp>`. */
  function UploadPaths(userId: string, timestamp: int): (paths: (string, string))
    ensures StartsWith(paths.0, "videos/" + userId + "/" + IntToString(timestamp))
    ensures StartsWith(paths.1, "videos/" + userId + "/" + IntToString(timestamp))
    ensures paths.0[|"videos/" + userId + "/" + IntToString(timestamp)|..] == ".mp4"
    ensures paths.1[|"videos/" + userId + "/" + IntToString(timestamp)|..] == "_thumb.jpg"
    ensures paths.0 != paths.1
  {
    var stem := "videos/" + userId + "/" + IntToString(timestamp);
    var video := stem + ".mp4";
    var thumb := stem + "_thumb.jpg";
    assert video[..|stem|] == stem && video[|stem|..] == ".mp4";
    assert thumb[..|stem|] == stem && thumb[|stem|..] == "_thumb.jpg";
    assert video[|stem|] != thumb[|stem|];
    (video, thumb)
  }

  /** `https://<host>/<bucket>/<path>` is split into that host and the path name `/<bucket>/<path>`. */
  lemma BucketUrlParts(host: string, bucket: string, path: string)
    requires |host| > 0 && HostSafe(host) && Hostname(host) == host
    requires PathSafe(bucket) && PathSafe(path)
    ensures SplitUrl("https://" + host + "/" + bucket + "/" + path).scheme == "https"
    ensures HostOf("https://" + host + "/" + bucket + "/" + path) == host
    ensures PathnameOf("https://" + host + "/" + bucket + "/" + path) == "/" + bucket + "/" + path
  {
    var pathname := "/" + bucket + "/" + path;
    PathSafeAppend("/", bucket);
    PathSafeAppend("/" + bucket, "/");
    PathSafeAppend("/" + bucket + "/", path);
    Regroup("https://", host, bucket, path);
    SplitBuiltUrl(host, pathname, "");
  }

  /** `x + host + "/" + bucket + "/" + path` read as prefix, host and path name. */
  lemma Regroup(x: string, host: string, bucket: string, path: string)
    ensures x + host + "/" + bucket + "/" + path == x + host + ("/" + bucket + "/" + path) + ""
  {
  }

  /** A public Storage URL is split into the storage host and the path `/<bucket>/<path>`. */
  lemma PublicUrlParts(path: string)
    requires PathSafe(path)
    ensures SplitUrl(Storage.PublicUrl(path)).scheme == "https" && HostOf(Storage.PublicUrl(path)) == StorageHost
    ensures PathnameOf(Storage.PublicUrl(path)) == "/" + Storage.BucketName + "/" + path
  {
    Storage.BucketNamePlain();
    StorageHostPlain();
    Storage.PublicUrlShape(path);
    BucketUrlParts(StorageHost, Storage.BucketName, path);
  }

  /** The parts of a path with no empty segment contain no `/`. */
  lemma PartsFreeOfSlash(path: string)
    ensures forall i :: 0 <= i < |Split(path, "/")| ==> '/' !in Split(path, "/")[i]
  {
    var segs := Split(path, "/");
    forall i | 0 <= i < |segs| ensures '/' !in segs[i] {
      forall k: nat | k < |segs[i]| ensures segs[i][k] != '/' {
        SplitPartsFree(path, "/", i, k);
        assert segs[i][k..k + 1] == [segs[i][k]];
      }
    }
  }

  lemma {:induction false} JoinUnderBucket(bucket: string, segs: seq<string>)
    requires |segs| >= 1
    ensures Join(["", bucket] + segs, "/") == "/" + bucket + "/" + Join(segs, "/")
  {
    JoinCons(bucket, segs, "/");
    JoinCons("", [bucket] + segs, "/");
    assert ["", bucket] + segs == [""] + ([bucket] + segs);
  }

  lemma {:induction false} KeptUnderBucket(bucket: string, segs: seq<string>)
    requires bucket != ""
    requires forall i :: 0 <= i < |segs| ==> segs[i] != ""
    ensures DropFirst(NonEmptyParts(["", bucket] + segs)) == segs
  {
    NonEmptyPartsAppend(["", bucket], segs);
    NonEmptyPartsKeep(segs);
    assert NonEmptyParts(["", bucket]) == [bucket] by {
      assert ["", bucket][..1] == [""];
      assert NonEmptyParts([""]) == [];
    }
    assert DropFirst([bucket] + segs) == segs;
  }

  /** Dropping the bucket segment of `/<bucket>/<path>` leaves the path, when it has no empty segment. */
  lemma {:induction false} SegmentsAfterBucket(bucket: string, path: string)
    requires bucket != "" && '/' !in bucket
    requires forall i :: 0 <= i < |Split(path, "/")| ==> Split(path, "/")[i] != ""
    ensures Join(DropFirst(NonEmptyParts(Split("/" + bucket + "/" + path, "/"))), "/") == path
  {
    var segs := Split(path, "/");
    JoinSplit(path, "/");
    PartsFreeOfSlash(path);
    var parts := ["", bucket] + segs;
    JoinUnderBucket(bucket, segs);
    assert forall i :: 0 <= i < |parts| ==> '/' !in parts[i];
    SplitJoinChar(parts, '/');
    KeptUnderBucket(bucket, segs);
  }

  /** The public Storage URLs `uploadImage` writes are read as their object path when that path has no empty segment. */
  lemma PublicUrlRoundTrip(path: string)
    requires PathSafe(path)
    requires forall i :: 0 <= i < |Split(path, "/")| ==> Split(path, "/")[i] != ""
    ensures ObjectPathOf(Storage.PublicUrl(path)) == Ok(path)
  {
    PublicUrlParts(path);
    Storage.BucketNamePlain();
    SegmentsAfterBucket(Storage.BucketName, path);
    ObjectPathPublic(Storage.PublicUrl(path));
  }

  // ---------------------------------------------------------------------------
  // The whole generation
  // ---------------------------------------------------------------------------

  datatype VeoVideo = VeoVideo(videoUrl: string, thumbnailUrl: string)

  /** The calls into Storage, Vertex AI and ffmpeg, as their outcomes. */
  datatype VeoServices = VeoServices(
    read: string -> Result<string, string>,            // object path to its Base64 content
    generate: (seq<string>, string) -> Result<string, string>, // images and output folder to the video's gs:// URI
    fetch: (string, string) -> Result<(), string>,     // bucket and object path of the generated video
    thumbnail: Result<(), string>,                     // the first-frame screenshot
    upload: string -> Result<Option<string>, string>)  // storage path to its download token

  /**
   * Every step of `generateVideoWithVeo` succeeds: the reference images are
   * chosen and read, Veo answers with a `gs://` URI that parses, the video is
   * fetched, the thumbnail taken, and both uploads return.
   */
  predicate StepsSucceed(bearImageUrls: seq<string>, userId: string, bucketName: string,
                         startTime: int, uploadTime: int, s: VeoServices)
  {
    ReferenceUrls(bearImageUrls).Ok?
    && DownloadAll(ReferenceUrls(bearImageUrls).value, s.read).Ok?
    && var video := s.generate(DownloadAll(ReferenceUrls(bearImageUrls).value, s.read).value,
                               OutputGcsUri(bucketName, userId, startTime));
    video.Ok? && ParseGcsUri(video.value).Ok?
    && s.fetch(ParseGcsUri(video.value).value.0, ParseGcsUri(video.value).value.1).Ok?
    && s.thumbnail.Ok?
    && s.upload(UploadPaths(userId, uploadTime).0).Ok?
    && s.upload(UploadPaths(userId, uploadTime).1).Ok?
  }

  /**
   * `generateVideoWithVeo`: the first three images go to Veo, whose video is
   * fetched, screenshotted and uploaded with its thumbnail under one
   * timestamp. `startTime` and `uploadTime` are the two clock readings.
   */
  function GenerateVideoWithVeo(bearImageUrls: seq<string>, userId: string, bucketName: string,
                                startTime: int, uploadTime: int, s: VeoServices): (r: Result<VeoVideo, string>)
    ensures |bearImageUrls| == 0 ==> r == Err("At least 1 bear image is required")
    ensures r.Ok? ==> (ReferenceUrls(bearImageUrls).Ok?
      && DownloadAll(ReferenceUrls(bearImageUrls).value, s.read).Ok?
      && s.generate(DownloadAll(ReferenceUrls(bearImageUrls).value, s.read).value,
                    OutputGcsUri(bucketName, userId, startTime)).Ok?)
    ensures r.Ok? ==> exists t1, t2 ::
      r.value == VeoVideo(UploadUrl(bucketName, UploadPaths(userId, uploadTime).0, t1),
                          UploadUrl(bucketName, UploadPaths(userId, uploadTime).1, t2))
    ensures r.Ok? <==> StepsSucceed(bearImageUrls, userId, bucketName, startTime, uploadTime, s)
    ensures r.Ok? ==>
      r.value == VeoVideo(UploadUrl(bucketName, UploadPaths(userId, uploadTime).0, s.upload(UploadPaths(userId, uploadTime).0).value),
                          UploadUrl(bucketName, UploadPaths(userId, uploadTime).1, s.upload(UploadPaths(userId, uploadTime).1).value))
  {
    match ReferenceUrls(bearImageUrls)
    case Err(e) => Err(e)
    case Ok(urls) =>
      match DownloadAll(urls, s.read)
      case Err(e) => Err(e)
      case Ok(images) =>
        match s.generate(images, OutputGcsUri(bucketName, userId, startTime))
        case Err(e) => Err(e)
        case Ok(videoGcsUri) =>
          match ParseGcsUri(videoGcsUri)
          case Err(e) => Err(e)
          case Ok((bucket, objectPath)) =>
            match s.fetch(bucket, objectPath)
            case Err(e) => Err(e)
            case Ok(_) =>
              match s.thumbnail
              case Err(e) => Err(e)
              case Ok(_) =>
                var (videoPath, thumbPath) := UploadPaths(userId, uploadTime);
                match s.upload(videoPath)
                case Err(e) => Err(e)
                case Ok(t1) =>
                  match s.upload(thumbPath)
                  case Err(e) => Err(e)
                  case Ok(t2) =>
                    Ok(VeoVideo(UploadUrl(bucketName, videoPath, t1), UploadUrl(bucketName, thumbPath, t2)))
  }

  /** Both URLs returned name the uploaded video and thumbnail objects. */
  lemma GeneratedUrlsNameUploads(bearImageUrls: seq<string>, userId: string, bucketName: string,
                                 startTime: int, uploadTime: int, s: VeoServices)
    requires ValidBucket(bucketName)
    requires GenerateVideoWithVeo(bearImageUrls, userId, bucketName, startTime, uploadTime, s).Ok?
    ensures ObjectPathOf(GenerateVideoWithVeo(bearImageUrls, userId, bucketName, startTime, uploadTime, s).value.videoUrl)
      == Ok(UploadPaths(userId, uploadTime).0)
    ensures ObjectPathOf(GenerateVideoWithVeo(bearImageUrls, userId, bucketName, startTime, uploadTime, s).value.thumbnailUrl)
      == Ok(UploadPaths(userId, uploadTime).1)
  {
    var v := GenerateVideoWithVeo(bearImageUrls, userId, bucketName, startTime, uploadTime, s).value;
    var (videoPath, thumbPath) := UploadPaths(userId, uploadTime);
    var t1, t2 :| v == VeoVideo(UploadUrl(bucketName, videoPath, t1), UploadUrl(bucketName, thumbPath, t2));
    UploadedObjectRoundTrip(bucketName, videoPath, t1);
    UploadedObjectRoundTrip(bucketName, thumbPath, t2);
  }
}
