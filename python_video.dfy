/**
 * The deterministic parts of the Ken Burns video generator: where each bear
 * image is read from (a Storage object or the web), the clips built from the
 * images in input order, and the download URL of the uploaded video.
 */
module PythonVideo {
  import opened Wrappers
  import opened Strings
  import opened Urls
  import opened PercentEncoding
  import opened PythonVideoGenerator
  import Storage

  /** Seconds each image is shown before the crossfade overlap is applied. */
  const ImageDuration: real := 2.0

  /** Where `download_image_from_storage` reads an image from. */
  datatype ImageSource = StorageObject(path: string) | WebImage(url: string)

  /**
   * `download_image_from_storage`'s choice of source. The network location
   * is searched for the download host first and for the public Storage host
   * second. On the download host the object is the unquoted text between the
   * first `/o/` of the path and the next one (cut at `?`); on the public
   * host it is the third part of the path split at its first two `/`. Any
   * other host is fetched over HTTP as it is.
   */
  function ImageSourceOf(url: string): (r: Result<ImageSource, string>)
    ensures r.Ok? && r.value.WebImage? ==> r.value.url == url
    ensures IndexOf(SplitUrl(url).netloc, FirebaseHost, 0).Some? ==>
      (r.Ok? <==> IndexOf(ParsedPath(url), "/o/", 0).Some?)
    ensures IndexOf(SplitUrl(url).netloc, FirebaseHost, 0).Some? && r.Err? ==>
      r.error == "Invalid Firebase Storage URL format: " + url
    ensures IndexOf(SplitUrl(url).netloc, FirebaseHost, 0).None? && IndexOf(SplitUrl(url).netloc, StorageHost, 0).Some? ==>
      (r.Ok? <==> |SplitMax(ParsedPath(url), "/", 2)| == 3)
    ensures (IndexOf(SplitUrl(url).netloc, FirebaseHost, 0).None? && IndexOf(SplitUrl(url).netloc, StorageHost, 0).Some?
      && r.Err?) ==> r.error == "Invalid Storage URL format: " + url
    ensures IndexOf(SplitUrl(url).netloc, StorageHost, 0).None? ==> r == Ok(WebImage(url))
    ensures IndexOf(SplitUrl(url).netloc, FirebaseHost, 0).Some? && r.Ok? ==>
      |Split(ParsedPath(url), "/o/")| > 1 &&
      r == Ok(StorageObject(Unquote(Split(Split(ParsedPath(url), "/o/")[1], "?")[0])))
    ensures IndexOf(SplitUrl(url).netloc, FirebaseHost, 0).None? && IndexOf(SplitUrl(url).netloc, StorageHost, 0).Some? && r.Ok? ==>
      |SplitMax(ParsedPath(url), "/", 2)| == 3 && r == Ok(StorageObject(SplitMax(ParsedPath(url), "/", 2)[2])) &&
      exists a, b :: ParsedPath(url) == a + "/" + b + "/" + r.value.path && '/' !in a && '/' !in b
  {
    var netloc := SplitUrl(url).netloc;
    var path := ParsedPath(url);
    if IndexOf(netloc, FirebaseHost, 0).Some? then
      NetlocIsStorage(netloc);
      var parts := Split(path, "/o/");
      assert |parts| > 1 <==> IndexOf(path, "/o/", 0).Some?;
      if |parts| > 1 then Ok(StorageObject(Unquote(Split(parts[1], "?")[0])))
      else Err("Invalid Firebase Storage URL format: " + url)
    else if IndexOf(netloc, StorageHost, 0).Some? then
      var parts := SplitMax(path, "/", 2);
      if |parts| > 2 then
        SplitMaxTwoChar(path, '/');
        Ok(StorageObject(parts[2]))
      else Err("Invalid Storage URL format: " + url)
    else Ok(WebImage(url))
  }

  /**
   * On the download host the object read is the unquoted text that follows
   * the first `/o/` of the path: of the part `mid` up to the next `/o/` (or
   * the end), the text `obj` before its first `?`.
   */
  lemma FirebaseImageObject(url: string) returns (pre: string, mid: string, post: string, obj: string, cut: string)
    requires IndexOf(SplitUrl(url).netloc, FirebaseHost, 0).Some? && ImageSourceOf(url).Ok?
    ensures ParsedPath(url) == pre + "/o/" + mid + post
    ensures forall k: nat :: k < |pre| ==> !OccursAt(ParsedPath(url), "/o/", k)
    ensures forall k: nat :: k < |mid| ==> !OccursAt(mid + post, "/o/", k)
    ensures post == "" || StartsWith(post, "/o/")
    ensures mid == obj + cut && '?' !in obj && (cut == "" || cut[0] == '?')
    ensures ImageSourceOf(url).value == StorageObject(Unquote(obj))
  {
    pre, mid, post, obj, cut := FirstObjectText(ParsedPath(url));
  }

  /**
   * The pieces of a path around its first `/o/`: the text before it, the
   * part up to the next `/o/` (or the end), and what follows; the part is
   * split again at its first `?`. The object text is what
   * `split('/o/')[1].split('?')[0]` gives.
   */
  lemma FirstObjectText(path: string) returns (pre: string, mid: string, post: string, obj: string, cut: string)
    requires IndexOf(path, "/o/", 0).Some?
    ensures path == pre + "/o/" + mid + post
    ensures forall k: nat :: k < |pre| ==> !OccursAt(path, "/o/", k)
    ensures forall k: nat :: k < |mid| ==> !OccursAt(mid + post, "/o/", k)
    ensures post == "" || StartsWith(post, "/o/")
    ensures mid == obj + cut && '?' !in obj && (cut == "" || cut[0] == '?')
    ensures |Split(path, "/o/")| > 1 && obj == Split(Split(path, "/o/")[1], "?")[0]
  {
    var after;
    pre, mid, after, post := SplitFirstTwo(path, "/o/");
    obj, cut := SplitFirstChar(mid, '?');
  }

  /**
   * The public URL `createBear` stores for an object without `?`, `#` or `;`
   * is read back as that object.
   */
  lemma StoredImageSource(path: string)
    requires PathSafe(path) && ';' !in path
    ensures ImageSourceOf(Storage.PublicUrl(path)) == Ok(StorageObject(path))
  {
    var url := Storage.PublicUrl(path);
    Storage.BucketNamePlain();
    PublicUrlSplit(path);
    StorageHostOnly();
    PublicPathParts(Storage.BucketName, path);
    assert SplitMax(ParsedPath(url), "/", 2)[2] == path;
  }

  /** The network location and `urlparse` path of a stored image's public URL. */
  lemma PublicUrlSplit(path: string)
    requires PathSafe(path) && ';' !in path
    ensures SplitUrl(Storage.PublicUrl(path)).netloc == StorageHost
    ensures ParsedPath(Storage.PublicUrl(path)) == "/" + Storage.BucketName + "/" + path
  {
    Storage.BucketNamePlain();
    Storage.PublicUrlShape(path);
    StorageHostPlain();
    BucketUrlSplit(StorageHost, Storage.BucketName, path);
  }

  /** `https://<host>/<bucket>/<path>` with no `;` is read by `urlparse` as that host and path. */
  lemma BucketUrlSplit(host: string, bucket: string, path: string)
    requires |host| > 0 && HostSafe(host) && HostSafe(bucket) && PathSafe(path)
    requires ';' !in bucket && ';' !in path
    ensures SplitUrl("https://" + host + "/" + bucket + "/" + path).netloc == host
    ensures ParsedPath("https://" + host + "/" + bucket + "/" + path) == "/" + bucket + "/" + path
  {
    var url := "https://" + host + "/" + bucket + "/" + path;
    var pathname := "/" + bucket + "/" + path;
    PlainPathname(bucket, path);
    assert url == "https://" + host + pathname + "";
    SplitBuiltUrl(host, pathname, "");
    NoParams(url);
  }

  /** `/<bucket>/<path>` brings no `?`, `#` or `;` that its parts do not. */
  lemma PlainPathname(bucket: string, path: string)
    requires PathSafe(bucket) && PathSafe(path) && ';' !in bucket && ';' !in path
    ensures PathSafe("/" + bucket + "/" + path)
    ensures forall i :: 0 <= i < |"/" + bucket + "/" + path| ==> ("/" + bucket + "/" + path)[i] != ';'
  {
    var pathname := "/" + bucket + "/" + path;
    PathSafeAppend("/", bucket);
    PathSafeAppend("/" + bucket, "/");
    PathSafeAppend("/" + bucket + "/", path);
    assert ';' !in pathname;
    forall i | 0 <= i < |pathname| ensures pathname[i] != ';' {
      assert pathname[i] in pathname;
    }
  }

  /** The public host is not the download host, and contains itself. */
  lemma StorageHostOnly()
    ensures IndexOf(StorageHost, FirebaseHost, 0).None?
    ensures IndexOf(StorageHost, StorageHost, 0).Some?
  {
    assert |FirebaseHost| > |StorageHost|;
    assert OccursAt(StorageHost, StorageHost, 0);
    FirstOccurrence(StorageHost, StorageHost, 0);
  }

  /** `"/<bucket>/<path>".split("/", 2)` with a bucket free of `/` is `["", bucket, path]`. */
  lemma PublicPathParts(bucket: string, path: string)
    requires '/' !in bucket
    ensures SplitMax("/" + bucket + "/" + path, "/", 2) == ["", bucket, path]
  {
    var s := "/" + bucket + "/" + path;
    assert s == [] + ['/'] + (bucket + "/" + path);
    FirstCharOccurrence([], bucket + "/" + path, '/');
    SplitMaxStep(s, "/", 2, 0);
    var rest := bucket + "/" + path;
    assert s[1..] == rest;
    FirstCharOccurrence(bucket, path, '/');
    SplitMaxStep(rest, "/", 1, |bucket|);
    assert rest[..|bucket|] == bucket && rest[|bucket| + 1..] == path;
  }

  /**
   * A network location containing the download host also contains the
   * public Storage host, so the order of the two tests decides: the
   * download host's branch is the one taken.
   */
  lemma NetlocIsStorage(netloc: string)
    requires IndexOf(netloc, FirebaseHost, 0).Some?
    ensures IndexOf(netloc, StorageHost, 0).Some?
  {
    SuffixOccurs(netloc, "firebase", StorageHost);
  }

  lemma SuffixOccurs(s: string, a: string, b: string)
    requires |b| > 0 && IndexOf(s, a + b, 0).Some?
    ensures IndexOf(s, b, 0).Some?
  {
    var k := IndexOf(s, a + b, 0).value;
    assert s[k..k + |a + b|] == a + b;
    assert s[k + |a|..k + |a + b|] == (a + b)[|a|..] == b;
    assert OccursAt(s, b, k + |a|);
  }

  // ---------------------------------------------------------------------------
  // Upload
  // ---------------------------------------------------------------------------

  /** `videos/<user_id>/<uuid>.mp4`. */
  function BlobName(userId: string, id: string): (name: string)
    ensures StartsWith(name, "videos/" + userId + "/") && name[|"videos/" + userId + "/"|..] == id + ".mp4"
  {
    var prefix := "videos/" + userId + "/";
    var name := prefix + id + ".mp4";
    assert name[..|prefix|] == prefix;
    name
  }

  /** `upload_to_storage`'s link: the download URL with `/` encoded as `%2F`. */
  function VideoUrl(bucketName: string, userId: string, id: string, token: string): string
  {
    DownloadUrl(bucketName, BlobName(userId, id), token)
  }

  lemma BlobNameEncodable(userId: string, id: string)
    requires SlashEncodable(userId) && SlashEncodable(id)
    ensures SlashEncodable(BlobName(userId, id))
  {
    var name := BlobName(userId, id);
    assert name == "videos/" + userId + "/" + id + ".mp4";
    var u := 7 + |userId|;
    assert forall i :: 7 <= i < u ==> name[i] == userId[i - 7];
    assert forall i :: u + 1 <= i < u + 1 + |id| ==> name[i] == id[i - u - 1];
    forall i | 0 <= i < |name| ensures name[i] != '%' && name[i] != ';' && name[i] != '?' && name[i] != '#' {
      if 7 <= i < u {
        assert userId[i - 7] in userId;
      } else if u + 1 <= i < u + 1 + |id| {
        assert id[i - u - 1] in id;
      }
    }
  }

  /** The part after `/o/` is not cut by the `?` split when it holds no `?`. */
  lemma QuerySplitKeeps(s: string)
    requires PathSafe(s)
    ensures Split(s, "?")[0] == s
  {
    forall k: nat ensures !OccursAt(s, "?", k) {
      if k < |s| {
        assert s[k..k + 1] == [s[k]];
      }
    }
    SplitNone(s, "?");
  }

  /**
   * With a user id and an upload id free of `%`, `?`, `#` and `;`, the
   * uploaded video's link is read back as the object it was uploaded to.
   */
  lemma VideoUrlRoundTrip(bucketName: string, userId: string, id: string, token: string)
    requires ValidBucket(bucketName) && ';' !in bucketName
    requires SlashEncodable(userId) && SlashEncodable(id)
    ensures ImageSourceOf(VideoUrl(bucketName, userId, id, token)) == Ok(StorageObject(BlobName(userId, id)))
  {
    var name := BlobName(userId, id);
    BlobNameEncodable(userId, id);
    var e := EncodeSlashes(name);
    SlashesEncoded(name);
    var url := FirebaseUrl(bucketName, e, token);
    SplitFirebaseUrl(bucketName, e, token);
    assert OccursAt(SplitUrl(url).netloc, FirebaseHost, 0);
    FirstOccurrence(SplitUrl(url).netloc, FirebaseHost, 0);
    NoParamsInDownloadUrl(bucketName, e, token);
    SplitDownloadPath(bucketName, e);
    QuerySplitKeeps(e);
    UnquoteEncodeSlashes(name);
  }

  // ---------------------------------------------------------------------------
  // The whole generation
  // ---------------------------------------------------------------------------

  /** One image clip: where its image was read from and how long it shows. */
  datatype Clip = Clip(source: ImageSource, duration: real)

  /** The clips of the loop, in input order; the first image that cannot be located or loaded stops it. */
  function BuiltClips(urls: seq<string>, locate: string -> Result<ImageSource, string>, load: ImageSource -> Result<(), string>): (r: Result<seq<Clip>, string>)
    decreases |urls|
  {
    if |urls| == 0 then Ok([])
    else
      match BuiltClips(urls[..|urls| - 1], locate, load)
      case Err(e) => Err(e)
      case Ok(clips) =>
        match locate(urls[|urls| - 1])
        case Err(e) => Err(e)
        case Ok(src) =>
          match load(src)
          case Err(e) => Err(e)
          case Ok(_) => Ok(clips + [Clip(src, ImageDuration)])
  }

  /** One two-second clip per URL, in the URLs' order, each from that URL's source. */
  lemma {:induction false} ClipsInOrder(urls: seq<string>, locate: string -> Result<ImageSource, string>, load: ImageSource -> Result<(), string>)
    requires BuiltClips(urls, locate, load).Ok?
    ensures |BuiltClips(urls, locate, load).value| == |urls|
    ensures forall i :: 0 <= i < |urls| ==>
      locate(urls[i]) == Ok(BuiltClips(urls, locate, load).value[i].source)
      && BuiltClips(urls, locate, load).value[i].duration == ImageDuration
    decreases |urls|
  {
    if |urls| > 0 {
      var init := urls[..|urls| - 1];
      ClipsInOrder(init, locate, load);
      assert forall i :: 0 <= i < |init| ==> init[i] == urls[i];
    }
  }

  lemma {:induction false} ClipFailureStops(urls: seq<string>, j: nat, locate: string -> Result<ImageSource, string>, load: ImageSource -> Result<(), string>)
    requires j <= |urls| && BuiltClips(urls[..j], locate, load).Err?
    ensures BuiltClips(urls, locate, load) == BuiltClips(urls[..j], locate, load)
    decreases |urls| - j
  {
    if j < |urls| {
      assert urls[..j + 1][..j] == urls[..j];
      ClipFailureStops(urls, j + 1, locate, load);
    } else {
      assert urls[..j] == urls;
    }
  }

  /** The returned link and duration, with the clips that made the video. */
  datatype Movie = Movie(clips: seq<Clip>, videoUrl: string, duration: real)

  /**
   * The outside work, as outcomes: loading an image, composing the clips
   * with a half-second crossfade into a file (its duration as moviepy
   * reports it), uploading to a storage path, and the two random ids.
   */
  datatype MovieServices = MovieServices(
    load: ImageSource -> Result<(), string>,
    compose: seq<Clip> -> Result<real, string>,
    upload: string -> Result<(), string>,
    uploadId: string,
    token: string)

  /** `generate_video_from_bears`: fewer than two URLs are refused. */
  function GeneratedMovie(imageUrls: seq<string>, userId: string, bucketName: string, s: MovieServices): (r: Result<Movie, string>)
  {
    if |imageUrls| < 2 then Err("At least 2 images are required")
    else
      match BuiltClips(imageUrls, ImageSourceOf, s.load)
      case Err(e) => Err(e)
      case Ok(clips) =>
        match s.compose(clips)
        case Err(e) => Err(e)
        case Ok(duration) =>
          match s.upload(BlobName(userId, s.uploadId))
          case Err(e) => Err(e)
          case Ok(_) => Ok(Movie(clips, VideoUrl(bucketName, userId, s.uploadId, s.token), duration))
  }

  /** The clip loop: each URL's source in turn, loaded before the next. */
  method BuildClips(urls: seq<string>, load: ImageSource -> Result<(), string>) returns (r: Result<seq<Clip>, string>)
    ensures r == BuiltClips(urls, ImageSourceOf, load)
  {
    var clips: seq<Clip> := [];
    for i := 0 to |urls|
      invariant BuiltClips(urls[..i], ImageSourceOf, load) == Ok(clips)
    {
      assert urls[..i + 1][..i] == urls[..i];
      var src := ImageSourceOf(urls[i]);
      if src.Err? {
        ClipFailureStops(urls, i + 1, ImageSourceOf, load);
        return Err(src.error);
      }
      var loaded := load(src.value);
      if loaded.Err? {
        ClipFailureStops(urls, i + 1, ImageSourceOf, load);
        return Err(loaded.error);
      }
      clips := clips + [Clip(src.value, ImageDuration)];
    }
    assert urls[..|urls|] == urls;
    return Ok(clips);
  }

  /** The generator: the guard, the clips, the composition and the upload. */
  method GenerateVideoFromBears(imageUrls: seq<string>, userId: string, bucketName: string, s: MovieServices)
    returns (r: Result<Movie, string>)
    ensures r == GeneratedMovie(imageUrls, userId, bucketName, s)
  {
    if |imageUrls| < 2 {
      return Err("At least 2 images are required");
    }
    var built := BuildClips(imageUrls, s.load);
    if built.Err? {
      return Err(built.error);
    }
    var clips := built.value;
    var composed := s.compose(clips);
    if composed.Err? {
      return Err(composed.error);
    }
    var up := s.upload(BlobName(userId, s.uploadId));
    if up.Err? {
      return Err(up.error);
    }
    return Ok(Movie(clips, VideoUrl(bucketName, userId, s.uploadId, s.token), composed.value));
  }

  /**
   * A finished movie has one two-second clip per image, in input order;
   * fewer than two images are refused.
   */
  lemma MovieShape(imageUrls: seq<string>, userId: string, bucketName: string, s: MovieServices)
    ensures |imageUrls| < 2 ==> GeneratedMovie(imageUrls, userId, bucketName, s) == Err("At least 2 images are required")
    ensures GeneratedMovie(imageUrls, userId, bucketName, s).Ok? ==>
      var m := GeneratedMovie(imageUrls, userId, bucketName, s).value;
      |m.clips| == |imageUrls|
      && forall i :: 0 <= i < |imageUrls| ==>
        ImageSourceOf(imageUrls[i]) == Ok(m.clips[i].source) && m.clips[i].duration == ImageDuration
  {
    if GeneratedMovie(imageUrls, userId, bucketName, s).Ok? {
      ClipsInOrder(imageUrls, ImageSourceOf, s.load);
    }
  }

  /** With ids free of `%`, `?`, `#` and `;`, the movie's link names the uploaded object. */
  lemma MovieLink(imageUrls: seq<string>, userId: string, bucketName: string, s: MovieServices)
    requires ValidBucket(bucketName) && ';' !in bucketName
    requires SlashEncodable(userId) && SlashEncodable(s.uploadId)
    requires GeneratedMovie(imageUrls, userId, bucketName, s).Ok?
    ensures ImageSourceOf(GeneratedMovie(imageUrls, userId, bucketName, s).value.videoUrl)
      == Ok(StorageObject(BlobName(userId, s.uploadId)))
  {
    assert GeneratedMovie(imageUrls, userId, bucketName, s).value.videoUrl == VideoUrl(bucketName, userId, s.uploadId, s.token);
    VideoUrlRoundTrip(bucketName, userId, s.uploadId, s.token);
  }
}
