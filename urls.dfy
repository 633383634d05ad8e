/**
 * Splitting an absolute URL into the parts the video code reads: scheme,
 * network location, path and query, and the host name inside the network
 * location. Python's `urllib.parse.urlparse` is followed; JavaScript's
 * `new URL` is taken to agree with it on the URLs the system builds.
 */
module Urls {
  import opened Wrappers
  import opened Strings

  datatype UrlParts = UrlParts(scheme: string, netloc: string, path: string, query: string)

  predicate IsAsciiLetter(c: char) { ('a' <= c <= 'z') || ('A' <= c <= 'Z') }

  predicate IsSchemeChar(c: char) { IsAsciiLetter(c) || ('0' <= c <= '9') || c in "+-." }

  /** The index of the `:` that ends a well-formed scheme, if the URL starts with one. */
  function SchemeEnd(s: string): (r: Option<nat>)
    ensures r.Some? ==> 0 < r.value < |s| && s[r.value] == ':'
    ensures r.Some? ==> forall j :: 0 <= j < r.value ==> s[j] != ':' && IsSchemeChar(s[j])
  {
    match IndexOf(s, ":", 0)
    case None => None
    case Some(i) =>
      assert forall k: nat :: k < i ==> s[k] != ':' by {
        forall k: nat | k < i ensures s[k] != ':' {
          assert !OccursAt(s, ":", k);
          assert s[k..k + 1] == [s[k]];
        }
      }
      if i > 0 && IsAsciiLetter(s[0]) && forall j :: 0 <= j < i ==> IsSchemeChar(s[j]) then Some(i) else None
  }

  /** The lower-cased scheme and what follows its `:`; no scheme and the whole text when there is none. */
  function SchemeAndRest(s: string): (string, string)
  {
    match SchemeEnd(s)
    case Some(i) => (ToLowerAscii(s[..i]), s[i + 1..])
    case None => ("", s)
  }

  /** After a `//`, the network location up to the first `/`, `?` or `#`, and what follows it. */
  function NetlocAndTail(rest: string): (string, string)
  {
    if StartsWith(rest, "//") then
      var e := 2 + IndexOfAny(rest[2..], {'/', '?', '#'});
      (rest[2..e], rest[e..])
    else ("", rest)
  }

  /** The path up to `?` or `#`, and the query from `?` up to `#`. */
  function PathAndQuery(tail: string): (string, string)
  {
    var p := IndexOfAny(tail, {'?', '#'});
    var query :=
      if p < |tail| && tail[p] == '?' then tail[p + 1..][..IndexOfAny(tail[p + 1..], {'#'})] else "";
    (tail[..p], query)
  }

  /** `urlsplit`: scheme, network location, path and query. */
  function SplitUrl(s: string): (u: UrlParts)
  {
    var (scheme, rest) := SchemeAndRest(s);
    var (netloc, tail) := NetlocAndTail(rest);
    var (path, query) := PathAndQuery(tail);
    UrlParts(scheme, netloc, path, query)
  }

  /** The schemes whose last path segment may carry `;` parameters in `urlparse`. */
  const UsesParams: set<string> := {"", "ftp", "hdl", "prospero", "http", "imap", "https", "shttp",
    "rtsp", "rtsps", "rtspu", "sip", "sips", "mms", "sftp", "tel"}

  /** `urlparse(s).path`: the split path without the parameters of its last segment. */
  function ParsedPath(s: string): (path: string)
  {
    var u := SplitUrl(s);
    if u.scheme in UsesParams then
      var start := match LastIndexOfChar(u.path, '/') case Some(k) => k case None => 0;
      var cut := start + IndexOfAny(u.path[start..], {';'});
      u.path[..cut]
    else u.path
  }

  /** `hostname`: the network location without user information and port, lower-cased. */
  function Hostname(netloc: string): (h: string)
  {
    var host := match LastIndexOfChar(netloc, '@') case Some(k) => netloc[k + 1..] case None => netloc;
    ToLowerAscii(host[..IndexOfAny(host, {':'})])
  }

  /** The host name and the split path of a URL. */
  function HostOf(url: string): string
  {
    Hostname(SplitUrl(url).netloc)
  }

  function PathnameOf(url: string): string
  {
    SplitUrl(url).path
  }

  /** Nothing in `s` ends a URL path. */
  predicate PathSafe(s: string)
  {
    forall i :: 0 <= i < |s| ==> s[i] != '?' && s[i] != '#'
  }

  /** Nothing in `s` ends a network location. */
  predicate HostSafe(s: string)
  {
    PathSafe(s) && forall i :: 0 <= i < |s| ==> s[i] != '/' && s[i] != '@' && s[i] != ':'
  }

  lemma IndexOfAnyPrefix(a: string, b: string, cs: set<char>)
    requires forall i :: 0 <= i < |a| ==> a[i] !in cs
    requires |b| > 0 && b[0] in cs
    ensures IndexOfAny(a + b, cs) == |a|
  {
    assert forall i :: 0 <= i < |a| ==> (a + b)[i] == a[i];
    assert (a + b)[|a|] == b[0];
  }

  lemma IndexOfAnyNone(a: string, cs: set<char>)
    requires forall i :: 0 <= i < |a| ==> a[i] !in cs
    ensures IndexOfAny(a, cs) == |a|
  {
  }

  lemma SchemeHttps(rest: string)
    ensures SchemeAndRest("https:" + rest) == ("https", rest)
  {
    var url := "https:" + rest;
    assert OccursAt(url, ":", 5);
    assert forall k: nat :: k < 5 ==> !OccursAt(url, ":", k) by {
      forall k: nat | k < 5 ensures !OccursAt(url, ":", k) {
        assert url[k..k + 1] == [url[k]];
      }
    }
    assert IndexOf(url, ":", 0) == Some(5);
    assert url[..5] == "https";
    ToLowerAsciiNoUpper("https");
    assert url[6..] == rest;
  }

  lemma NetlocOf(host: string, tail: string)
    requires HostSafe(host)
    requires |tail| > 0 && tail[0] == '/'
    ensures NetlocAndTail("//" + host + tail) == (host, tail)
  {
    var rest := "//" + host + tail;
    assert rest[..2] == "//";
    assert rest[2..] == host + tail;
    IndexOfAnyPrefix(host, tail, {'/', '?', '#'});
    assert rest[2..2 + |host|] == host;
    assert rest[2 + |host|..] == tail;
  }

  lemma PathOf(path: string, rest: string)
    requires PathSafe(path) && (rest == "" || rest[0] == '?')
    ensures PathAndQuery(path + rest).0 == path
  {
    if rest == "" {
      assert path + rest == path;
      IndexOfAnyNone(path, {'?', '#'});
    } else {
      IndexOfAnyPrefix(path, rest, {'?', '#'});
    }
    assert (path + rest)[..|path|] == path;
  }

  /**
   * A URL written as `https://` + host + path, followed by nothing or by a
   * query starting with `?`, splits back into that scheme, host and path.
   */
  lemma SplitBuiltUrl(host: string, path: string, query: string)
    requires |host| > 0 && HostSafe(host)
    requires |path| > 0 && path[0] == '/' && PathSafe(path)
    requires query == "" || query[0] == '?'
    ensures SplitUrl("https://" + host + path + query).scheme == "https"
    ensures SplitUrl("https://" + host + path + query).netloc == host
    ensures SplitUrl("https://" + host + path + query).path == path
  {
    var tail := path + query;
    assert "https://" + host + path + query == "https:" + ("//" + host + tail);
    SchemeHttps("//" + host + tail);
    NetlocOf(host, tail);
    PathOf(path, query);
  }

  /** A lower-case host without user information or port is its own host name. */
  lemma PlainHostname(host: string)
    requires HostSafe(host)
    requires forall i :: 0 <= i < |host| ==> !('A' <= host[i] <= 'Z')
    ensures Hostname(host) == host
  {
    IndexOfAnyNone(host, {':'});
    assert host[..|host|] == host;
    ToLowerAsciiNoUpper(host);
  }

  /** With no `;` in the path, `urlparse` keeps the whole split path. */
  lemma NoParams(s: string)
    requires forall i :: 0 <= i < |SplitUrl(s).path| ==> SplitUrl(s).path[i] != ';'
    ensures ParsedPath(s) == SplitUrl(s).path
  {
    var path := SplitUrl(s).path;
    var start := match LastIndexOfChar(path, '/') case Some(k) => k case None => 0;
    IndexOfAnyNone(path[start..], {';'});
  }

  // ---------------------------------------------------------------------------
  // Firebase Storage download URLs
  // ---------------------------------------------------------------------------

  const StorageHost: string := "storage.googleapis.com"
  /** `firebasestorage.googleapis.com`. */
  const FirebaseHost: string := "firebase" + StorageHost

  /** The path of an object's download URL; `encoded` is the object path in encoded form. */
  function FirebasePath(bucket: string, encoded: string): string
  {
    "/v0/b/" + bucket + "/o/" + encoded
  }

  /** A bucket name that the download URL's path can carry unambiguously. */
  predicate ValidBucket(bucketName: string)
  {
    |bucketName| >= 2 && '/' !in bucketName && PathSafe(bucketName)
  }

  /** An object's download URL with its access token. */
  function FirebaseUrl(bucket: string, encoded: string, token: string): string
  {
    "https://" + FirebaseHost + FirebasePath(bucket, encoded) + "?alt=media&token=" + token
  }


  lemma PathSafeAppend(a: string, b: string)
    requires PathSafe(a) && PathSafe(b)
    ensures PathSafe(a + b)
  {
    forall i | 0 <= i < |a + b| ensures (a + b)[i] != '?' && (a + b)[i] != '#' {
      if i < |a| {
        assert (a + b)[i] == a[i];
      } else {
        assert (a + b)[i] == b[i - |a|];
      }
    }
  }

  lemma HostSafeAppend(a: string, b: string)
    requires HostSafe(a) && HostSafe(b)
    requires forall i :: 0 <= i < |a| ==> !('A' <= a[i] <= 'Z')
    requires forall i :: 0 <= i < |b| ==> !('A' <= b[i] <= 'Z')
    ensures HostSafe(a + b)
    ensures forall i :: 0 <= i < |a + b| ==> !('A' <= (a + b)[i] <= 'Z')
  {
    assert forall i :: |a| <= i < |a + b| ==> (a + b)[i] == b[i - |a|];
  }

  lemma StorageHostPlain()
    ensures HostSafe(StorageHost) && Hostname(StorageHost) == StorageHost
  {
    PlainHostname(StorageHost);
  }

  lemma FirebaseHostPlain()
    ensures HostSafe(FirebaseHost) && Hostname(FirebaseHost) == FirebaseHost
  {
    HostSafeAppend("firebase", StorageHost);
    PlainHostname(FirebaseHost);
  }

  /** The parts of a download URL: its host, and its path when bucket and encoded path end no path. */
  lemma SplitFirebaseUrl(bucket: string, encoded: string, token: string)
    requires PathSafe(bucket) && PathSafe(encoded)
    ensures SplitUrl(FirebaseUrl(bucket, encoded, token)).scheme == "https"
    ensures SplitUrl(FirebaseUrl(bucket, encoded, token)).netloc == FirebaseHost
    ensures Hostname(SplitUrl(FirebaseUrl(bucket, encoded, token)).netloc) == FirebaseHost
    ensures SplitUrl(FirebaseUrl(bucket, encoded, token)).path == FirebasePath(bucket, encoded)
  {
    var path := FirebasePath(bucket, encoded);
    assert PathSafe(path) by {
      assert forall i :: 6 <= i < 6 + |bucket| ==> path[i] == bucket[i - 6];
      assert forall i :: 9 + |bucket| <= i < |path| ==> path[i] == encoded[i - 9 - |bucket|];
    }
    FirebaseHostPlain();
    var query := "?alt=media&token=" + token;
    assert FirebaseUrl(bucket, encoded, token) == "https://" + FirebaseHost + path + query;
    SplitBuiltUrl(FirebaseHost, path, query);
  }

  /**
   * In a download URL's path, for a bucket name of two or more characters
   * without `/` and an encoded path without `/`, the only `/o/` is the one
   * in front of the object path.
   */
  lemma OnlyObjectMarker(bucket: string, encoded: string, k: nat)
    requires |bucket| >= 2 && '/' !in bucket && '/' !in encoded
    ensures OccursAt(FirebasePath(bucket, encoded), "/o/", k) <==> k == 6 + |bucket|
  {
    var p := FirebasePath(bucket, encoded);
    var m := 6 + |bucket|;
    assert p[m..m + 3] == "/o/";
    if OccursAt(p, "/o/", k) {
      assert p[k] == '/' && p[k + 1] == 'o' && p[k + 2] == '/' by {
        assert p[k..k + 3][0] == p[k] && p[k..k + 3][1] == p[k + 1] && p[k..k + 3][2] == p[k + 2];
      }
      assert p[..6] == "/v0/b/";
      assert forall i :: 6 <= i < m ==> p[i] == bucket[i - 6];
      assert forall i :: m + 3 <= i < |p| ==> p[i] == encoded[i - m - 3];
      assert p[7] == bucket[1];
      assert bucket[1] in bucket;
      assert forall i :: m + 3 <= i < |p| ==> p[i] != '/' by {
        forall i | m + 3 <= i < |p| ensures p[i] != '/' {
          assert p[i] in encoded;
        }
      }
      assert forall i :: 6 <= i < m ==> p[i] != '/' by {
        forall i | 6 <= i < m ensures p[i] != '/' {
          assert p[i] in bucket;
        }
      }
    }
  }
}
