/**
 * Public URLs of objects in the webhook's Cloud Storage bucket, and the
 * reverse mapping from such a URL to the object path.
 */
module Storage {
  import opened Wrappers
  import opened Strings
  import Urls

  /** The bucket the webhook writes to. */
  const BucketName: string := "kirokuma-c2d24.firebasestorage.app"

  /** Every public URL of the bucket starts with this. */
  const PublicPrefix: string := "https://" + Urls.StorageHost + "/" + BucketName + "/"

  /** The URL `uploadImage` returns for an object stored at `path`. */
  function PublicUrl(path: string): (url: string)
    ensures StartsWith(url, PublicPrefix) && url[|PublicPrefix|..] == path
  {
    PublicPrefix + path
  }

  /** The bucket's name holds nothing that ends a host or a path segment. */
  lemma BucketNamePlain()
    ensures Urls.HostSafe(BucketName) && '/' !in BucketName && ';' !in BucketName
  {
  }

  lemma PublicUrlShape(path: string)
    ensures PublicUrl(path) == "https://" + Urls.StorageHost + "/" + BucketName + "/" + path
  {
  }

  /**
   * The path `downloadImageAsBase64` reads: the URL without the bucket's
   * prefix, or the "Invalid storage URL" error when the prefix is missing.
   */
  function StoragePathOf(imageUrl: string): (r: Result<string, string>)
    ensures r.Ok? <==> StartsWith(imageUrl, PublicPrefix)
    ensures r.Ok? ==> PublicPrefix + r.value == imageUrl
    ensures r.Err? ==> r.error == "Invalid storage URL: " + imageUrl
  {
    if !StartsWith(imageUrl, PublicPrefix) then Err("Invalid storage URL: " + imageUrl)
    else
      assert imageUrl == imageUrl[..|PublicPrefix|] + imageUrl[|PublicPrefix|..];
      Ok(imageUrl[|PublicPrefix|..])
  }

  /** Reading back an uploaded object's URL gives its path. */
  lemma PathRoundTrip(path: string)
    ensures StoragePathOf(PublicUrl(path)) == Ok(path)
  {
    assert (PublicPrefix + path)[..|PublicPrefix|] == PublicPrefix;
  }

  /** Every URL that is accepted is the public URL of the path it yields. */
  lemma UrlRoundTrip(url: string)
    requires StoragePathOf(url).Ok?
    ensures PublicUrl(StoragePathOf(url).value) == url
  {
  }

  /**
   * `downloadImageAsBase64`: the prefix check, then the object's contents
   * (`read`, a Storage call that may fail) as base64.
   */
  function DownloadImageAsBase64(imageUrl: string, read: string -> Result<string, string>): (r: Result<string, string>)
    ensures StoragePathOf(imageUrl).Err? ==> r == Err("Invalid storage URL: " + imageUrl)
    ensures StoragePathOf(imageUrl).Ok? ==> r == read(StoragePathOf(imageUrl).value)
  {
    match StoragePathOf(imageUrl)
    case Err(e) => Err(e)
    case Ok(path) => read(path)
  }

  /** Downloading what was uploaded at `path` reads exactly that path. */
  lemma DownloadUploaded(path: string, read: string -> Result<string, string>)
    ensures DownloadImageAsBase64(PublicUrl(path), read) == read(path)
  {
    PathRoundTrip(path);
  }
}
