/**
 * Storage keys and public URLs: the four-way precedence over the custom
 * path and the variant path, and the variant paths themselves.
 */
module Keys {
  import opened Wrappers

  /** JavaScript truthiness of an optional text: present and non-empty. */
  predicate Truthy(o: Option<string>)
  {
    o.Some? && o.value != ""
  }

  /** What the custom path contributes to a key: itself and a slash, or nothing. */
  function KeyPrefix(customPath: Option<string>): string
  {
    if Truthy(customPath) then customPath.value + "/" else ""
  }

  /** What the variant contributes to a key: its path, or the bare `hash + ext`. */
  function KeyTail(pathAWS: Option<string>, hash: string, ext: string): string
  {
    if Truthy(pathAWS) then pathAWS.value else hash + ext
  }

  /**
   * The key precedence shared by deleteAWS and uploadAWS: custom path and
   * variant path joined; else the variant path; else the custom path joined
   * with `hash + ext`; else `hash + ext`. The four branches amount to an
   * independent choice of prefix and tail.
   */
  function ResolveKey(customPath: Option<string>, pathAWS: Option<string>, hash: string, ext: string): (key: string)
    ensures key == KeyPrefix(customPath) + KeyTail(pathAWS, hash, ext)
  {
    if Truthy(customPath) && Truthy(pathAWS) then customPath.value + "/" + pathAWS.value
    else if Truthy(pathAWS) then pathAWS.value
    else if Truthy(customPath) then customPath.value + "/" + hash + ext
    else hash + ext
  }

  /**
   * `https://{config.endpoint}/{config.params.Bucket}`: the endpoint behind
   * the `https://` scheme, and the bucket as the last path segment.
   */
  function BucketEndpoint(endpoint: string, bucket: string): (e: string)
    ensures |e| == 9 + |endpoint| + |bucket|
    ensures e[..8] == "https://" && e[8..8 + |endpoint|] == endpoint
    ensures e[8 + |endpoint|] == '/' && e[9 + |endpoint|..] == bucket
  {
    "https://" + endpoint + "/" + bucket
  }

  /**
   * The public URL the upload helpers give the asset: the same precedence
   * written out once more with the endpoint in front of every branch. It is
   * always the endpoint, a slash and the resolved key.
   */
  function ResolveUrl(endpoint: string, customPath: Option<string>, pathAWS: Option<string>, hash: string, ext: string): (url: string)
    ensures url == endpoint + "/" + ResolveKey(customPath, pathAWS, hash, ext)
  {
    if Truthy(customPath) && Truthy(pathAWS) then endpoint + "/" + customPath.value + "/" + pathAWS.value
    else if Truthy(pathAWS) then endpoint + "/" + pathAWS.value
    else if Truthy(customPath) then endpoint + "/" + customPath.value + "/" + hash + ext
    else endpoint + "/" + hash + ext
  }

  /** `{name}/{hash}_{name}{ext}`: the variant path of a named size. */
  function SizePath(name: string, hash: string, ext: string): string
  {
    name + "/" + hash + "_" + name + ext
  }

  /** The original is stored as the variant named `original`. */
  function OriginalPath(hash: string, ext: string): string
  {
    SizePath("original", hash, ext)
  }

  /** A non-image is stored as the variant named `file`. */
  function FilePath(hash: string, ext: string): string
  {
    SizePath("file", hash, ext)
  }

  /** The original's path is spelled `original/{hash}_original{ext}`. */
  lemma OriginalPathSpelled(hash: string, ext: string)
    ensures OriginalPath(hash, ext) == "original/" + hash + "_original" + ext
  {
    assert "original" + "/" == "original/";
    assert "_" + "original" == "_original";
  }

  /** A non-image's path is spelled `file/{hash}_file{ext}`. */
  lemma FilePathSpelled(hash: string, ext: string)
    ensures FilePath(hash, ext) == "file/" + hash + "_file" + ext
  {
    assert "file" + "/" == "file/";
    assert "_" + "file" == "_file";
  }

  /** `{tempDir}/{hash}_{role}{ext}`: where a variant is staged on local disk. */
  function LocalPath(tempDir: string, hash: string, role: string, ext: string): string
  {
    tempDir + "/" + hash + "_" + role + ext
  }

  /** Different size names give different variant paths for the same asset. */
  lemma SizePathInjective(n1: string, n2: string, hash: string, ext: string)
    requires SizePath(n1, hash, ext) == SizePath(n2, hash, ext)
    ensures n1 == n2
  {
    var p := SizePath(n1, hash, ext);
    assert |p| == 2 * |n1| + |hash| + |ext| + 2;
    assert |n1| == |n2|;
    assert p[..|n1|] == n1;
    assert SizePath(n2, hash, ext)[..|n2|] == n2;
  }

  /** Under one custom path, different variant paths give different keys. */
  lemma ResolveKeyInjective(customPath: Option<string>, p1: string, p2: string, hash: string, ext: string)
    requires p1 != "" && p2 != ""
    requires ResolveKey(customPath, Some(p1), hash, ext) == ResolveKey(customPath, Some(p2), hash, ext)
    ensures p1 == p2
  {
    var pre := KeyPrefix(customPath);
    assert (pre + p1)[|pre|..] == p1;
    assert (pre + p2)[|pre|..] == p2;
  }
}
