/**
 * The server's image-hosting helpers: whether Cloudinary is configured, the upload
 * filter and size limit, the skipped deletion when it is not configured, and the public
 * id read off an image URL. The hosting service itself is the parameter `destroy`.
 */
module Cloudinary {
  import opened Wrappers
  import opened Text

  /** The three environment variables the configuration needs. */
  datatype Env = Env(cloudName: Option<string>, apiKey: Option<string>, apiSecret: Option<string>)

  /** `getCurrentCloudinaryConfig` (and the same test run once at start-up). */
  predicate HasConfig(env: Env) {
    Truthy(env.cloudName) && Truthy(env.apiKey) && Truthy(env.apiSecret)
  }

  /** The upload size limit: 5 MiB. */
  const MaxFileSize: nat := 5 * 1024 * 1024

  datatype FilterVerdict = Accept | Reject(message: string)

  /** The multer `fileFilter`: images only. */
  function FileFilter(mimetype: string): (v: FilterVerdict)
    ensures v.Accept? <==> StartsWith(mimetype, "image/")
    ensures v.Reject? ==> v.message == "Only image files are allowed!"
  {
    if StartsWith(mimetype, "image/") then Accept else Reject("Only image files are allowed!")
  }

  /** An upload goes through when the filter accepts it and it is within the size limit. */
  predicate UploadAccepted(mimetype: string, size: nat) {
    FileFilter(mimetype).Accept? && size <= MaxFileSize
  }

  /**
   * An upload goes through exactly for a MIME type beginning "image/" and at most
   * 5 MiB; the limit is inclusive.
   */
  lemma UploadLimits(mimetype: string, size: nat)
    ensures UploadAccepted(mimetype, size)
      <==> |mimetype| >= 6 && mimetype[..6] == "image/" && size <= 5242880
    ensures UploadAccepted("image/png", MaxFileSize) && !UploadAccepted("image/png", MaxFileSize + 1)
  {
    assert StartsWith("image/png", "image/") by {
      assert "image/png"[..6] == "image/";
    }
  }

  /** What a deletion returns, and whether the hosting service was asked. */
  datatype DeleteResult = DeleteResult(result: string, serviceCalled: bool)

  /**
   * `deleteFromCloudinary`: when the configuration was missing at start-up, the service
   * is not called and the answer is `{ result: "ok" }`; otherwise the service decides.
   */
  function DeleteFromCloudinary(configuredAtStart: bool, publicId: string,
                                destroy: string -> string): (r: DeleteResult)
    ensures !configuredAtStart ==> r == DeleteResult("ok", false)
    ensures configuredAtStart ==> r.serviceCalled && r.result == destroy(publicId)
  {
    if !configuredAtStart then DeleteResult("ok", false)
    else DeleteResult(destroy(publicId), true)
  }

  /**
   * Deletion reaches the hosting service exactly when all three variables were set and
   * non-empty at start-up; with any one missing it answers "ok" on its own.
   */
  lemma DeletionNeedsFullConfig(env: Env, publicId: string, destroy: string -> string)
    ensures DeleteFromCloudinary(HasConfig(env), publicId, destroy).serviceCalled
      <==> Truthy(env.cloudName) && Truthy(env.apiKey) && Truthy(env.apiSecret)
    ensures !Truthy(env.cloudName) || !Truthy(env.apiKey) || !Truthy(env.apiSecret) ==>
      DeleteFromCloudinary(HasConfig(env), publicId, destroy) == DeleteResult("ok", false)
  {
    if HasConfig(env) {
      assert DeleteFromCloudinary(true, publicId, destroy).serviceCalled;
    }
  }

  /**
   * `extractPublicId`: `None` for a missing or empty URL; otherwise the last
   * "/"-separated segment, cut before its first ".".
   */
  function ExtractPublicId(url: Option<string>): (id: Option<string>)
    ensures id.None? <==> !Truthy(url)
    ensures id.Some? ==> id.value == TakeUntil(LastSegment(url.value, '/'), '.')
    ensures id.Some? ==> '/' !in id.value && '.' !in id.value
    ensures id.Some? && '.' !in LastSegment(url.value, '/') ==> id.value == LastSegment(url.value, '/')
  {
    if !Truthy(url) then None
    else
      var parts := Split(url.value, "/");
      var filename := parts[|parts| - 1];
      LastPieceIsLastSegment(url.value, '/');
      FirstPieceIsTakeUntil(filename, '.');
      SinglePieceWithoutChar(filename, '.');
      Some(Split(filename, ".")[0])
  }

  /** The id of an upload URL is the file name without its extension. */
  lemma PublicIdOfUploadUrl(folder: string, name: string, ext: string)
    requires '/' !in name && '.' !in name && '/' !in ext
    ensures ExtractPublicId(Some(folder + "/" + name + "." + ext)) == Some(name)
  {
    var url := folder + "/" + name + "." + ext;
    var file := name + "." + ext;
    assert url == (folder + "/") + file;
    LastSegmentOfSuffix(folder + "/", file, '/');
    assert TakeUntil(file, '.') == name by {
      TakeUntilAt(name, '.', ext);
    }
  }

  /** After a separator, the last segment is found within the rest. */
  lemma {:induction false} LastSegmentOfSuffix(prefix: string, rest: string, c: char)
    requires |prefix| > 0 && prefix[|prefix| - 1] == c && c !in rest
    ensures LastSegment(prefix + rest, c) == rest
    decreases |prefix|
  {
    var s := prefix + rest;
    assert c in s by {
      assert s[|prefix| - 1] == c;
    }
    if |prefix| > 1 {
      assert s[1..] == prefix[1..] + rest;
      LastSegmentOfSuffix(prefix[1..], rest, c);
    } else {
      assert s[1..] == rest;
      assert LastSegment(rest, c) == rest;
    }
  }

  lemma {:induction false} TakeUntilAt(before: string, c: char, after: string)
    requires c !in before
    ensures TakeUntil(before + [c] + after, c) == before
    decreases |before|
  {
    var s := before + [c] + after;
    if |before| > 0 {
      assert s[1..] == before[1..] + [c] + after;
      assert c !in before[1..];
      TakeUntilAt(before[1..], c, after);
      assert before == [before[0]] + before[1..];
    }
  }
}
