/**
 * Client image helpers: the placeholder and the rotating fallback pictures, the safe-URL
 * choice, and the rewrite that inserts a Cloudinary transformation after "/upload/".
 * Whether a URL parses and looks like an image (the `URL` constructor and two regular
 * expressions) is the parameter `looksLikeImage`.
 */
module ImageUtils {
  import opened Wrappers
  import opened Text

  const DefaultNewsImage: string :=
    "https://via.placeholder.com/600x300/1a1428/8b5cf6?text=News+Article"

  const FallbackImages: seq<string> := [
    "https://images.unsplash.com/photo-1495020689067-958852a7765e?ixlib=rb-4.0.3&auto=format&fit=crop&w=600&h=300&q=80",
    "https://images.unsplash.com/photo-1504711434969-e33886168f5c?ixlib=rb-4.0.3&auto=format&fit=crop&w=600&h=300&q=80",
    "https://images.unsplash.com/photo-1586339949916-3e9457bef6d3?ixlib=rb-4.0.3&auto=format&fit=crop&w=600&h=300&q=80"
  ]

  const UploadMarker: string := "/upload/"

  /** `isValidImageUrl`: a missing or empty URL is never valid; otherwise the opaque check decides. */
  predicate IsValidImageUrl(url: Option<string>, looksLikeImage: string -> bool) {
    Truthy(url) && looksLikeImage(url.value)
  }

  /** A missing or empty URL is never valid, whatever the check would say. */
  lemma NoUrlIsInvalid(looksLikeImage: string -> bool)
    ensures !IsValidImageUrl(None, looksLikeImage) && !IsValidImageUrl(Some(""), looksLikeImage)
    ensures forall url :: IsValidImageUrl(Some(url), looksLikeImage) ==> url != "" && looksLikeImage(url)
  {
  }

  /** JavaScript's `a % b` for a positive divisor: the remainder takes the sign of `a`. */
  function JsRem(a: int, b: int): (r: int)
    requires b > 0
    ensures a >= 0 ==> r == a % b
    ensures a < 0 ==> -b < r <= 0
  {
    if a >= 0 then a % b else -((-a) % b)
  }

  /**
   * `getSafeImageUrl`: a valid URL is kept; otherwise the fallback at
   * `fallbackIndex % 3`, or the placeholder when that index names no entry.
   */
  function GetSafeImageUrl(url: Option<string>, fallbackIndex: int, looksLikeImage: string -> bool): (r: string)
    ensures IsValidImageUrl(url, looksLikeImage) ==> r == url.value
    ensures !IsValidImageUrl(url, looksLikeImage) && fallbackIndex >= 0 ==>
      r == FallbackImages[fallbackIndex % 3]
    ensures !IsValidImageUrl(url, looksLikeImage) && JsRem(fallbackIndex, 3) < 0 ==> r == DefaultNewsImage
    ensures r != ""
  {
    if IsValidImageUrl(url, looksLikeImage) then url.value
    else
      var i := JsRem(fallbackIndex, |FallbackImages|);
      if 0 <= i < |FallbackImages| && FallbackImages[i] != "" then FallbackImages[i] else DefaultNewsImage
  }

  /** The fallback rotates with period three over non-negative indexes. */
  lemma FallbackRotates(url: Option<string>, i: nat, looksLikeImage: string -> bool)
    requires !IsValidImageUrl(url, looksLikeImage)
    ensures GetSafeImageUrl(url, i + 3, looksLikeImage) == GetSafeImageUrl(url, i, looksLikeImage)
  {
    assert (i + 3) % 3 == i % 3;
  }

  /** A negative index that is a multiple of three still picks the first fallback (`-0`). */
  lemma NegativeMultipleUsesFirst(url: Option<string>, k: nat, looksLikeImage: string -> bool)
    requires !IsValidImageUrl(url, looksLikeImage) && k > 0
    ensures GetSafeImageUrl(url, -3 * k, looksLikeImage) == FallbackImages[0]
    ensures GetSafeImageUrl(url, -3 * k + 1, looksLikeImage) == DefaultNewsImage
  {
    assert (3 * k) % 3 == 0;
    assert (3 * k - 1) % 3 == 2;
  }

  /** The options of `getOptimizedImageUrl`; absent ones take their defaults. */
  datatype TransformOptions = TransformOptions(
    width: Option<nat>,
    height: Option<nat>,
    quality: Option<string>,
    format: Option<string>)

  /** The transformation segment: `c_fill,w_W,h_H,q_Q,f_F/` with 600, 300, "auto", "auto" by default. */
  function Transformation(opts: TransformOptions): string {
    "c_fill,w_" + NatToString(opts.width.GetOr(600))
    + ",h_" + NatToString(opts.height.GetOr(300))
    + ",q_" + opts.quality.GetOr("auto")
    + ",f_" + opts.format.GetOr("auto") + "/"
  }

  /** The default width and height written out. */
  lemma DefaultSizesText()
    ensures NatToString(600) == "600" && NatToString(300) == "300"
  {
    assert NatToString(6) == "6" && NatToString(3) == "3";
    assert NatToString(60) == "60" && NatToString(30) == "30";
  }

  /** The defaults give `c_fill,w_600,h_300,q_auto,f_auto/`. */
  lemma DefaultTransformation()
    ensures Transformation(TransformOptions(None, None, None, None)) == "c_fill,w_600,h_300,q_auto,f_auto/"
  {
    DefaultSizesText();
    var t := Transformation(TransformOptions(None, None, None, None));
    assert t == "c_fill,w_" + "600" + ",h_" + "300" + ",q_" + "auto" + ",f_" + "auto" + "/";
  }

  /** The URL is rewritten: it names Cloudinary and "/upload/" splits it in exactly two. */
  predicate Rewrites(url: string) {
    Contains(url, "cloudinary.com") && |Split(url, UploadMarker)| == 2
  }

  /**
   * `getOptimizedImageUrl`: the placeholder for a missing or empty URL; a Cloudinary URL
   * with a single "/upload/" gets the transformation inserted right after it; any other
   * URL is kept if valid and replaced by the placeholder otherwise.
   */
  function GetOptimizedImageUrl(url: Option<string>, opts: TransformOptions,
                                looksLikeImage: string -> bool): (r: string)
    ensures !Truthy(url) ==> r == DefaultNewsImage
    ensures Truthy(url) && Rewrites(url.value) ==>
      var parts := Split(url.value, UploadMarker);
      && url.value == parts[0] + UploadMarker + parts[1]
      && !Contains(parts[0], UploadMarker) && !Contains(parts[1], UploadMarker)
      && r == parts[0] + UploadMarker + Transformation(opts) + parts[1]
    ensures Truthy(url) && !Rewrites(url.value) ==>
      r == if IsValidImageUrl(url, looksLikeImage) then url.value else DefaultNewsImage
    ensures r != ""
  {
    if !Truthy(url) then DefaultNewsImage
    else if Contains(url.value, "cloudinary.com") && |Split(url.value, UploadMarker)| == 2 then
      var parts := Split(url.value, UploadMarker);
      JoinSplit(url.value, UploadMarker);
      SplitPiecesAreFree(url.value, UploadMarker);
      assert Join(parts, UploadMarker) == parts[0] + UploadMarker + Join(parts[1..], UploadMarker);
      assert parts[1..] == [parts[1]];
      parts[0] + UploadMarker + Transformation(opts) + parts[1]
    else if IsValidImageUrl(url, looksLikeImage) then url.value
    else DefaultNewsImage
  }

  /** Rewriting keeps the URL around the marker: removing the inserted segment gives it back. */
  lemma RewriteOnlyInserts(url: string, opts: TransformOptions, looksLikeImage: string -> bool)
    requires url != "" && Rewrites(url)
    ensures var r := GetOptimizedImageUrl(Some(url), opts, looksLikeImage);
      var before := Split(url, UploadMarker)[0];
      var k := |before| + |UploadMarker|;
      && |r| == |url| + |Transformation(opts)|
      && r[..k] == url[..k]
      && r[k..k + |Transformation(opts)|] == Transformation(opts)
      && r[k + |Transformation(opts)|..] == url[k..]
  {
    var parts := Split(url, UploadMarker);
    var t := Transformation(opts);
    var r := GetOptimizedImageUrl(Some(url), opts, looksLikeImage);
    var k := |parts[0]| + |UploadMarker|;
    assert r == (parts[0] + UploadMarker) + t + parts[1];
    assert url == (parts[0] + UploadMarker) + parts[1];
  }
}
