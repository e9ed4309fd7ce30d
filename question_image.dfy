/**
 * The image component's own copy of the absolutising rule for an image
 * source.
 */
module QuestionImage {
  import opened Text
  import opened UrlRule

  /**
   * The `imageUrl` memo: an absolute source unchanged, `images/…` and other
   * relative paths under the API base with a `/`, a root-relative path
   * directly after the API base. It agrees with the service's rule on every
   * source.
   */
  function ImageUrl(src: string): (r: string)
    ensures r == AbsoluteUrl(src)
  {
    if StartsWith(src, "http://") || StartsWith(src, "https://") then src
    else if StartsWith(src, "images/") then "http://localhost:3000/" + src
    else if StartsWith(src, "/") then "http://localhost:3000" + src
    else "http://localhost:3000/" + src
  }

  /**
   * The three cases of the rule: an absolute source is kept, a root-relative
   * one gets the API base in front, anything else the API base and a `/`;
   * the result is always absolute, so applying the rule again changes nothing.
   */
  lemma ImageUrlCases(src: string)
    ensures IsAbsolute(src) ==> ImageUrl(src) == src
    ensures !IsAbsolute(src) && StartsWith(src, "/") ==> ImageUrl(src) == ApiBaseUrl + src
    ensures !IsAbsolute(src) && !StartsWith(src, "/") ==> ImageUrl(src) == ApiBaseUrl + "/" + src
    ensures IsAbsolute(ImageUrl(src)) && ImageUrl(ImageUrl(src)) == ImageUrl(src)
  {
    AbsoluteUrlIdempotent(src);
  }
}
