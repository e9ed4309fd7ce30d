/**
 * The asset-URL absolutising rule. The same rule is written out three times in
 * the application (in the question service, in the image preloader and in the
 * question image component); this module holds the service's copy, and the
 * other two modules prove that their copies agree with it.
 */
module UrlRule {
  import opened Text

  /** Base address of the question service (`API_BASE_URL`). */
  const ApiBaseUrl: string := "http://localhost:3000"

  predicate IsAbsolute(url: string) {
    StartsWith(url, "http://") || StartsWith(url, "https://")
  }

  /**
   * `normalizeUrl`: absolute URLs are kept, everything else is resolved against
   * the service. The `images/` branch of the source gives the same result as
   * the generic non-`/` branch.
   */
  function AbsoluteUrl(url: string): (r: string)
    ensures IsAbsolute(url) ==> r == url
    ensures !IsAbsolute(url) && StartsWith(url, "/") ==> r == ApiBaseUrl + url
    ensures !IsAbsolute(url) && !StartsWith(url, "/") ==> r == ApiBaseUrl + "/" + url
    ensures IsAbsolute(r)
    ensures |url| <= |r| && r[|r| - |url|..] == url
  {
    if IsAbsolute(url) then
      assert url[0..] == url;
      url
    else if StartsWith(url, "images/") then
      assert url[0] == url[..7][0] == 'i';
      Resolved(ApiBaseUrl + "/", url)
    else if StartsWith(url, "/") then
      Resolved(ApiBaseUrl, url)
    else
      Resolved(ApiBaseUrl + "/", url)
  }

  /** `base + url` for a base that starts with `http://`. */
  function Resolved(base: string, url: string): (r: string)
    requires StartsWith(base, "http://")
    ensures r == base + url && IsAbsolute(r)
    ensures |url| <= |r| && r[|r| - |url|..] == url
  {
    assert (base + url)[..7] == base[..7];
    assert (base + url)[|base|..] == url;
    base + url
  }

  /** Absolutising twice is absolutising once. */
  lemma AbsoluteUrlIdempotent(url: string)
    ensures AbsoluteUrl(AbsoluteUrl(url)) == AbsoluteUrl(url)
  {
  }

  /** The rule never introduces a `)`, so a rewritten markdown link stays one link. */
  lemma AbsoluteUrlNoCloseParen(url: string)
    requires forall i :: 0 <= i < |url| ==> url[i] != ')'
    ensures forall i :: 0 <= i < |AbsoluteUrl(url)| ==> AbsoluteUrl(url)[i] != ')'
  {
    var r := AbsoluteUrl(url);
    if !IsAbsolute(url) {
      var base := if StartsWith(url, "/") then ApiBaseUrl else ApiBaseUrl + "/";
      assert r == base + url;
      forall i | 0 <= i < |r| ensures r[i] != ')' {
        if i >= |base| { assert r[i] == url[i - |base|]; }
      }
    }
  }
}
