/**
 * Detection of duplicated images: the URLs of the images a markdown body shows,
 * a comparison key for URLs, a fuzzy "same image" test, filtering a gallery
 * against a markdown body, and first-occurrence de-duplication.
 */
module ImageDuplication {
  import opened Text
  import opened Seqs
  import opened MarkdownScan

  /** What `extractImageUrlsFromMarkdown` returns: nothing for `''`, else every lazy-alt URL capture. */
  function MarkdownImageUrls(markdown: string): seq<string> {
    if markdown == "" then [] else ImageUrls(LazyAlt, markdown)
  }

  /** `extractImageUrlsFromMarkdown`: the `exec` loop that pushes each URL capture. */
  method ExtractImageUrlsFromMarkdown(markdown: string) returns (urls: seq<string>)
    ensures urls == MarkdownImageUrls(markdown)
    ensures markdown == "" ==> urls == []
    ensures forall k :: 0 <= k < |urls| ==> |urls[k]| > 0 && ')' !in urls[k]
  {
    if markdown == "" {
      return [];
    }
    urls := [];
    var lastIndex := 0;
    var found := FindFrom(LazyAlt, markdown, lastIndex);
    while found.Some?
      invariant lastIndex <= |markdown|
      invariant found == FindFrom(LazyAlt, markdown, lastIndex)
      invariant urls + Urls(markdown, AllMatches(LazyAlt, markdown, lastIndex)) == ImageUrls(LazyAlt, markdown)
      decreases |markdown| - lastIndex
    {
      var m := found.value;
      var rest := AllMatches(LazyAlt, markdown, End(m));
      assert AllMatches(LazyAlt, markdown, lastIndex) == [m] + rest;
      var tail := Urls(markdown, rest);
      assert Urls(markdown, [m] + rest) == [Url(markdown, m)] + tail;
      AppendOneThenRest(urls, Url(markdown, m), tail);
      urls := urls + [Url(markdown, m)];
      lastIndex := End(m);
      found := FindFrom(LazyAlt, markdown, lastIndex);
    }
    ImageUrlsShape(LazyAlt, markdown);
  }

  /** 7 for `http://`, 8 for `https://`, 0 otherwise: the `^https?:\/\/` part. */
  function SchemeLength(url: string): nat {
    if StartsWith(url, "http://") then 7 else if StartsWith(url, "https://") then 8 else 0
  }

  /**
   * The length of the `^https?:\/\/[^\/]+\/` match at the start of `url`, or 0:
   * a scheme, a non-empty host without `/`, and the `/` after it.
   */
  function HostPrefixLength(url: string): (n: nat)
    ensures n <= |url|
    ensures n > 0 ==> SchemeLength(url) > 0 && SchemeLength(url) < n - 1 && url[n - 1] == '/'
    ensures n > 0 ==> forall j :: SchemeLength(url) <= j < n - 1 ==> url[j] != '/'
    ensures n == 0 && SchemeLength(url) > 0 ==>
              forall j :: SchemeLength(url) < j < |url| ==> url[SchemeLength(url)] == '/' || url[j] != '/'
  {
    var scheme := SchemeLength(url);
    if scheme == 0 then 0
    else
      var j := IndexOfFrom(url, '/', scheme);
      if scheme < j < |url| then j + 1 else 0
  }

  /** The number of `/` at the start of `s`: the `^\/+` part. */
  function LeadingSlashes(s: string): (n: nat)
    ensures n <= |s|
    ensures forall j :: 0 <= j < n ==> s[j] == '/'
    ensures n < |s| ==> s[n] != '/'
  {
    if s != [] && s[0] == '/' then 1 + LeadingSlashes(s[1..]) else 0
  }

  /**
   * `normalizeUrlForComparison`: drop one scheme-and-host prefix, then every
   * leading `/`, then lower-case.
   */
  function NormalizeUrlForComparison(url: string): string {
    var h := HostPrefixLength(url);
    var rest := url[h..];
    ToLowerAscii(rest[LeadingSlashes(rest)..])
  }

  /**
   * The key is a lower-cased suffix of the URL, only slashes were dropped after
   * the host, it never starts with `/` and holds no upper-case letter.
   */
  lemma NormalizeUrlForComparisonShape(url: string)
    ensures var r := NormalizeUrlForComparison(url);
            && |r| <= |url| && r == ToLowerAscii(url[|url| - |r|..])
            && (forall j :: HostPrefixLength(url) <= j < |url| - |r| ==> url[j] == '/')
            && (|r| > 0 ==> r[0] != '/')
            && (forall j :: 0 <= j < |r| ==> !IsUpperAscii(r[j]))
  {
    var h := HostPrefixLength(url);
    var rest := url[h..];
    var n := LeadingSlashes(rest);
    assert rest[n..] == url[h + n..];
    forall j | h <= j < h + n ensures url[j] == '/' {
      assert url[j] == rest[j - h];
    }
  }

  /** `isSameImage`: the two keys are equal, or one contains the other. */
  predicate IsSameImage(url1: string, url2: string) {
    var n1 := NormalizeUrlForComparison(url1);
    var n2 := NormalizeUrlForComparison(url2);
    n1 == n2 || Contains(n1, n2) || Contains(n2, n1)
  }

  /**
   * Equality adds nothing to the substring test: two URLs are the same image
   * exactly when one key occurs inside the other. The test is symmetric.
   */
  lemma SubstringRule(a: string, b: string)
    ensures var n1, n2 := NormalizeUrlForComparison(a), NormalizeUrlForComparison(b);
            IsSameImage(a, b) <==>
              (exists i: nat :: OccursAt(n1, n2, i)) || (exists i: nat :: OccursAt(n2, n1, i))
    ensures IsSameImage(a, b) == IsSameImage(b, a)
  {
    var n1, n2 := NormalizeUrlForComparison(a), NormalizeUrlForComparison(b);
    ContainsEmptyAndSelf(n1);
    ContainsAt(n1, n2);
    ContainsAt(n2, n1);
  }

  /** A URL whose key is empty (a bare host, or only slashes) is the same image as every URL. */
  lemma EmptyKeyMatchesEverything(a: string, b: string)
    requires NormalizeUrlForComparison(a) == ""
    ensures IsSameImage(a, b) && IsSameImage(b, a)
  {
    ContainsEmptyAndSelf(NormalizeUrlForComparison(b));
  }

  /**
   * The host does not matter: `http(s)://host/path` has the key of `path`, so a
   * relative path and its absolute form on any host are the same image.
   */
  lemma HostDoesNotMatter(scheme: string, host: string, path: string)
    requires scheme == "http://" || scheme == "https://"
    requires |host| > 0 && '/' !in host
    requires SchemeLength(path) == 0
    ensures NormalizeUrlForComparison(scheme + host + "/" + path) == NormalizeUrlForComparison(path)
    ensures IsSameImage(path, scheme + host + "/" + path)
  {
    var url := scheme + host + "/" + path;
    var n := |scheme|;
    assert url[..n] == scheme;
    assert SchemeLength(url) == n by {
      if scheme == "https://" {
        assert url[4] == 's';
      }
    }
    forall j | n <= j < n + |host| ensures url[j] != '/' {
      assert url[j] == host[j - n];
    }
    assert url[n + |host|] == '/';
    assert IndexOfFrom(url, '/', n) == n + |host|;
    assert HostPrefixLength(url) == n + |host| + 1;
    assert url[n + |host| + 1..] == path;
    assert path[0..] == path;
  }

  /**
   * Keys of the same length are the same image only when they are equal, so
   * `images/foo.png` and `images/bar.png` are different images.
   */
  lemma SameLengthKeys(a: string, b: string)
    requires |NormalizeUrlForComparison(a)| == |NormalizeUrlForComparison(b)|
    ensures IsSameImage(a, b) <==> NormalizeUrlForComparison(a) == NormalizeUrlForComparison(b)
  {
    var n1, n2 := NormalizeUrlForComparison(a), NormalizeUrlForComparison(b);
    if Contains(n1, n2) { ContainsSameLength(n1, n2); }
    if Contains(n2, n1) { ContainsSameLength(n2, n1); }
  }

  /** `list.some(x => isSameImage(url, x))` */
  predicate AnySame(url: string, list: seq<string>) {
    SameAsSome(url, list, IsSameImage)
  }

  /**
   * The candidates that are the same image as none of `shown`, in their order:
   * each URL is dropped, with all its copies, when it is the same image as one
   * shown, and kept with all its copies otherwise.
   */
  function WithoutImagesOf(urls: seq<string>, shown: seq<string>): (r: seq<string>)
    ensures IsSubsequence(r, urls)
    ensures forall u :: multiset(r)[u] == if AnySame(u, shown) then 0 else multiset(urls)[u]
  {
    Filter(urls, u => !AnySame(u, shown))
  }

  /** With nothing shown, every candidate is kept. */
  lemma WithoutNothing(urls: seq<string>)
    ensures WithoutImagesOf(urls, []) == urls
  {
    var r := WithoutImagesOf(urls, []);
    assert multiset(r) == multiset(urls);
    SubsequenceSameMultiset(r, urls);
  }

  /**
   * `filterDuplicateImages`: the early returns (empty markdown, no candidates,
   * no image in the markdown) give the same list the filter would.
   */
  function FilterDuplicateImages(imageUrls: seq<string>, contextMarkdown: string): (r: seq<string>)
    ensures r == WithoutImagesOf(imageUrls, MarkdownImageUrls(contextMarkdown))
  {
    if contextMarkdown == "" || |imageUrls| == 0 then
      WithoutNothing(imageUrls);
      imageUrls
    else
      var contextImages := MarkdownImageUrls(contextMarkdown);
      if |contextImages| == 0 then
        WithoutNothing(imageUrls);
        imageUrls
      else
        WithoutImagesOf(imageUrls, contextImages)
  }

  /** What `removeDuplicateUrls` returns: keep a URL unless it is the same image as one already kept. */
  function Dedupe(urls: seq<string>): seq<string> {
    DedupeBy(urls, IsSameImage)
  }

  /** `removeDuplicateUrls`: the `for` loop pushing into `unique`. */
  method RemoveDuplicateUrls(urls: seq<string>) returns (unique: seq<string>)
    ensures unique == Dedupe(urls)
  {
    unique := [];
    for i := 0 to |urls|
      invariant unique == Dedupe(urls[..i])
    {
      var url := urls[i];
      assert urls[..i + 1][..i] == urls[..i];
      if !AnySame(url, unique) {
        unique := unique + [url];
      }
    }
    assert urls[..|urls|] == urls;
  }

  /** No two kept URLs are the same image. */
  predicate PairwiseDistinctImages(s: seq<string>) {
    forall i, j :: 0 <= i < j < |s| ==> !IsSameImage(s[i], s[j])
  }

  lemma SameImageReflexive()
    ensures forall u :: IsSameImage(u, u)
  {
  }

  /**
   * The de-duplicated list is a subsequence of the input that keeps the first
   * URL, keeps no two URLs that are the same image, and every input URL is the
   * same image as some kept URL.
   */
  lemma DedupeProperties(urls: seq<string>)
    ensures IsSubsequence(Dedupe(urls), urls)
    ensures urls != [] ==> |Dedupe(urls)| > 0 && Dedupe(urls)[0] == urls[0]
    ensures PairwiseDistinctImages(Dedupe(urls))
    ensures forall i :: 0 <= i < |urls| ==> AnySame(urls[i], Dedupe(urls))
  {
    SameImageReflexive();
    DedupeByProperties(urls, IsSameImage);
    var r := Dedupe(urls);
    forall i, j | 0 <= i < j < |r| ensures !IsSameImage(r[i], r[j]) {
      SubstringRule(r[i], r[j]);
    }
  }

  /** A list with no two URLs that are the same image is its own de-duplication. */
  lemma DedupeOfDistinct(s: seq<string>)
    requires PairwiseDistinctImages(s)
    ensures Dedupe(s) == s
  {
    forall i, j | 0 <= i < j < |s| ensures !IsSameImage(s[j], s[i]) {
      SubstringRule(s[i], s[j]);
    }
    DedupeByOfNoneSame(s, IsSameImage);
  }

  /** `removeDuplicateUrls` is idempotent. */
  lemma DedupeIdempotent(urls: seq<string>)
    ensures Dedupe(Dedupe(urls)) == Dedupe(urls)
  {
    SameImageReflexive();
    DedupeByIdempotent(urls, IsSameImage);
  }
}
