/**
 * The image preloader's bookkeeping: the set of URLs whose image has loaded
 * and the map of URLs whose load is still pending. The browser `Image` object
 * is not modelled: a pending load is represented by a ticket standing for its
 * promise, and the load and error callbacks are methods the environment calls.
 */
module ImagePreloading {
  import opened Text
  import opened Seqs
  import opened UrlRule
  import opened MarkdownScan

  /**
   * `normalizeImageUrl`, the preloader's own copy of the absolutising rule; it
   * agrees with the service's rule on every input.
   */
  function NormalizeImageUrl(url: string): (r: string)
    ensures r == AbsoluteUrl(url)
  {
    if StartsWith(url, "http://") || StartsWith(url, "https://") then url
    else if StartsWith(url, "images/") then "http://localhost:3000/" + url
    else if StartsWith(url, "/") then "http://localhost:3000" + url
    else "http://localhost:3000/" + url
  }

  /** The preloader's rule is idempotent and yields absolute URLs. */
  lemma NormalizeImageUrlIdempotent(url: string)
    ensures NormalizeImageUrl(NormalizeImageUrl(url)) == NormalizeImageUrl(url)
    ensures IsAbsolute(NormalizeImageUrl(url))
  {
    AbsoluteUrlIdempotent(url);
  }

  /** `url && url.trim() && !preloadedImages.has(url)` */
  predicate Wanted(url: string, preloaded: set<string>) {
    !IsBlank(url) && url !in preloaded
  }

  /** The URLs `preloadImages` starts: first occurrences that are not blank and not yet loaded. */
  function Selected(urls: seq<string>, preloaded: set<string>): seq<string> {
    Filter(Distinct(urls), WantedBy(preloaded))
  }

  function WantedBy(preloaded: set<string>): string -> bool {
    u => Wanted(u, preloaded)
  }

  /**
   * The selection holds each wanted URL of the batch exactly once, and nothing
   * else; it is empty exactly when no URL of the batch is wanted.
   */
  lemma SelectedExactly(urls: seq<string>, preloaded: set<string>)
    ensures var r := Selected(urls, preloaded); forall i, j :: 0 <= i < j < |r| ==> r[i] != r[j]
    ensures forall u :: u in Selected(urls, preloaded) <==> u in urls && Wanted(u, preloaded)
    ensures Selected(urls, preloaded) == [] <==> forall u :: u in urls ==> !Wanted(u, preloaded)
  {
    var keep := WantedBy(preloaded);
    FilterNoRepeats(Distinct(urls), keep);
    FilterMembers(Distinct(urls), keep);
    var r := Selected(urls, preloaded);
    assert r == Filter(Distinct(urls), keep);
    if r != [] {
      assert r[0] in r;
    }
  }

  lemma SelectedNotLoaded(urls: seq<string>, preloaded: set<string>)
    ensures forall k :: 0 <= k < |Selected(urls, preloaded)| ==> Selected(urls, preloaded)[k] !in preloaded
  {
    SelectedExactly(urls, preloaded);
    var r := Selected(urls, preloaded);
    forall k | 0 <= k < |r| ensures r[k] !in preloaded {
      assert r[k] in r;
    }
  }

  /**
   * A batch of loads has started the URLs of `done`, taking the pending map
   * from `loading0` to `loading` and the next ticket from `next0` to `next`:
   * it is the batch's pending URLs and its tickets, below.
   */
  ghost predicate BatchSoFar(loading0: map<string, nat>, next0: nat, loading: map<string, nat>, next: nat, done: seq<string>) {
    BatchPending(loading0, loading, done) && BatchTickets(loading0, next0, loading, next)
  }

  /** Each started URL is pending, nothing else became pending, and earlier loads keep their tickets. */
  ghost predicate BatchPending(loading0: map<string, nat>, loading: map<string, nat>, done: seq<string>) {
    && (forall u :: u in loading <==> u in loading0 || u in done)
    && (forall u :: u in loading0 ==> u in loading && loading[u] == loading0[u])
  }

  /** The new loads hold tickets issued by the batch, one ticket per new pending URL. */
  ghost predicate BatchTickets(loading0: map<string, nat>, next0: nat, loading: map<string, nat>, next: nat) {
    && next0 <= next
    && (forall u :: u in loading && u !in loading0 ==> next0 <= loading[u] < next)
    && next - next0 == |loading.Keys - loading0.Keys|
  }

  /** Starting one more URL, as `preloadImage` does for a URL not yet loaded, extends the batch. */
  lemma BatchStep(loading0: map<string, nat>, next0: nat, loading: map<string, nat>, next: nat, done: seq<string>,
                  url: string, loading': map<string, nat>, next': nat)
    requires BatchSoFar(loading0, next0, loading, next, done)
    requires url in loading ==> loading' == loading && next' == next
    requires url !in loading ==> loading' == loading[url := next] && next' == next + 1
    ensures BatchSoFar(loading0, next0, loading', next', done + [url])
  {
    BatchPendingStep(loading0, loading, done, url, next, loading');
    if url !in loading {
      BatchTicketsStep(loading0, next0, loading, next, url);
    }
  }

  lemma BatchPendingStep(loading0: map<string, nat>, loading: map<string, nat>, done: seq<string>,
                         url: string, ticket: nat, loading': map<string, nat>)
    requires BatchPending(loading0, loading, done)
    requires (url in loading && loading' == loading) || (url !in loading && loading' == loading[url := ticket])
    ensures BatchPending(loading0, loading', done + [url])
  {
    assert forall u :: u in done + [url] <==> u in done || u == url;
  }

  lemma BatchTicketsStep(loading0: map<string, nat>, next0: nat, loading: map<string, nat>, next: nat, url: string)
    requires BatchTickets(loading0, next0, loading, next)
    requires url !in loading && forall u :: u in loading0 ==> u in loading
    ensures BatchTickets(loading0, next0, loading[url := next], next + 1)
  {
    NewKeysGrow(loading0, loading, url, next);
  }

  /** Adding a key that is not yet present adds one new key. */
  lemma NewKeysGrow(loading0: map<string, nat>, loading: map<string, nat>, url: string, ticket: nat)
    requires url !in loading && forall u :: u in loading0 ==> u in loading
    ensures |loading[url := ticket].Keys - loading0.Keys| == |loading.Keys - loading0.Keys| + 1
  {
    assert loading[url := ticket].Keys - loading0.Keys == (loading.Keys - loading0.Keys) + {url};
  }

  /** How `preloadImage` answers: at once (already loaded), or with a pending load's promise. */
  datatype Preload = Ready | Pending(ticket: nat)

  class ImagePreloader {
    /** `preloadedImages` */
    var preloaded: set<string>
    /** `loadingImages`: each pending URL with the ticket of its load */
    var loading: map<string, nat>
    /** the ticket the next load receives */
    var nextTicket: nat

    /**
     * No URL is both loaded and loading, every pending ticket has been issued,
     * and two pending URLs never share a load.
     */
    predicate Valid()
      reads this
    {
      && preloaded !! loading.Keys
      && (forall u :: u in loading ==> loading[u] < nextTicket)
      && (forall u, v :: u in loading && v in loading && u != v ==> loading[u] != loading[v])
    }

    constructor()
      ensures Valid() && preloaded == {} && loading == map[]
    {
      preloaded := {};
      loading := map[];
      nextTicket := 0;
    }

    /**
     * `preloadImage`: nothing to do for a loaded URL, the pending promise for a
     * URL already loading, and otherwise a new load recorded as pending.
     */
    method PreloadImage(url: string) returns (r: Preload)
      requires Valid()
      modifies this
      ensures Valid()
      ensures url in old(preloaded) ==> r == Ready && unchanged(this)
      ensures url !in old(preloaded) && url in old(loading) ==> r == Pending(old(loading)[url]) && unchanged(this)
      ensures url !in old(preloaded) && url !in old(loading) ==>
                && r == Pending(old(nextTicket))
                && preloaded == old(preloaded)
                && loading == old(loading)[url := old(nextTicket)]
                && nextTicket == old(nextTicket) + 1
    {
      if url in preloaded {
        return Ready;
      }
      if url in loading {
        return Pending(loading[url]);
      }
      r := Pending(nextTicket);
      loading := loading[url := nextTicket];
      nextTicket := nextTicket + 1;
    }

    /** The image's `onload`: the URL is loaded and no longer pending. */
    method OnLoad(url: string)
      requires Valid()
      modifies this
      ensures Valid()
      ensures preloaded == old(preloaded) + {url} && loading == old(loading) - {url}
      ensures nextTicket == old(nextTicket)
      ensures IsPreloaded(url)
    {
      preloaded := preloaded + {url};
      loading := loading - {url};
    }

    /** The image's `onerror`: the URL is no longer pending and is not marked loaded. */
    method OnError(url: string)
      requires Valid()
      modifies this
      ensures Valid()
      ensures preloaded == old(preloaded) && loading == old(loading) - {url}
      ensures nextTicket == old(nextTicket)
      ensures url !in loading && IsPreloaded(url) == old(IsPreloaded(url))
    {
      loading := loading - {url};
    }

    /**
     * `preloadImages`, up to the moment every selected load has started: every
     * selected URL is pending afterwards, with a new load unless one already
     * was. Each new load gets its own ticket, issued by this batch, and one
     * ticket is issued per new pending URL. Nothing changes when nothing is
     * selected.
     */
    method PreloadImages(urls: seq<string>)
      requires Valid()
      modifies this
      ensures Valid()
      ensures preloaded == old(preloaded)
      ensures forall u :: u in loading <==> u in old(loading) || u in Selected(urls, old(preloaded))
      ensures forall u :: u in old(loading) ==> loading[u] == old(loading)[u]
      ensures forall u :: u in loading && u !in old(loading) ==> old(nextTicket) <= loading[u] < nextTicket
      ensures nextTicket - old(nextTicket) == |loading.Keys - old(loading).Keys|
      ensures Selected(urls, old(preloaded)) == [] ==> unchanged(this)
    {
      var unique := Selected(urls, preloaded);
      if |unique| == 0 {
        return;
      }
      SelectedNotLoaded(urls, preloaded);
      for i := 0 to |unique|
        invariant Valid()
        invariant preloaded == old(preloaded)
        invariant BatchSoFar(old(loading), old(nextTicket), loading, nextTicket, unique[..i])
      {
        ghost var loading1, next1 := loading, nextTicket;
        assert unique[i] !in preloaded;
        var _ := PreloadImage(unique[i]);
        BatchStep(old(loading), old(nextTicket), loading1, next1, unique[..i], unique[i], loading, nextTicket);
        PrefixSnoc(unique, i);
      }
      assert unique[..|unique|] == unique;
      assert BatchPending(old(loading), loading, unique) && BatchTickets(old(loading), old(nextTicket), loading, nextTicket);
    }

    /** `extractImageUrls`: every lazy-alt URL capture, left to right, absolutised. */
    method ExtractImageUrls(markdown: string) returns (urls: seq<string>)
      ensures urls == MapStrings(NormalizeImageUrl, ImageUrls(LazyAlt, markdown))
      ensures forall k :: 0 <= k < |urls| ==> IsAbsolute(urls[k])
    {
      var normalize := NormalizeImageUrl;
      urls := [];
      var lastIndex := 0;
      var found := FindFrom(LazyAlt, markdown, lastIndex);
      while found.Some?
        invariant lastIndex <= |markdown|
        invariant found == FindFrom(LazyAlt, markdown, lastIndex)
        invariant urls + MappedUrls(normalize, markdown, AllMatches(LazyAlt, markdown, lastIndex))
                  == MappedUrls(normalize, markdown, AllMatches(LazyAlt, markdown, 0))
        decreases |markdown| - lastIndex
      {
        var m := found.value;
        var rest := AllMatches(LazyAlt, markdown, End(m));
        assert AllMatches(LazyAlt, markdown, lastIndex) == [m] + rest;
        var tail := MappedUrls(normalize, markdown, rest);
        assert MappedUrls(normalize, markdown, [m] + rest) == [normalize(Url(markdown, m))] + tail;
        AppendOneThenRest(urls, normalize(Url(markdown, m)), tail);
        urls := urls + [normalize(Url(markdown, m))];
        lastIndex := End(m);
        found := FindFrom(LazyAlt, markdown, lastIndex);
      }
    }

    /** `isPreloaded`: a loaded URL, which is therefore not pending. */
    function IsPreloaded(url: string): (r: bool)
      reads this
      ensures r <==> url in preloaded
      ensures Valid() && r ==> url !in loading
    {
      url in preloaded
    }

    /** `clearCache`: forget both collections. */
    method Clear()
      requires Valid()
      modifies this
      ensures Valid() && preloaded == {} && loading == map[] && nextTicket == old(nextTicket)
    {
      preloaded := {};
      loading := map[];
    }

    /** `getStats`: the sizes of both collections, which together count distinct URLs. */
    method GetStats() returns (preloadedCount: nat, loadingCount: nat)
      requires Valid()
      ensures preloadedCount == |preloaded| && loadingCount == |loading|
      ensures preloadedCount + loadingCount == |preloaded + loading.Keys|
    {
      preloadedCount := |preloaded|;
      loadingCount := |loading|;
      assert |loading| == |loading.Keys|;
    }
  }
}
