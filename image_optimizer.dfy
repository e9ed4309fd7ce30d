/**
 * The image optimiser's URL helpers: the resize/quality query string added to
 * an image URL, the test for an image larger than the limits, and the
 * `srcset` attribute for a list of widths. Numbers are modelled as integers.
 */
module ImageOptimization {
  import opened Wrappers
  import opened Text

  /** The options `buildOptimizedUrl` reads; an absent field is `None`. */
  datatype Options = Options(quality: Option<int>, maxWidth: Option<int>, maxHeight: Option<int>)

  /** The quality the API serves by default; asking for it adds nothing. */
  const DefaultQuality: int := 85

  /** A number option is truthy when present and not 0. */
  predicate Truthy(x: Option<int>) {
    x.Some? && x.value != 0
  }

  /** `const { quality = 85 } = options` */
  function Quality(o: Options): int {
    o.quality.GetOr(DefaultQuality)
  }

  /** `!maxWidth && !maxHeight && quality === 85`: the options ask for nothing. */
  predicate AsksNothing(o: Options) {
    !Truthy(o.maxWidth) && !Truthy(o.maxHeight) && Quality(o) == DefaultQuality
  }

  /** One query parameter, a one-letter name with a number. */
  datatype Param = Param(name: char, value: int)

  /** The parameters `buildOptimizedUrl` sets, in the order it sets them. */
  function Params(o: Options): seq<Param> {
    (if Truthy(o.maxWidth) then [Param('w', o.maxWidth.value)] else [])
    + (if Truthy(o.maxHeight) then [Param('h', o.maxHeight.value)] else [])
    + (if Quality(o) != DefaultQuality then [Param('q', Quality(o))] else [])
  }

  /** Position of a parameter name in the order `w`, `h`, `q`. */
  function Rank(name: char): nat {
    if name == 'w' then 0 else if name == 'h' then 1 else 2
  }

  /**
   * A width is set exactly when `maxWidth` is truthy, a height exactly when
   * `maxHeight` is, a quality exactly when it differs from 85; each at most
   * once and in the order `w`, `h`, `q`; and none at all exactly when the
   * options ask for nothing.
   */
  lemma ParamsInOrder(o: Options)
    ensures var ps := Params(o);
      && (forall v :: Param('w', v) in ps <==> Truthy(o.maxWidth) && v == o.maxWidth.value)
      && (forall v :: Param('h', v) in ps <==> Truthy(o.maxHeight) && v == o.maxHeight.value)
      && (forall v :: Param('q', v) in ps <==> Quality(o) != DefaultQuality && v == Quality(o))
      && (forall k :: 0 <= k < |ps| ==> ps[k].name in "whq")
      && (forall i, j :: 0 <= i < j < |ps| ==> Rank(ps[i].name) < Rank(ps[j].name))
      && (ps == [] <==> AsksNothing(o))
  {
  }

  /** `name=value` as `URLSearchParams` writes it; digits and `-` need no escaping. */
  function EncodeParam(p: Param): string {
    [p.name] + "=" + IntToString(p.value)
  }

  function EncodeParams(ps: seq<Param>): (r: seq<string>)
    ensures |r| == |ps|
    ensures forall k :: 0 <= k < |ps| ==> r[k] == EncodeParam(ps[k])
  {
    if ps == [] then [] else [EncodeParam(ps[0])] + EncodeParams(ps[1..])
  }

  /** `params.toString()`: the encoded parameters joined by `&`. */
  function QueryString(ps: seq<Param>): string {
    Join(EncodeParams(ps), "&")
  }

  /** `originalUrl.includes('?') ? '&' : '?'` */
  function Separator(url: string): char {
    if '?' in url then '&' else '?'
  }

  /**
   * `buildOptimizedUrl`: the URL itself when the options ask for nothing,
   * otherwise the URL, the separator and the query string. The URL is always
   * a prefix of the result, and the result differs from it exactly when the
   * options ask for something.
   */
  function BuildOptimizedUrl(url: string, o: Options): (r: string)
    ensures |url| <= |r| && r[..|url|] == url
    ensures r == url <==> AsksNothing(o)
  {
    if AsksNothing(o) then url else url + [Separator(url)] + QueryString(Params(o))
  }

  predicate AllDigits(s: string) {
    forall i :: 0 <= i < |s| ==> IsDigit(s[i])
  }

  /** Reads an optionally negative decimal integer. */
  function ParseInt(s: string): Option<int> {
    if |s| >= 2 && s[0] == '-' && AllDigits(s[1..]) then Some(0 - DigitsValue(s[1..]) as int)
    else if |s| >= 1 && AllDigits(s) then Some(DigitsValue(s))
    else None
  }

  /** Reads `name=value`. */
  function DecodeParam(piece: string): Option<Param> {
    if |piece| >= 2 && piece[1] == '=' then
      match ParseInt(piece[2..])
      case Some(v) => Some(Param(piece[0], v))
      case None => None
    else None
  }

  function DecodeParams(pieces: seq<string>): Option<seq<Param>> {
    if pieces == [] then Some([])
    else
      match (DecodeParam(pieces[0]), DecodeParams(pieces[1..]))
      case (Some(p), Some(ps)) => Some([p] + ps)
      case _ => None
  }

  /** Reads a query string back into its parameters. */
  function ParseQuery(q: string): Option<seq<Param>> {
    DecodeParams(SplitOn(q, '&'))
  }

  /** A rendered integer reads back as itself. */
  lemma IntToStringParses(n: int)
    ensures ParseInt(IntToString(n)) == Some(n)
  {
    var s := IntToString(n);
    if n < 0 {
      NatToStringRoundTrip(-n);
      assert s[1..] == NatToString(-n);
    } else {
      NatToStringRoundTrip(n);
    }
  }

  lemma {:induction false} DecodeEncoded(ps: seq<Param>)
    ensures DecodeParams(EncodeParams(ps)) == Some(ps)
  {
    if ps != [] {
      var piece := EncodeParam(ps[0]);
      IntToStringParses(ps[0].value);
      assert piece[2..] == IntToString(ps[0].value);
      assert DecodeParam(piece) == Some(ps[0]);
      DecodeEncoded(ps[1..]);
      var pieces := EncodeParams(ps);
      assert pieces[0] == piece && pieces[1..] == EncodeParams(ps[1..]);
      assert [ps[0]] + ps[1..] == ps;
    }
  }

  lemma NoAmpersand(p: Param)
    requires p.name != '&'
    ensures '&' !in EncodeParam(p)
  {
    var d := IntToString(p.value);
    assert EncodeParam(p) == [p.name, '='] + d;
    assert forall i :: 0 <= i < |d| ==> d[i] == '-' || IsDigit(d[i]);
  }

  /** A query string of parameters not named `&` reads back as those parameters, in order. */
  lemma QueryRoundTrip(ps: seq<Param>)
    requires ps != []
    requires forall k :: 0 <= k < |ps| ==> ps[k].name != '&'
    ensures ParseQuery(QueryString(ps)) == Some(ps)
  {
    var pieces := EncodeParams(ps);
    forall k | 0 <= k < |pieces|
      ensures '&' !in pieces[k]
    {
      NoAmpersand(ps[k]);
    }
    SplitJoin(pieces, '&');
    DecodeEncoded(ps);
  }

  /**
   * When the options ask for something, the optimised URL is the original
   * URL, `&` if it already has a `?` and `?` otherwise, and a query string
   * that reads back as exactly the parameters `w`, `h`, `q` the options set.
   */
  lemma BuildOptimizedUrlReadsBack(url: string, o: Options)
    requires !AsksNothing(o)
    ensures var r := BuildOptimizedUrl(url, o);
      && |r| > |url| + 1
      && r[..|url|] == url
      && r[|url|] == (if '?' in url then '&' else '?')
      && ParseQuery(r[|url| + 1..]) == Some(Params(o))
  {
    var r := BuildOptimizedUrl(url, o);
    var ps := Params(o);
    ParamsInOrder(o);
    assert ps != [];
    forall k | 0 <= k < |ps|
      ensures ps[k].name != '&'
    {
      assert ps[k].name in "whq";
    }
    QueryRoundTrip(ps);
    assert r[|url| + 1..] == QueryString(ps);
    assert |QueryString(ps)| > 0 by {
      assert QueryString(ps)[..|EncodeParam(ps[0])|] == EncodeParam(ps[0]);
    }
  }

  /** `needsOptimization`: a truthy limit that the image's size exceeds. */
  predicate NeedsOptimization(width: int, height: int, o: Options) {
    (Truthy(o.maxWidth) && width > o.maxWidth.value)
    || (Truthy(o.maxHeight) && height > o.maxHeight.value)
  }

  /**
   * An image needs optimising only under options that ask for something, and
   * then the optimised URL carries the limit it exceeds.
   */
  lemma NeedsOptimizationRewrites(width: int, height: int, o: Options, url: string)
    requires NeedsOptimization(width, height, o)
    ensures !AsksNothing(o) && BuildOptimizedUrl(url, o) != url
    ensures Truthy(o.maxWidth) && width > o.maxWidth.value ==> Param('w', o.maxWidth.value) in Params(o)
    ensures Truthy(o.maxHeight) && height > o.maxHeight.value ==> Param('h', o.maxHeight.value) in Params(o)
  {
  }

  /** `generateSrcSet`'s default widths. */
  const DefaultBreakpoints: seq<int> := [320, 640, 768, 1024, 1280]

  /** `` `${optimizedUrl} ${width}w` `` with the URL resized to that width. */
  function SrcSetEntry(url: string, width: int): string {
    BuildOptimizedUrl(url, Options(None, Some(width), None)) + " " + IntToString(width) + "w"
  }

  function SrcSetEntries(url: string, breakpoints: seq<int>): (r: seq<string>)
    ensures |r| == |breakpoints|
    ensures forall k :: 0 <= k < |r| ==> r[k] == SrcSetEntry(url, breakpoints[k])
  {
    if breakpoints == [] then [] else [SrcSetEntry(url, breakpoints[0])] + SrcSetEntries(url, breakpoints[1..])
  }

  /** `generateSrcSet`: one entry per width, in order, joined by `, `. */
  function GenerateSrcSet(url: string, breakpoints: seq<int>): string {
    Join(SrcSetEntries(url, breakpoints), ", ")
  }

  /**
   * An entry for a non-zero width is the URL with only `w=<width>` added,
   * then the width descriptor; a width of 0 leaves the URL as it is.
   */
  lemma SrcSetEntryShape(url: string, width: int)
    ensures width != 0 ==>
      SrcSetEntry(url, width) == url + [Separator(url)] + "w=" + IntToString(width) + " " + IntToString(width) + "w"
    ensures width == 0 ==> SrcSetEntry(url, width) == url + " 0w"
  {
    var o := Options(None, Some(width), None);
    assert Quality(o) == DefaultQuality;
    if width != 0 {
      assert Params(o) == [Param('w', width)];
      assert QueryString(Params(o)) == "w=" + IntToString(width);
    }
  }

  /**
   * For non-zero widths the attribute is the entries `<url>?w=<width> <width>w`
   * (with `&` instead of `?` when the URL has a query), one per width, in
   * order, joined by `, `.
   */
  lemma GenerateSrcSetShape(url: string, breakpoints: seq<int>)
    requires forall k :: 0 <= k < |breakpoints| ==> breakpoints[k] != 0
    ensures var es := SrcSetEntries(url, breakpoints);
      && GenerateSrcSet(url, breakpoints) == Join(es, ", ")
      && |es| == |breakpoints|
      && forall k :: 0 <= k < |es| ==>
           es[k] == url + [Separator(url)] + "w=" + IntToString(breakpoints[k]) + " " + IntToString(breakpoints[k]) + "w"
  {
    var es := SrcSetEntries(url, breakpoints);
    forall k | 0 <= k < |es|
      ensures es[k] == url + [Separator(url)] + "w=" + IntToString(breakpoints[k]) + " " + IntToString(breakpoints[k]) + "w"
    {
      SrcSetEntryShape(url, breakpoints[k]);
    }
  }
}
