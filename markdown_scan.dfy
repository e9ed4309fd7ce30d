/**
 * The markdown image links `![alt](url)` as the application's three regular
 * expressions find them. All three begin with `![`, end the alt text at a `]`
 * that is followed by `(`, and take as URL a non-empty run of characters other
 * than `)` up to the first `)`. They differ only in what the alt text may be:
 *
 *   EmptyAlt        `/!\[\]\(([^)]+)\)/g`          the alt text must be empty
 *   LazyAlt         `/!\[.*?\]\(([^)]+)\)/g`        the shortest alt text that
 *                                                 lets the rest match, with no
 *                                                 line terminator in it
 *   BracketFreeAlt  `/!\[([^\]]*)\]\(([^)]+)\)/g`   no `]` in the alt text
 *
 * A global regular expression is used through `exec` (or `replace`), which
 * looks for the leftmost match at or after `lastIndex` and moves `lastIndex` to
 * the end of that match; FindFrom and AllMatches are that search.
 */
module MarkdownScan {
  import opened Wrappers
  import opened Text

  datatype Pattern = EmptyAlt | LazyAlt | BracketFreeAlt

  /** The characters `.` does not match in a JavaScript regular expression. */
  predicate IsLineTerminator(c: char) {
    c == '\n' || c == '\r' || c == '\U{2028}' || c == '\U{2029}'
  }

  /** The index of the first `c` in `s` at or after `i`, or `|s|` when there is none. */
  function IndexOfFrom(s: string, c: char, i: nat): (r: nat)
    requires i <= |s|
    ensures i <= r <= |s|
    ensures r < |s| ==> s[r] == c
    ensures forall j :: i <= j < r ==> s[j] != c
    decreases |s| - i
  {
    if i == |s| then |s| else if s[i] == c then i else IndexOfFrom(s, c, i + 1)
  }

  /**
   * `([^)]+)\)` matched at `u`: the index of the closing parenthesis, which is the
   * first `)` at or after `u`, provided at least one character precedes it.
   */
  function UrlClose(s: string, u: nat): (r: Option<nat>)
    requires u <= |s|
    ensures r.Some? ==> u < r.value < |s| && s[r.value] == ')'
    ensures r.Some? ==> forall j :: u <= j < r.value ==> s[j] != ')'
    ensures r.None? ==> (u < |s| && s[u] == ')') || forall j :: u <= j < |s| ==> s[j] != ')'
  {
    var e := IndexOfFrom(s, ')', u);
    if u < e < |s| then Some(e) else None
  }

  /** `![` at `i`, `](` at `k` and a URL after it, whatever lies between. */
  predicate IsCandidate(s: string, i: nat, k: nat) {
    && i + 2 <= k
    && k + 2 <= |s|
    && s[i] == '!' && s[i + 1] == '['
    && s[k] == ']' && s[k + 1] == '('
    && UrlClose(s, k + 2).Some?
  }

  /** What the pattern lets the alt text `s[i + 2..k]` be. */
  predicate AltAllowed(p: Pattern, s: string, i: nat, k: nat)
    requires i + 2 <= k <= |s|
  {
    match p
    case EmptyAlt => k == i + 2
    case LazyAlt => forall j :: i + 2 <= j < k ==> !IsLineTerminator(s[j])
    case BracketFreeAlt => forall j :: i + 2 <= j < k ==> s[j] != ']'
  }

  /** The pattern matches at `i` with its alt text ending at `k`. */
  predicate Matches(p: Pattern, s: string, i: nat, k: nat) {
    IsCandidate(s, i, k) && AltAllowed(p, s, i, k)
  }

  /** The lazy `.*?`: try alt ends `k`, `k + 1`, ... while the alt text has no line terminator. */
  function LazyAltEnd(s: string, i: nat, k: nat): (r: Option<nat>)
    requires i + 2 <= k <= |s|
    requires forall j :: i + 2 <= j < k ==> !IsLineTerminator(s[j])
    ensures r.Some? ==> k <= r.value && Matches(LazyAlt, s, i, r.value)
    ensures r.Some? ==> forall k' :: k <= k' < r.value ==> !Matches(LazyAlt, s, i, k')
    ensures r.None? ==> forall k' :: k <= k' ==> !Matches(LazyAlt, s, i, k')
    decreases |s| - k
  {
    if IsCandidate(s, i, k) then Some(k)
    else if k < |s| && !IsLineTerminator(s[k]) then LazyAltEnd(s, i, k + 1)
    else None
  }

  /** Where the alt text ends when the pattern matches at `i`: the least such end. */
  function AltEnd(p: Pattern, s: string, i: nat): (r: Option<nat>)
    ensures r.Some? ==> Matches(p, s, i, r.value)
    ensures r.Some? ==> forall k :: Matches(p, s, i, k) ==> r.value <= k
    ensures r.None? ==> forall k :: !Matches(p, s, i, k)
  {
    if i + 2 > |s| || s[i] != '!' || s[i + 1] != '[' then None
    else
      match p
      case EmptyAlt => if IsCandidate(s, i, i + 2) then Some(i + 2) else None
      case BracketFreeAlt =>
        var k := IndexOfFrom(s, ']', i + 2);
        if IsCandidate(s, i, k) then Some(k) else None
      case LazyAlt => LazyAltEnd(s, i, i + 2)
  }

  /**
   * A match: it starts at `start` with `![`, its alt text ends at `altEnd`
   * (the `]`), and its URL ends at `urlEnd` (the `)`).
   */
  datatype Match = Match(start: nat, altEnd: nat, urlEnd: nat)

  predicate InBounds(s: string, m: Match) {
    m.start + 2 <= m.altEnd && m.altEnd + 2 < m.urlEnd < |s|
  }

  /** `m` is a match of the pattern in `s`. */
  predicate IsMatch(p: Pattern, s: string, m: Match) {
    Matches(p, s, m.start, m.altEnd) && UrlClose(s, m.altEnd + 2) == Some(m.urlEnd)
  }

  lemma IsMatchInBounds(p: Pattern, s: string, m: Match)
    requires IsMatch(p, s, m)
    ensures InBounds(s, m)
  {
  }

  /** The index just past the match: `lastIndex` after `exec` found it. */
  function End(m: Match): nat { m.urlEnd + 1 }

  /** The whole matched text, `match[0]`. */
  function Raw(s: string, m: Match): string
    requires InBounds(s, m)
  {
    s[m.start..End(m)]
  }

  /** The alt text. */
  function Alt(s: string, m: Match): string
    requires InBounds(s, m)
  {
    s[m.start + 2..m.altEnd]
  }

  /** The URL capture. */
  function Url(s: string, m: Match): (r: string)
    requires InBounds(s, m)
  {
    s[m.altEnd + 2..m.urlEnd]
  }

  /** A URL capture is non-empty and holds no `)`. */
  lemma UrlShape(p: Pattern, s: string, m: Match)
    requires IsMatch(p, s, m)
    ensures |Url(s, m)| > 0
    ensures forall j :: 0 <= j < |Url(s, m)| ==> Url(s, m)[j] != ')'
  {
    var u := Url(s, m);
    forall j | 0 <= j < |u| ensures u[j] != ')' {
      assert u[j] == s[m.altEnd + 2 + j];
    }
  }

  /** The regular expression tried at index `i` alone (a sticky match). */
  function MatchAt(p: Pattern, s: string, i: nat): (r: Option<Match>)
    ensures r.Some? ==> r.value.start == i && IsMatch(p, s, r.value) && InBounds(s, r.value)
    ensures r.Some? ==> forall k :: Matches(p, s, i, k) ==> r.value.altEnd <= k
    ensures r.None? ==> forall k :: !Matches(p, s, i, k)
  {
    match AltEnd(p, s, i)
    case None => None
    case Some(k) => Some(Match(i, k, UrlClose(s, k + 2).value))
  }

  /** `exec` with `lastIndex == from`: the leftmost match starting at or after `from`. */
  function FindFrom(p: Pattern, s: string, from: nat): (r: Option<Match>)
    requires from <= |s|
    ensures r.Some? ==> from <= r.value.start && MatchAt(p, s, r.value.start) == r && InBounds(s, r.value)
    ensures r.Some? ==> forall j :: from <= j < r.value.start ==> MatchAt(p, s, j).None?
    ensures r.None? ==> forall j :: from <= j <= |s| ==> MatchAt(p, s, j).None?
    decreases |s| - from
  {
    if from == |s| then None
    else
      var here := MatchAt(p, s, from);
      if here.Some? then here else FindFrom(p, s, from + 1)
  }

  /** Every match `exec` returns, in order, starting from `lastIndex == from`. */
  function AllMatches(p: Pattern, s: string, from: nat): (r: seq<Match>)
    requires from <= |s|
    ensures forall k :: 0 <= k < |r| ==> InBounds(s, r[k]) && from <= r[k].start
    ensures forall k :: 0 <= k < |r| - 1 ==> End(r[k]) <= r[k + 1].start
    decreases |s| - from
  {
    match FindFrom(p, s, from)
    case None => []
    case Some(m) => [m] + AllMatches(p, s, End(m))
  }

  /** The text before, between and after the matches. */
  function Gaps(p: Pattern, s: string, from: nat): (r: seq<string>)
    requires from <= |s|
    ensures |r| == |AllMatches(p, s, from)| + 1
    decreases |s| - from
  {
    match FindFrom(p, s, from)
    case None => [s[from..]]
    case Some(m) => [s[from..m.start]] + Gaps(p, s, End(m))
  }

  /** Every element of `AllMatches` is a match of the pattern, found by trying it at its start. */
  lemma {:induction false} AllMatchesAreMatches(p: Pattern, s: string, from: nat)
    requires from <= |s|
    ensures forall k :: 0 <= k < |AllMatches(p, s, from)| ==>
              IsMatch(p, s, AllMatches(p, s, from)[k]) &&
              MatchAt(p, s, AllMatches(p, s, from)[k].start) == Some(AllMatches(p, s, from)[k])
    decreases |s| - from
  {
    match FindFrom(p, s, from)
    case None =>
    case Some(m) => AllMatchesAreMatches(p, s, End(m));
  }

  predicate AllInBounds(s: string, ms: seq<Match>) {
    forall k :: 0 <= k < |ms| ==> InBounds(s, ms[k])
  }

  function Raws(s: string, ms: seq<Match>): (r: seq<string>)
    requires AllInBounds(s, ms)
    ensures |r| == |ms|
  {
    if ms == [] then [] else [Raw(s, ms[0])] + Raws(s, ms[1..])
  }

  /** The URL captures of the matches, in order. */
  function Urls(s: string, ms: seq<Match>): (r: seq<string>)
    requires AllInBounds(s, ms)
    ensures |r| == |ms|
    ensures forall k :: 0 <= k < |ms| ==> r[k] == Url(s, ms[k])
  {
    if ms == [] then [] else [Url(s, ms[0])] + Urls(s, ms[1..])
  }

  /** The URL captures of the matches, each passed through `f`, in order. */
  function MappedUrls(f: string -> string, s: string, ms: seq<Match>): (r: seq<string>)
    requires AllInBounds(s, ms)
    ensures |r| == |ms|
    ensures forall k :: 0 <= k < |ms| ==> r[k] == f(Url(s, ms[k]))
  {
    if ms == [] then [] else [f(Url(s, ms[0]))] + MappedUrls(f, s, ms[1..])
  }

  /** The URL capture of every match in `s`, left to right. */
  function ImageUrls(p: Pattern, s: string): seq<string> {
    Urls(s, AllMatches(p, s, 0))
  }

  /** Every URL capture is non-empty and holds no `)`. */
  lemma ImageUrlsShape(p: Pattern, s: string)
    ensures forall k :: 0 <= k < |ImageUrls(p, s)| ==> |ImageUrls(p, s)[k]| > 0 && ')' !in ImageUrls(p, s)[k]
  {
    var ms := AllMatches(p, s, 0);
    AllMatchesAreMatches(p, s, 0);
    forall k | 0 <= k < |ms| ensures |Url(s, ms[k])| > 0 && ')' !in Url(s, ms[k]) {
      UrlShape(p, s, ms[k]);
    }
  }

  /** The gaps and the matched texts tile the scanned text, in order and without overlap. */
  lemma {:induction false} Tiling(p: Pattern, s: string, from: nat)
    requires from <= |s|
    ensures Interleave(Gaps(p, s, from), Raws(s, AllMatches(p, s, from))) == s[from..]
    decreases |s| - from
  {
    match FindFrom(p, s, from)
    case None =>
    case Some(m) =>
      var e := End(m);
      Tiling(p, s, e);
      var ms, rest := AllMatches(p, s, from), AllMatches(p, s, e);
      assert ms[1..] == rest;
      var raws, gaps := Raws(s, ms), Gaps(p, s, from);
      assert raws[0] == s[m.start..e] && raws[1..] == Raws(s, rest);
      assert gaps[0] == s[from..m.start] && gaps[1..] == Gaps(p, s, e);
      assert Interleave(gaps, raws) == s[from..m.start] + s[m.start..e] + s[e..];
      ThreeSlices(s, from, m.start, e);
  }

  lemma ThreeSlices(s: string, a: nat, b: nat, c: nat)
    requires a <= b <= c <= |s|
    ensures s[a..b] + s[b..c] + s[c..] == s[a..]
  {
  }

  /** No match is found exactly when the regular expression matches at no index. */
  lemma NoMatches(p: Pattern, s: string)
    ensures AllMatches(p, s, 0) == [] <==> forall j :: 0 <= j <= |s| ==> MatchAt(p, s, j).None?
  {
  }

  /** `xs.map(f)` */
  function MapStrings(f: string -> string, xs: seq<string>): (r: seq<string>)
    ensures |r| == |xs| && forall k :: 0 <= k < |xs| ==> r[k] == f(xs[k])
  {
    seq(|xs|, k requires 0 <= k < |xs| => f(xs[k]))
  }

  /**
   * `s.replace(regex, (match, url) => f(url))` with the search starting at
   * `from`: every match is replaced by `f` of its URL capture.
   */
  function ReplaceUrls(p: Pattern, s: string, from: nat, f: string -> string): string
    requires from <= |s|
    decreases |s| - from
  {
    match FindFrom(p, s, from)
    case None => s[from..]
    case Some(m) => s[from..m.start] + f(Url(s, m)) + ReplaceUrls(p, s, End(m), f)
  }

  /** The replacement keeps every gap between the matches and puts `f(url)` where each match was. */
  lemma {:induction false} ReplaceKeepsGaps(p: Pattern, s: string, from: nat, f: string -> string)
    requires from <= |s|
    ensures ReplaceUrls(p, s, from, f) ==
            Interleave(Gaps(p, s, from), MapStrings(f, Urls(s, AllMatches(p, s, from))))
    decreases |s| - from
  {
    match FindFrom(p, s, from)
    case None =>
    case Some(m) =>
      var e := End(m);
      ReplaceKeepsGaps(p, s, e, f);
      var ms, rest := AllMatches(p, s, from), AllMatches(p, s, e);
      assert ms[1..] == rest;
      var items := MapStrings(f, Urls(s, ms));
      assert items[0] == f(Url(s, m));
      assert items[1..] == MapStrings(f, Urls(s, rest));
      var gaps := Gaps(p, s, from);
      assert gaps[0] == s[from..m.start] && gaps[1..] == Gaps(p, s, e);
      assert Interleave(gaps, items) == gaps[0] + items[0] + Interleave(gaps[1..], items[1..]);
  }
}
