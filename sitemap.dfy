/**
 * The site map: two static pages, a page per question, a filter page per
 * discipline and per year, and the combined year-and-discipline filters for
 * the first five years and first four disciplines; only the two static pages
 * when any of the three lookups fails. Dates are kept symbolic (`now`, or
 * New Year's Day of a question's year) and priorities are in tenths.
 */
module Sitemap {
  import opened Wrappers
  import opened Text
  import opened Questions
  import opened Seqs

  datatype ChangeFrequency = Daily | Weekly | Monthly

  /** `new Date()`, or `new Date('<year>-01-01')`. */
  datatype Modified = Now | NewYear(year: int)

  /** One site-map entry; `priority` is in tenths (`0.7` is 7). */
  datatype Entry = Entry(url: string, lastModified: Modified, changeFrequency: ChangeFrequency, priority: nat)

  const DefaultBaseUrl: string := "https://quizenem.com"

  /** How many years and disciplines the combined filters take. */
  const CombinedYears: nat := 5
  const CombinedDisciplines: nat := 4

  /** `process.env.NEXT_PUBLIC_BASE_URL || 'https://quizenem.com'` */
  function BaseUrl(env: Option<string>): (r: string)
    ensures r != ""
    ensures env.Some? && env.value != "" ==> r == env.value
    ensures env.None? || env.value == "" ==> r == DefaultBaseUrl
  {
    if env.Some? && env.value != "" then env.value else DefaultBaseUrl
  }

  /** The home page and the question list, in that order. */
  function StaticEntries(base: string): seq<Entry> {
    [Entry(base, Now, Daily, 10), Entry(base + "/questoes", Now, Daily, 8)]
  }

  function QuestionEntry(base: string, q: Question): Entry {
    Entry(base + "/questao/" + IntToString(q.id), NewYear(q.year), Monthly, 7)
  }

  function DisciplineEntry(base: string, d: Labelled): Entry {
    Entry(base + "/questoes?disciplina=" + d.value, Now, Weekly, 6)
  }

  function YearEntry(base: string, year: int): Entry {
    Entry(base + "/questoes?ano=" + IntToString(year), Now, Weekly, 6)
  }

  function CombinedEntry(base: string, year: int, d: Labelled): Entry {
    Entry(base + "/questoes?ano=" + IntToString(year) + "&disciplina=" + d.value, Now, Weekly, 5)
  }

  function QuestionBy(base: string): Question -> Entry {
    (q: Question) => QuestionEntry(base, q)
  }

  function DisciplineBy(base: string): Labelled -> Entry {
    (d: Labelled) => DisciplineEntry(base, d)
  }

  function YearBy(base: string): int -> Entry {
    (year: int) => YearEntry(base, year)
  }

  /** `allQuestions.map(...)`: one entry per question, in the questions' order. */
  lemma {:induction false} QuestionEntriesInOrder(base: string, qs: seq<Question>)
    ensures var r := Map(QuestionBy(base), qs);
      |r| == |qs| && forall k :: 0 <= k < |qs| ==> r[k] == QuestionEntry(base, qs[k])
  {
    MapAt(QuestionBy(base), qs);
  }

  /** `disciplines.map(...)`: one entry per discipline, in the disciplines' order. */
  lemma {:induction false} DisciplineEntriesInOrder(base: string, ds: seq<Labelled>)
    ensures var r := Map(DisciplineBy(base), ds);
      |r| == |ds| && forall k :: 0 <= k < |ds| ==> r[k] == DisciplineEntry(base, ds[k])
  {
    MapAt(DisciplineBy(base), ds);
  }

  /** `years.map(...)`: one entry per year, in the years' order. */
  lemma {:induction false} YearEntriesInOrder(base: string, ys: seq<int>)
    ensures var r := Map(YearBy(base), ys);
      |r| == |ys| && forall k :: 0 <= k < |ys| ==> r[k] == YearEntry(base, ys[k])
  {
    MapAt(YearBy(base), ys);
  }

  /** `xs.slice(0, n)` */
  function Take<T>(xs: seq<T>, n: nat): (r: seq<T>)
    ensures |r| == if |xs| < n then |xs| else n
  {
    if |xs| <= n then xs else xs[..n]
  }

  /** The combined entry of a year and a discipline. */
  function CombinedBy(base: string): (int, Labelled) -> Entry {
    (year: int, d: Labelled) => CombinedEntry(base, year, d)
  }

  /** The entries of one year, a discipline at a time. */
  function Row<Y, D, E>(f: (Y, D) -> E, year: Y, ds: seq<D>): (r: seq<E>)
    ensures |r| == |ds|
  {
    if ds == [] then [] else Row(f, year, ds[..|ds| - 1]) + [f(year, ds[|ds| - 1])]
  }

  /** The entries year after year. */
  function Grid<Y, D, E>(f: (Y, D) -> E, ys: seq<Y>, ds: seq<D>): seq<E> {
    if ys == [] then [] else Grid(f, ys[..|ys| - 1], ds) + Row(f, ys[|ys| - 1], ds)
  }

  lemma {:induction false} GridLength<Y, D, E>(f: (Y, D) -> E, ys: seq<Y>, ds: seq<D>)
    ensures |Grid(f, ys, ds)| == |ys| * |ds|
  {
    if ys != [] {
      GridLength(f, ys[..|ys| - 1], ds);
      MulStep(|ys|, |ds|);
    }
  }

  lemma MulStep(a: nat, d: nat)
    requires a >= 1
    ensures a * d == (a - 1) * d + d
  {
  }

  lemma {:induction false} RowAt<Y, D, E>(f: (Y, D) -> E, year: Y, ds: seq<D>, j: nat)
    requires j < |ds|
    ensures Row(f, year, ds)[j] == f(year, ds[j])
  {
    var n := |ds| - 1;
    if j < n {
      RowAt(f, year, ds[..n], j);
    }
  }

  /**
   * Years are the outer loop and disciplines the inner one: the entry for the
   * `i`-th year and the `j`-th discipline comes right after the entries of the
   * years before it, at position `j` among its year's.
   */
  lemma {:induction false} GridAt<Y, D, E>(f: (Y, D) -> E, ys: seq<Y>, ds: seq<D>, i: nat, j: nat)
    requires i < |ys| && j < |ds|
    ensures |Grid(f, ys[..i], ds)| + j < |Grid(f, ys, ds)|
    ensures Grid(f, ys, ds)[|Grid(f, ys[..i], ds)| + j] == f(ys[i], ds[j])
  {
    var n := |ys| - 1;
    var init := ys[..n];
    var gi, row := Grid(f, init, ds), Row(f, ys[n], ds);
    assert Grid(f, ys, ds) == gi + row;
    if i < n {
      GridAt(f, init, ds, i, j);
      assert init[..i] == ys[..i] && init[i] == ys[i];
    } else {
      assert ys[..i] == init;
      RowAt(f, ys[n], ds, j);
    }
  }

  /**
   * The combined filters: for each of the first five years, for each of the
   * first four disciplines, the year-and-discipline entry.
   */
  method CombinedEntries(base: string, years: seq<int>, disciplines: seq<Labelled>) returns (combined: seq<Entry>)
    ensures combined == Grid(CombinedBy(base), Take(years, CombinedYears), Take(disciplines, CombinedDisciplines))
  {
    var ys := Take(years, CombinedYears);
    var ds := Take(disciplines, CombinedDisciplines);
    ghost var f := CombinedBy(base);
    combined := [];
    for i := 0 to |ys|
      invariant combined == Grid(f, ys[..i], ds)
    {
      var year := ys[i];
      for j := 0 to |ds|
        invariant combined == Grid(f, ys[..i], ds) + Row(f, year, ds[..j])
      {
        RowStep(f, year, ds, j);
        combined := combined + [CombinedEntry(base, year, ds[j])];
      }
      GridStep(f, ys, ds, i);
    }
    assert ys[..|ys|] == ys;
  }

  /** One more discipline adds its entry at the end of the year's row. */
  lemma RowStep<Y, D, E>(f: (Y, D) -> E, year: Y, ds: seq<D>, j: nat)
    requires j < |ds|
    ensures Row(f, year, ds[..j + 1]) == Row(f, year, ds[..j]) + [f(year, ds[j])]
  {
    assert ds[..j + 1][..j] == ds[..j];
  }

  /** One more year adds its whole row at the end. */
  lemma GridStep<Y, D, E>(f: (Y, D) -> E, ys: seq<Y>, ds: seq<D>, i: nat)
    requires i < |ys|
    ensures Grid(f, ys[..i + 1], ds) == Grid(f, ys[..i], ds) + Row(f, ys[i], ds[..|ds|])
  {
    assert ys[..i + 1][..i] == ys[..i];
    assert ds[..|ds|] == ds;
  }

  /** What the site map holds: everything in order on success, the static pages after any failed lookup. */
  function SitemapEntries(env: Option<string>, questions: Option<seq<Question>>,
                          disciplines: Option<seq<Labelled>>, years: Option<seq<int>>): seq<Entry>
  {
    var base := BaseUrl(env);
    if questions.None? || disciplines.None? || years.None? then StaticEntries(base)
    else
      StaticEntries(base)
      + Map(QuestionBy(base), questions.value)
      + Map(DisciplineBy(base), disciplines.value)
      + Map(YearBy(base), years.value)
      + Grid(CombinedBy(base), Take(years.value, CombinedYears), Take(disciplines.value, CombinedDisciplines))
  }

  /**
   * `sitemap`: the lookups' results are parameters, `None` for a lookup that
   * threw.
   */
  method BuildSitemap(env: Option<string>, questions: Option<seq<Question>>,
                      disciplines: Option<seq<Labelled>>, years: Option<seq<int>>)
    returns (entries: seq<Entry>)
    ensures entries == SitemapEntries(env, questions, disciplines, years)
  {
    var base := if env.Some? && env.value != "" then env.value else DefaultBaseUrl;
    var staticUrls := [Entry(base, Now, Daily, 10), Entry(base + "/questoes", Now, Daily, 8)];
    if questions.None? || disciplines.None? || years.None? {
      return staticUrls;
    }
    var questionUrls := Map(QuestionBy(base), questions.value);
    var disciplineUrls := Map(DisciplineBy(base), disciplines.value);
    var yearUrls := Map(YearBy(base), years.value);
    var combinedUrls := CombinedEntries(base, years.value, disciplines.value);
    entries := staticUrls + questionUrls + disciplineUrls + yearUrls + combinedUrls;
  }

  /** Any failed lookup leaves exactly the home page and the question list. */
  lemma FallbackIsStatic(env: Option<string>, questions: Option<seq<Question>>,
                         disciplines: Option<seq<Labelled>>, years: Option<seq<int>>)
    requires questions.None? || disciplines.None? || years.None?
    ensures var r := SitemapEntries(env, questions, disciplines, years);
      && |r| == 2
      && r[0] == Entry(BaseUrl(env), Now, Daily, 10)
      && r[1] == Entry(BaseUrl(env) + "/questoes", Now, Daily, 8)
  {
  }

  function Min(a: nat, b: nat): nat {
    if a < b then a else b
  }

  /**
   * On success the site map is the two static pages, then the question,
   * discipline and year entries (one per item, in the items' order), then the
   * combined entries.
   */
  lemma SitemapLayout(env: Option<string>, qs: seq<Question>, ds: seq<Labelled>, ys: seq<int>)
    ensures var r := SitemapEntries(env, Some(qs), Some(ds), Some(ys));
            var base := BaseUrl(env);
            var q0, d0, y0, c0 := 2, 2 + |qs|, 2 + |qs| + |ds|, 2 + |qs| + |ds| + |ys|;
      && c0 <= |r|
      && r[..q0] == StaticEntries(base)
      && r[q0..d0] == Map(QuestionBy(base), qs)
      && r[d0..y0] == Map(DisciplineBy(base), ds)
      && r[y0..c0] == Map(YearBy(base), ys)
      && r[c0..] == Grid(CombinedBy(base), Take(ys, CombinedYears), Take(ds, CombinedDisciplines))
  {
    var base := BaseUrl(env);
    var a := StaticEntries(base);
    var b := Map(QuestionBy(base), qs);
    var c := Map(DisciplineBy(base), ds);
    var d := Map(YearBy(base), ys);
    var g := Grid(CombinedBy(base), Take(ys, CombinedYears), Take(ds, CombinedDisciplines));
    var r := SitemapEntries(env, Some(qs), Some(ds), Some(ys));
    assert r == a + b + c + d + g;
    assert |a| == 2 && |b| == |qs| && |c| == |ds| && |d| == |ys|;
    Pieces(r, a, b, c, d, g);
  }

  /** Where the pieces of a five-part concatenation sit. */
  lemma Pieces<T>(r: seq<T>, a: seq<T>, b: seq<T>, c: seq<T>, d: seq<T>, g: seq<T>)
    requires r == a + b + c + d + g
    ensures var i, j, k, l := |a|, |a| + |b|, |a| + |b| + |c|, |a| + |b| + |c| + |d|;
      && l <= |r| && r[..i] == a && r[i..j] == b && r[j..k] == c && r[k..l] == d && r[l..] == g
  {
  }

  /**
   * On success there are `2 + |questions| + |disciplines| + |years|` entries
   * before the combined ones, and `min(5, |years|) * min(4, |disciplines|)`
   * combined ones.
   */
  lemma SitemapSize(env: Option<string>, qs: seq<Question>, ds: seq<Labelled>, ys: seq<int>)
    ensures |SitemapEntries(env, Some(qs), Some(ds), Some(ys))|
            == 2 + |qs| + |ds| + |ys| + Min(|ys|, CombinedYears) * Min(|ds|, CombinedDisciplines)
  {
    var ty, td := Take(ys, CombinedYears), Take(ds, CombinedDisciplines);
    GridLength(CombinedBy(BaseUrl(env)), ty, td);
    assert |ty| == Min(|ys|, CombinedYears) && |td| == Min(|ds|, CombinedDisciplines);
  }

  /**
   * The combined entry for the `i`-th of the first five years and the `j`-th
   * of the first four disciplines is at `i * min(4, |disciplines|) + j` of the
   * combined part.
   */
  lemma CombinedYearMajor(base: string, ys: seq<int>, ds: seq<Labelled>, i: nat, j: nat)
    requires i < Min(|ys|, CombinedYears) && j < Min(|ds|, CombinedDisciplines)
    ensures var g := Grid(CombinedBy(base), Take(ys, CombinedYears), Take(ds, CombinedDisciplines));
      i * Min(|ds|, CombinedDisciplines) + j < |g|
      && g[i * Min(|ds|, CombinedDisciplines) + j] == CombinedEntry(base, ys[i], ds[j])
  {
    var ty, td := Take(ys, CombinedYears), Take(ds, CombinedDisciplines);
    GridAt(CombinedBy(base), ty, td, i, j);
    GridLength(CombinedBy(base), ty[..i], td);
    assert |td| == Min(|ds|, CombinedDisciplines);
    assert ty[i] == ys[i] && td[j] == ds[j];
  }
}
