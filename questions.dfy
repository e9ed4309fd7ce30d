/**
 * Question records as the service sends them and as the application keeps
 * them: the validator that rejects unusable records and fills in defaults,
 * and the normalisation that makes every image URL absolute.
 */
module Questions {
  import opened Wrappers
  import opened Text
  import opened Seqs
  import opened UrlRule
  import opened MarkdownScan

  /**
   * A JSON value where the code expects an array: missing or falsy, some
   * other truthy value (on which `.map` throws), or an array.
   */
  datatype RawList<T> = Falsy | NotArray | Items(items: seq<T>)

  /** A `{ label, value }` pair; `label` is a reserved word in Dafny, so the field is `text`. */
  datatype Labelled = Labelled(text: string, value: string)

  /**
   * An alternative. Every field may be missing; `isCorrect` is `None` when it
   * is missing or not a boolean.
   */
  datatype Alternative = Alternative(
    letter: Option<string>,
    text: Option<string>,
    filePath: Option<string>,
    isCorrect: Option<bool>)

  /** The `images` object: its three URL lists. */
  datatype ImageLists<T> = ImageLists(context: RawList<T>, files: RawList<T>, alternatives: RawList<T>)

  /** The `images` object of a cleaned record, every element a string. */
  type Images = ImageLists<string>

  /**
   * The `images` object as received. An element is `None` when it is not a
   * string (`null`, a number, an object), on which `url.startsWith` throws.
   */
  type RawImages = ImageLists<Option<string>>

  /** A question record as received; every field may be missing, and an alternative may be `null`. */
  datatype RawQuestion = RawQuestion(
    id: Option<int>,
    title: Option<string>,
    index: Option<int>,
    year: Option<int>,
    context: Option<string>,
    alternativesIntroduction: Option<string>,
    correctAlternative: Option<string>,
    discipline: Option<Labelled>,
    language: Option<Labelled>,
    alternatives: RawList<Option<Alternative>>,
    files: RawList<Option<string>>,
    images: Option<RawImages>)

  /** A question the application works with. */
  datatype Question = Question(
    id: int,
    title: string,
    index: int,
    year: int,
    context: string,
    alternativesIntroduction: string,
    correctAlternative: string,
    discipline: Option<Labelled>,
    language: Option<Labelled>,
    alternatives: seq<Alternative>,
    files: seq<string>,
    images: Images)

  /** JavaScript truthiness of an optional number and of an optional string. */
  predicate TruthyInt(v: Option<int>) { v.Some? && v.value != 0 }
  predicate TruthyString(v: Option<string>) { v.Some? && v.value != "" }

  /** `v || fallback` for strings. */
  function StringOr(v: Option<string>, fallback: string): string {
    if TruthyString(v) then v.value else fallback
  }

  /** `v || fallback` for numbers. */
  function IntOr(v: Option<int>, fallback: int): int {
    if TruthyInt(v) then v.value else fallback
  }

  /** `alt.letter && alt.text && typeof alt.isCorrect === 'boolean'` */
  predicate IsValidAlternative(a: Alternative) {
    TruthyString(a.letter) && TruthyString(a.text) && a.isCorrect.Some?
  }

  /** `![](url)`: what the context rewrite puts in place of each empty-alt image. */
  function EmptyAltImage(url: string): string {
    "![](" + url + ")"
  }

  /** The empty-alt images of `context` with their URLs absolutised, the rest of the text as it is. */
  function RewriteContext(context: string): string {
    ReplaceUrls(EmptyAlt, context, 0, u => EmptyAltImage(AbsoluteUrl(u)))
  }

  /** A list of URLs is absolutised element by element when it is an array. */
  function NormalizeList(l: RawList<string>): (r: RawList<string>)
    ensures l.Items? <==> r.Items?
    ensures l.Items? ==> |r.items| == |l.items| && forall k :: 0 <= k < |l.items| ==> r.items[k] == AbsoluteUrl(l.items[k])
    ensures !l.Items? ==> r == l
  {
    if l.Items? then Items(MapStrings(AbsoluteUrl, l.items)) else l
  }

  function NormalizeImages(v: Images): Images {
    ImageLists(NormalizeList(v.context), NormalizeList(v.files), NormalizeList(v.alternatives))
  }

  /** `alt.filePath ? normalizeUrl(alt.filePath) : alt.filePath` */
  function NormalizeAlternative(a: Alternative): (r: Alternative)
    ensures r.letter == a.letter && r.text == a.text && r.isCorrect == a.isCorrect
    ensures TruthyString(a.filePath) ==> r.filePath == Some(AbsoluteUrl(a.filePath.value))
    ensures !TruthyString(a.filePath) ==> r.filePath == a.filePath
  {
    if TruthyString(a.filePath) then a.(filePath := Some(AbsoluteUrl(a.filePath.value))) else a
  }

  /**
   * `normalizeImageUrls` on a cleaned record: only the URL-bearing fields
   * change, the lists keep their lengths, an alternative changes only in its
   * `filePath`, and an empty context stays empty.
   */
  function NormalizeImageUrls(q: Question): (r: Question)
    ensures r.id == q.id && r.title == q.title && r.index == q.index && r.year == q.year
    ensures r.alternativesIntroduction == q.alternativesIntroduction && r.correctAlternative == q.correctAlternative
    ensures r.discipline == q.discipline && r.language == q.language
    ensures q.context == "" ==> r.context == ""
    ensures |r.files| == |q.files| && StripFilePaths(r.alternatives) == StripFilePaths(q.alternatives)
  {
    q.(context := if q.context != "" then RewriteContext(q.context) else q.context,
       files := MapStrings(AbsoluteUrl, q.files),
       images := NormalizeImages(q.images),
       alternatives := NormalizeAlternatives(q.alternatives))
  }

  /** `alternatives.map(alt => ({ ...alt, filePath: … }))` */
  function NormalizeAlternatives(alts: seq<Alternative>): (r: seq<Alternative>)
    ensures |r| == |alts| && forall k :: 0 <= k < |alts| ==> r[k] == NormalizeAlternative(alts[k])
    ensures StripFilePaths(r) == StripFilePaths(alts)
  {
    var r := seq(|alts|, k requires 0 <= k < |alts| => NormalizeAlternative(alts[k]));
    assert forall k :: 0 <= k < |alts| ==> StripFilePaths(r)[k] == StripFilePaths(alts)[k];
    r
  }

  /** The record has `id`, `title` and an array of alternatives; the first property test. */
  predicate HasRequiredFields(q: RawQuestion) {
    TruthyInt(q.id) && TruthyString(q.title) && q.alternatives.Items?
  }

  /** An array element that is `null` makes `alt.letter` throw inside the filter. */
  predicate HasNullAlternative(q: RawQuestion)
    requires q.alternatives.Items?
  {
    exists k :: 0 <= k < |q.alternatives.items| && q.alternatives.items[k].None?
  }

  /** The alternatives of a record with no `null` element. */
  function PresentAlternatives(q: RawQuestion): (r: seq<Alternative>)
    requires q.alternatives.Items? && !HasNullAlternative(q)
    ensures |r| == |q.alternatives.items|
    ensures forall k :: 0 <= k < |r| ==> Some(r[k]) == q.alternatives.items[k]
  {
    var items := q.alternatives.items;
    seq(|items|, k requires 0 <= k < |items| => items[k].value)
  }

  /** The default `images` object `{ context: [], files: [], alternatives: [] }`. */
  const NoImages: Images := ImageLists(Items([]), Items([]), Items([]))

  /**
   * `list.map(normalizeUrl)` throws: the list is a truthy value that is not
   * an array, or an array holding an element that is not a string.
   */
  predicate Unmappable(l: RawList<Option<string>>) {
    l.NotArray? || (l.Items? && exists k :: 0 <= k < |l.items| && l.items[k].None?)
  }

  /** A list that can be mapped, with its elements as the strings they are. */
  function Strings(l: RawList<Option<string>>): (r: RawList<string>)
    requires !Unmappable(l)
    ensures l.Falsy? <==> r.Falsy?
    ensures l.Items? ==> r.Items? && |r.items| == |l.items| && forall k :: 0 <= k < |l.items| ==> Some(r.items[k]) == l.items[k]
  {
    match l
    case Falsy => Falsy
    case Items(xs) => Items(seq(|xs|, k requires 0 <= k < |xs| => xs[k].value))
  }

  predicate UnmappableImages(v: RawImages) {
    Unmappable(v.context) || Unmappable(v.files) || Unmappable(v.alternatives)
  }

  function StringImages(v: RawImages): Images
    requires !UnmappableImages(v)
  {
    ImageLists(Strings(v.context), Strings(v.files), Strings(v.alternatives))
  }

  /** One of the URL lists the normalisation maps makes it throw. */
  predicate HasUnmappableList(q: RawQuestion) {
    Unmappable(q.files) || (q.images.Some? && UnmappableImages(q.images.value))
  }

  /**
   * What `validateAndCleanQuestion` does with a record: returns a cleaned
   * question, returns `null`, or throws.
   */
  datatype Validation = Accepted(question: Question) | Rejected | Throws

  /**
   * `validateAndCleanQuestion`. Anything that throws inside the `try` (a
   * `null` alternative, `.map` on a non-array, `startsWith` on a non-string
   * URL) is caught and gives `null`, as do the two explicit rejections. A
   * missing (`null`) record throws there too, and the `catch` reads
   * `question.id` on it again, so that error escapes: the validator throws.
   * `currentYear` stands for `new Date().getFullYear()`.
   */
  function ValidateAndCleanQuestion(raw: Option<RawQuestion>, currentYear: int): (r: Validation)
    ensures r.Throws? <==> raw.None?
    ensures r.Accepted? ==> TruthyInt(raw.value.id) && r.question.id == raw.value.id.value && r.question.title != ""
  {
    if raw.None? then Throws
    else
      var q := raw.value;
      if !HasRequiredFields(q) || HasNullAlternative(q) then Rejected
      else
        var valid := Filter(PresentAlternatives(q), IsValidAlternative);
        if |valid| == 0 || HasUnmappableList(q) then Rejected
        else
          var cleaned := Question(
            q.id.value,
            StringOr(q.title, ""),
            IntOr(q.index, 0),
            IntOr(q.year, currentYear),
            StringOr(q.context, ""),
            StringOr(q.alternativesIntroduction, ""),
            StringOr(q.correctAlternative, ""),
            q.discipline,
            q.language,
            valid,
            if q.files.Items? then Strings(q.files).items else [],
            if q.images.Some? then StringImages(q.images.value) else NoImages);
          Accepted(NormalizeImageUrls(cleaned))
  }

  /**
   * A missing record throws. A present one is rejected exactly when it lacks
   * a truthy `id` or `title` or an alternatives array, has a `null`
   * alternative, has no valid alternative, or has a URL list that is a
   * truthy non-array or holds a non-string; otherwise it is accepted.
   */
  lemma RejectedExactly(raw: Option<RawQuestion>, currentYear: int)
    ensures ValidateAndCleanQuestion(raw, currentYear).Throws? <==> raw.None?
    ensures ValidateAndCleanQuestion(raw, currentYear).Rejected? <==>
      raw.Some? &&
      (|| !HasRequiredFields(raw.value)
       || HasNullAlternative(raw.value)
       || (forall k :: 0 <= k < |raw.value.alternatives.items| ==> !IsValidAlternative(raw.value.alternatives.items[k].value))
       || HasUnmappableList(raw.value))
  {
    if raw.Some? && HasRequiredFields(raw.value) && !HasNullAlternative(raw.value) {
      var q := raw.value;
      var alts := PresentAlternatives(q);
      var valid := Filter(alts, IsValidAlternative);
      if |valid| == 0 {
        forall k | 0 <= k < |alts| ensures !IsValidAlternative(alts[k]) {
          assert multiset(alts)[alts[k]] > 0;
        }
      } else {
        assert valid[0] in multiset(valid);
        assert multiset(alts)[valid[0]] > 0;
        var k :| 0 <= k < |alts| && alts[k] == valid[0];
        assert IsValidAlternative(q.alternatives.items[k].value);
      }
    }
  }

  /**
   * An accepted record takes the documented defaults: `''` for the texts,
   * `0` for the index, the current year, `[]` for the files and an empty
   * `images` object; the labelled fields are kept as they are.
   */
  lemma AcceptedDefaults(raw: Option<RawQuestion>, currentYear: int)
    requires ValidateAndCleanQuestion(raw, currentYear).Accepted?
    ensures var r, q := ValidateAndCleanQuestion(raw, currentYear).question, raw.value;
      && r.id == q.id.value && r.title == q.title.value
      && r.index == (if TruthyInt(q.index) then q.index.value else 0)
      && r.year == (if TruthyInt(q.year) then q.year.value else currentYear)
      && r.alternativesIntroduction == StringOr(q.alternativesIntroduction, "")
      && r.correctAlternative == StringOr(q.correctAlternative, "")
      && r.context == (if TruthyString(q.context) then RewriteContext(q.context.value) else "")
      && r.discipline == q.discipline && r.language == q.language
      && r.files == MapStrings(AbsoluteUrl, if q.files.Items? then Strings(q.files).items else [])
      && r.images == NormalizeImages(if q.images.Some? then StringImages(q.images.value) else NoImages)
  {
  }

  /**
   * An accepted record keeps exactly its valid alternatives, in order, each
   * with its `filePath` absolutised: every valid alternative is kept, and
   * only valid ones.
   */
  lemma AcceptedAlternatives(raw: Option<RawQuestion>, currentYear: int)
    requires ValidateAndCleanQuestion(raw, currentYear).Accepted?
    ensures var r, q := ValidateAndCleanQuestion(raw, currentYear).question, raw.value;
            var valid := Filter(PresentAlternatives(q), IsValidAlternative);
      && |r.alternatives| == |valid| > 0
      && (forall k :: 0 <= k < |valid| ==> r.alternatives[k] == NormalizeAlternative(valid[k]))
      && StripFilePaths(r.alternatives) == StripFilePaths(valid)
      && (forall k :: 0 <= k < |r.alternatives| ==> IsValidAlternative(r.alternatives[k]))
      && IsSubsequence(StripFilePaths(r.alternatives), StripFilePaths(PresentAlternatives(q)))
  {
    var q := raw.value;
    var valid := Filter(PresentAlternatives(q), IsValidAlternative);
    var r := ValidateAndCleanQuestion(raw, currentYear).question;
    forall k | 0 <= k < |valid| ensures IsValidAlternative(valid[k]) {
      assert multiset(valid)[valid[k]] > 0;
    }
    assert StripFilePaths(r.alternatives) == StripFilePaths(valid);
    SubsequenceMap(valid, PresentAlternatives(q));
  }

  /** The alternatives without their `filePath`, which is the only field normalisation changes. */
  function StripFilePaths(alts: seq<Alternative>): (r: seq<Alternative>)
    ensures |r| == |alts| && forall k :: 0 <= k < |alts| ==> r[k] == alts[k].(filePath := None)
  {
    seq(|alts|, k requires 0 <= k < |alts| => alts[k].(filePath := None))
  }

  lemma {:induction false} SubsequenceMap(a: seq<Alternative>, b: seq<Alternative>)
    requires IsSubsequence(a, b)
    ensures IsSubsequence(StripFilePaths(a), StripFilePaths(b))
    decreases |b|
  {
    if a != [] {
      var sa, sb := StripFilePaths(a), StripFilePaths(b);
      assert StripFilePaths(b[..|b| - 1]) == sb[..|sb| - 1];
      if a[|a| - 1] == b[|b| - 1] {
        SubsequenceMap(a[..|a| - 1], b[..|b| - 1]);
        assert StripFilePaths(a[..|a| - 1]) == sa[..|sa| - 1];
      } else {
        SubsequenceMap(a, b[..|b| - 1]);
        if sa[|sa| - 1] == sb[|sb| - 1] {
          SubsequenceDropLast(sa, sb[..|sb| - 1]);
          assert StripFilePaths(a[..|a| - 1]) == sa[..|sa| - 1];
        }
      }
    }
  }

  /** After normalisation every file URL, every listed image URL and every present `filePath` is absolute. */
  lemma NormalizedUrlsAbsolute(q: Question)
    ensures var r := NormalizeImageUrls(q);
      && (forall k :: 0 <= k < |r.files| ==> IsAbsolute(r.files[k]))
      && (r.images.context.Items? ==> forall k :: 0 <= k < |r.images.context.items| ==> IsAbsolute(r.images.context.items[k]))
      && (r.images.files.Items? ==> forall k :: 0 <= k < |r.images.files.items| ==> IsAbsolute(r.images.files.items[k]))
      && (r.images.alternatives.Items? ==> forall k :: 0 <= k < |r.images.alternatives.items| ==> IsAbsolute(r.images.alternatives.items[k]))
      && (forall k :: 0 <= k < |r.alternatives| && TruthyString(r.alternatives[k].filePath) ==> IsAbsolute(r.alternatives[k].filePath.value))
  {
  }

  /**
   * Normalising the URL lists twice is normalising them once, so a shared
   * `images` object that is normalised again does not change.
   */
  lemma NormalizeImagesIdempotent(v: Images)
    ensures NormalizeImages(NormalizeImages(v)) == NormalizeImages(v)
  {
    forall l: RawList<string> | true ensures NormalizeList(NormalizeList(l)) == NormalizeList(l) {
      if l.Items? {
        forall k | 0 <= k < |l.items| ensures AbsoluteUrl(AbsoluteUrl(l.items[k])) == AbsoluteUrl(l.items[k]) {
          AbsoluteUrlIdempotent(l.items[k]);
        }
      }
    }
  }

  /** Every empty-alt image match is `![](url)` around its URL capture. */
  lemma EmptyAltMatchText(s: string, m: Match)
    requires IsMatch(EmptyAlt, s, m)
    ensures Raw(s, m) == EmptyAltImage(Url(s, m))
  {
    var a := m.start;
    assert s[a..End(m)] == s[a..a + 4] + Url(s, m) + s[m.urlEnd..End(m)];
    assert s[a..a + 4] == [s[a], s[a + 1], s[a + 2], s[a + 3]];
  }

  /**
   * The context rewrite changes only the URL inside each `![](...)`: the
   * original text and the rewritten one interleave the same gaps with the
   * same images, before and after absolutising their URLs.
   */
  lemma ContextRewriteKeepsText(context: string)
    ensures var gaps, urls := Gaps(EmptyAlt, context, 0), ImageUrls(EmptyAlt, context);
      && context == Interleave(gaps, MapStrings(EmptyAltImage, urls))
      && RewriteContext(context) == Interleave(gaps, MapStrings(u => EmptyAltImage(AbsoluteUrl(u)), urls))
  {
    var ms := AllMatches(EmptyAlt, context, 0);
    Tiling(EmptyAlt, context, 0);
    AllMatchesAreMatches(EmptyAlt, context, 0);
    var raws := Raws(context, ms);
    forall k | 0 <= k < |ms| ensures raws[k] == EmptyAltImage(Url(context, ms[k])) {
      RawsAt(context, ms, k);
      EmptyAltMatchText(context, ms[k]);
    }
    assert raws == MapStrings(EmptyAltImage, Urls(context, ms));
    assert context[0..] == context;
    ReplaceKeepsGaps(EmptyAlt, context, 0, u => EmptyAltImage(AbsoluteUrl(u)));
  }

  /** The `k`-th matched text. */
  lemma {:induction false} RawsAt(s: string, ms: seq<Match>, k: nat)
    requires AllInBounds(s, ms) && k < |ms|
    ensures Raws(s, ms)[k] == Raw(s, ms[k])
    decreases k
  {
    if k > 0 {
      RawsAt(s, ms[1..], k - 1);
    }
  }

  /** A context whose image URLs are all absolute already is left as it is. */
  lemma RewriteKeepsAbsoluteContext(context: string)
    requires forall k :: 0 <= k < |ImageUrls(EmptyAlt, context)| ==> IsAbsolute(ImageUrls(EmptyAlt, context)[k])
    ensures RewriteContext(context) == context
  {
    ContextRewriteKeepsText(context);
    var urls := ImageUrls(EmptyAlt, context);
    assert MapStrings(u => EmptyAltImage(AbsoluteUrl(u)), urls) == MapStrings(EmptyAltImage, urls);
  }

  /** `list.map(normalizeUrl)` on a list that can be mapped, written back as it is stored. */
  function NormalizeRawList(l: RawList<Option<string>>): (r: RawList<Option<string>>)
    requires !Unmappable(l)
    ensures !Unmappable(r) && Strings(r) == NormalizeList(Strings(l))
  {
    match l
    case Falsy => Falsy
    case Items(xs) =>
      var ys := seq(|xs|, k requires 0 <= k < |xs| => Some(AbsoluteUrl(xs[k].value)));
      assert Strings(Items(ys)).items == MapStrings(AbsoluteUrl, Strings(l).items);
      Items(ys)
  }

  /**
   * The `images` object of a raw record. The copy the validator makes is
   * shallow, so the cleaned record shares this object with the raw one, and
   * normalisation overwrites its lists in place, one after the other.
   */
  class ImagesObject {
    var context: RawList<Option<string>>
    var files: RawList<Option<string>>
    var alternatives: RawList<Option<string>>

    function Value(): RawImages
      reads this
    {
      ImageLists(context, files, alternatives)
    }

    constructor(v: RawImages)
      ensures Value() == v
    {
      context, files, alternatives := v.context, v.files, v.alternatives;
    }

    /**
     * Replace each list by its absolutised copy, in the order context, files,
     * alternatives. `.map` throws (`ok` is false) on a truthy non-array or on
     * a non-string element, before its list is assigned, and leaves the lists
     * rewritten before it in their new state.
     */
    method NormalizeInPlace() returns (ok: bool)
      modifies this
      ensures Unmappable(old(context)) ==> !ok && Value() == old(Value())
      ensures !Unmappable(old(context)) && Unmappable(old(files)) ==>
                !ok && Value() == old(Value()).(context := NormalizeRawList(old(context)))
      ensures !Unmappable(old(context)) && !Unmappable(old(files)) && Unmappable(old(alternatives)) ==>
                !ok && Value() == old(Value()).(context := NormalizeRawList(old(context)), files := NormalizeRawList(old(files)))
      ensures !UnmappableImages(old(Value())) ==>
                ok && !UnmappableImages(Value()) && StringImages(Value()) == NormalizeImages(StringImages(old(Value())))
    {
      if Unmappable(context) { return false; }
      context := NormalizeRawList(context);
      if Unmappable(files) { return false; }
      files := NormalizeRawList(files);
      if Unmappable(alternatives) { return false; }
      alternatives := NormalizeRawList(alternatives);
      return true;
    }
  }
}
