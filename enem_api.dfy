/**
 * The question service client: five read operations that answer from the
 * cache while an entry is live and otherwise call the service through
 * `withRetry`, storing a successful answer for a per-resource lifetime.
 *
 * The service is given as the response to each attempt (`respond(k)` for the
 * k-th call), the clock as `now` (when the cache is read) and `doneAt` (when a
 * successful answer is stored), and the current year as `currentYear`.
 */
module EnemApi {
  import opened Wrappers
  import opened Text
  import opened TtlCache
  import opened Retry
  import opened Questions
  import opened Seqs

  const Minute: int := 60 * 1000
  const DisciplinesTtl: int := 5 * Minute
  const QuestionsTtl: int := 10 * Minute
  const RandomQuestionsTtl: int := 2 * Minute
  const QuestionByIdTtl: int := 30 * Minute
  const YearsTtl: int := 30 * Minute

  /** Every operation allows three attempts. */
  const MaxRetries: int := 3
  const DisciplinesDelay: int := 1000
  const QuestionsDelay: int := 1500
  const RandomQuestionsDelay: int := 2000
  const QuestionByIdDelay: int := 1000
  const YearsDelay: int := 1000

  const DisciplinesKey: string := "disciplines"
  const YearsKey: string := "available_years"

  function QuestionsKey(discipline: string, limit: int): string {
    "questions_" + discipline + "_" + IntToString(limit)
  }

  function RandomQuestionsKey(limit: int): string {
    "random_questions_" + IntToString(limit)
  }

  function QuestionKey(id: int): string {
    "question_" + IntToString(id)
  }

  /** What the cache holds, tagged with the resource it came from. */
  datatype CachedData =
    | DisciplineList(disciplines: seq<Labelled>)
    | QuestionList(questions: seq<Question>)
    | OneQuestion(question: Question)
    | YearList(years: seq<int>)

  /** The key an entry is stored under tells its resource. */
  predicate Tagged(key: string, data: CachedData) {
    match data
    case DisciplineList(_) => key == DisciplinesKey
    case YearList(_) => key == YearsKey
    case QuestionList(_) => StartsWith(key, "questions_") || StartsWith(key, "random_questions_")
    case OneQuestion(_) => StartsWith(key, "question_")
  }

  predicate WellTagged(entries: map<string, Entry<CachedData>>) {
    forall key :: key in entries ==> Tagged(key, entries[key].data)
  }

  lemma PrefixOfConcat(p: string, rest: string)
    ensures StartsWith(p + rest, p)
  {
    assert (p + rest)[..|p|] == p;
  }

  /** A string that differs from `p` at one of `p`'s positions does not start with `p`. */
  lemma DiffersAt(s: string, p: string, i: nat)
    requires i < |p| && i < |s| && s[i] != p[i]
    ensures !StartsWith(s, p)
  {
    assert |p| <= |s| ==> s[..|p|][i] == s[i];
  }

  /** Each key names its resource: an entry tagged for the key holds that resource's data. */
  lemma QuestionsKeyTag(discipline: string, limit: int, data: CachedData)
    ensures Tagged(QuestionsKey(discipline, limit), data) ==> data.QuestionList?
  {
    var key := QuestionsKey(discipline, limit);
    assert key == "questions_" + (discipline + "_" + IntToString(limit));
    assert key[0] == 'q' && key[8] == 's';
    DiffersAt(key, "question_", 8);
  }

  lemma RandomQuestionsKeyTag(limit: int, data: CachedData)
    ensures Tagged(RandomQuestionsKey(limit), data) ==> data.QuestionList?
  {
    var key := RandomQuestionsKey(limit);
    PrefixOfConcat("random_questions_", IntToString(limit));
    assert key[0] == 'r';
    DiffersAt(key, "question_", 0);
  }

  lemma QuestionKeyTag(id: int, data: CachedData)
    ensures Tagged(QuestionKey(id), data) ==> data.OneQuestion?
  {
    var key := QuestionKey(id);
    PrefixOfConcat("question_", IntToString(id));
    assert key[0] == 'q' && key[8] == '_';
    DiffersAt(key, "questions_", 8);
    DiffersAt(key, "random_questions_", 0);
  }

  lemma FixedKeyTags(data: CachedData)
    ensures Tagged(DisciplinesKey, data) ==> data.DisciplineList?
    ensures Tagged(YearsKey, data) ==> data.YearList?
  {
    DiffersAt(DisciplinesKey, "questions_", 0);
    DiffersAt(DisciplinesKey, "random_questions_", 0);
    DiffersAt(DisciplinesKey, "question_", 0);
    DiffersAt(YearsKey, "questions_", 0);
    DiffersAt(YearsKey, "random_questions_", 0);
    DiffersAt(YearsKey, "question_", 0);
  }

  /** The keys of different resources never collide. */
  lemma KeysDistinct(discipline: string, limit: int, limit': int, id: int)
    ensures QuestionsKey(discipline, limit) != RandomQuestionsKey(limit')
    ensures QuestionsKey(discipline, limit) != QuestionKey(id)
    ensures RandomQuestionsKey(limit') != QuestionKey(id)
    ensures DisciplinesKey !in {QuestionsKey(discipline, limit), RandomQuestionsKey(limit'), QuestionKey(id), YearsKey}
    ensures YearsKey !in {QuestionsKey(discipline, limit), RandomQuestionsKey(limit'), QuestionKey(id)}
  {
    var qk, rk, ik := QuestionsKey(discipline, limit), RandomQuestionsKey(limit'), QuestionKey(id);
    assert qk[0] == 'q' && rk[0] == 'r' && ik[0] == 'q' && qk[8] == 's' && ik[8] == '_';
  }

  /**
   * Different requests give different keys: different disciplines or limits,
   * different random-question limits, or different ids. A discipline may hold
   * `_`, but a rendered limit never does, so the last `_` of a
   * `questions_…` key is where the limit starts.
   */
  lemma KeysInjective(discipline: string, discipline': string, limit: int, limit': int, id: int, id': int)
    ensures QuestionsKey(discipline, limit) == QuestionsKey(discipline', limit') ==> discipline == discipline' && limit == limit'
    ensures RandomQuestionsKey(limit) == RandomQuestionsKey(limit') ==> limit == limit'
    ensures QuestionKey(id) == QuestionKey(id') ==> id == id'
  {
    if QuestionsKey(discipline, limit) == QuestionsKey(discipline', limit') {
      var h, h' := "questions_" + discipline, "questions_" + discipline';
      NoUnderscore(limit);
      NoUnderscore(limit');
      assert QuestionsKey(discipline, limit) == h + ['_'] + IntToString(limit);
      assert QuestionsKey(discipline', limit') == h' + ['_'] + IntToString(limit');
      SplitAtLast(h, IntToString(limit), h', IntToString(limit'), '_');
      assert discipline == h[10..] && discipline' == h'[10..];
      IntToStringInjective(limit, limit');
    }
    var p, q := "random_questions_", "question_";
    if RandomQuestionsKey(limit) == RandomQuestionsKey(limit') {
      assert RandomQuestionsKey(limit)[|p|..] == IntToString(limit);
      assert RandomQuestionsKey(limit')[|p|..] == IntToString(limit');
      IntToStringInjective(limit, limit');
    }
    if QuestionKey(id) == QuestionKey(id') {
      assert QuestionKey(id)[|q|..] == IntToString(id);
      assert QuestionKey(id')[|q|..] == IntToString(id');
      IntToStringInjective(id, id');
    }
  }

  /** `Array.isArray(response.data) ? response.data : []` */
  function ArrayOrEmpty<T>(body: RawList<T>): seq<T> {
    if body.Items? then body.items else []
  }

  /** One call of the disciplines operation: any response body is accepted. */
  function DisciplinesOperation(respond: nat -> Outcome<RawList<Labelled>>): nat -> Outcome<seq<Labelled>> {
    (k: nat) => match respond(k)
         case Ok(body) => Ok(ArrayOrEmpty(body))
         case Err(f) => Err(f)
  }

  /** One call of the years operation: any response body is accepted. */
  function YearsOperation(respond: nat -> Outcome<RawList<int>>): nat -> Outcome<seq<int>> {
    (k: nat) => match respond(k)
         case Ok(body) => Ok(ArrayOrEmpty(body))
         case Err(f) => Err(f)
  }

  /** `validateAndCleanQuestion` as the function `rawQuestions.map` applies. */
  function ValidationBy(currentYear: int): Option<RawQuestion> -> Validation {
    raw => ValidateAndCleanQuestion(raw, currentYear)
  }

  function AcceptedOf(q: Question): Validation {
    Accepted(q)
  }

  predicate IsAccepted(v: Validation) {
    v.Accepted?
  }

  /**
   * `rawQuestions.map(validateAndCleanQuestion).filter(q => q !== null)`:
   * `None` when the `map` throws, which a `null` record makes it do;
   * otherwise the accepted records, in order.
   */
  function ValidQuestions(raws: seq<Option<RawQuestion>>, currentYear: int): Option<seq<Question>> {
    if raws == [] then Some([])
    else
      match ValidateAndCleanQuestion(raws[0], currentYear)
      case Throws => None
      case Rejected => ValidQuestions(raws[1..], currentYear)
      case Accepted(q) =>
        var rest := ValidQuestions(raws[1..], currentYear);
        if rest.None? then None else Some([q] + rest.value)
  }

  /** The `map` throws exactly when some record is `null`. */
  lemma {:induction false} ValidQuestionsThrow(raws: seq<Option<RawQuestion>>, currentYear: int)
    ensures ValidQuestions(raws, currentYear).None? <==> exists k :: 0 <= k < |raws| && raws[k].None?
  {
    if raws != [] {
      ValidQuestionsThrow(raws[1..], currentYear);
      assert forall k :: 0 < k < |raws| ==> raws[k] == raws[1..][k - 1];
    }
  }

  /**
   * When the `map` does not throw, the result is exactly the accepted
   * validations, in order: every accepted record is kept, and nothing else.
   */
  lemma {:induction false} ValidQuestionsAccepted(raws: seq<Option<RawQuestion>>, currentYear: int)
    requires ValidQuestions(raws, currentYear).Some?
    ensures Map(AcceptedOf, ValidQuestions(raws, currentYear).value) == Filter(Map(ValidationBy(currentYear), raws), IsAccepted)
  {
    if raws != [] {
      var v := ValidateAndCleanQuestion(raws[0], currentYear);
      var vs := Map(ValidationBy(currentYear), raws[1..]);
      ValidQuestionsAccepted(raws[1..], currentYear);
      assert Map(ValidationBy(currentYear), raws) == [v] + vs;
      FilterCons(v, vs, IsAccepted);
      if v.Accepted? {
        var qs := ValidQuestions(raws[1..], currentYear).value;
        assert ([v.question] + qs)[1..] == qs;
      }
    }
  }

  /** The error thrown when no question survives validation: it has no HTTP status. */
  const NoValidQuestion: Failure := Failure(None)

  /**
   * One call of a question-list operation, given the service's response.
   * `response.data?.data || []` is mapped: a truthy non-array makes `.map`
   * throw, and so does a `null` record; an empty result throws "no valid
   * question". None of these errors carries an HTTP status.
   */
  function QuestionListCall(response: Outcome<RawList<Option<RawQuestion>>>, currentYear: int): (r: Outcome<seq<Question>>)
    ensures response.Err? ==> r == Err(response.failure)
    ensures response.Ok? && r.Err? ==> r.failure.status.None?
    ensures r.Ok? ==> response.Ok? && response.value.Items? && |r.value| > 0
    ensures response.Ok? && response.value.Items? && (exists k :: 0 <= k < |response.value.items| && response.value.items[k].None?) ==>
      r.Err?
  {
    match response
    case Err(f) => Err(f)
    case Ok(body) =>
      if body.NotArray? then Err(Failure(None))
      else
        ValidQuestionsThrow(ArrayOrEmpty(body), currentYear);
        match ValidQuestions(ArrayOrEmpty(body), currentYear)
        case None => Err(Failure(None))
        case Some(valid) => if |valid| == 0 then Err(NoValidQuestion) else Ok(valid)
  }

  /** A successful call returns exactly the accepted records of the response, in order. */
  lemma QuestionListCallAccepted(response: Outcome<RawList<Option<RawQuestion>>>, currentYear: int)
    requires QuestionListCall(response, currentYear).Ok?
    ensures var r := QuestionListCall(response, currentYear);
      Map(AcceptedOf, r.value) == Filter(Map(ValidationBy(currentYear), response.value.items), IsAccepted)
  {
    ValidQuestionsAccepted(response.value.items, currentYear);
  }

  function QuestionListOperation(respond: nat -> Outcome<RawList<Option<RawQuestion>>>, currentYear: int): nat -> Outcome<seq<Question>> {
    (k: nat) => QuestionListCall(respond(k), currentYear)
  }

  /**
   * One call of the by-id operation, given the service's response: the
   * accepted record, or a status-less error when the record is rejected
   * (`Questão … é inválida`) or missing (the validator throws).
   */
  function QuestionByIdCall(response: Outcome<Option<RawQuestion>>, currentYear: int): (r: Outcome<Question>)
    ensures response.Err? ==> r == Err(response.failure)
    ensures response.Ok? && r.Err? ==> r.failure.status.None?
    ensures r.Ok? <==> response.Ok? && ValidateAndCleanQuestion(response.value, currentYear).Accepted?
    ensures r.Ok? ==> r.value == ValidateAndCleanQuestion(response.value, currentYear).question
  {
    match response
    case Err(f) => Err(f)
    case Ok(body) =>
      match ValidateAndCleanQuestion(body, currentYear)
      case Accepted(q) => Ok(q)
      case Rejected => Err(NoValidQuestion)
      case Throws => Err(Failure(None))
  }

  function QuestionByIdOperation(respond: nat -> Outcome<Option<RawQuestion>>, currentYear: int): nat -> Outcome<Question> {
    (k: nat) => QuestionByIdCall(respond(k), currentYear)
  }

  /** A question-list operation never succeeds with an empty list. */
  lemma QuestionListsNonEmpty(respond: nat -> Outcome<RawList<Option<RawQuestion>>>, currentYear: int, k: nat)
    ensures QuestionListOperation(respond, currentYear)(k).Ok? ==> |QuestionListOperation(respond, currentYear)(k).value| > 0
  {
    assert QuestionListOperation(respond, currentYear)(k) == QuestionListCall(respond(k), currentYear);
  }

  /** How a read settles and how many calls it makes: a live entry answers with no call. */
  function Answer<T>(cached: Option<T>, operation: nat -> Outcome<T>): (Settled<T>, nat) {
    match cached
    case Some(v) => (Returned(v), 0)
    case None => RetryRun(operation, MaxRetries, 1)
  }

  /** The cache after a read that missed and settled with `result`: the answer is stored only on success. */
  function StoreAnswer(entries: map<string, Entry<CachedData>>, key: string, result: Option<CachedData>, ttl: int, doneAt: int): map<string, Entry<CachedData>> {
    match result
    case Some(d) => entries[key := Entry(d, doneAt, ttl)]
    case None => entries
  }

  /** What a read writes: its answer, when it missed and the call returned. */
  function Stored<T>(cached: Option<T>, result: Settled<T>, wrap: T -> CachedData): Option<CachedData> {
    if cached.None? && result.Returned? then Some(wrap(result.value)) else None
  }

  /** `r` is the outcome of a read from the cache `before`, ending with the cache `after`. */
  predicate ReadAndStore<T(==)>(before: map<string, Entry<CachedData>>, after: map<string, Entry<CachedData>>,
                            key: string, now: int, doneAt: int, ttl: int,
                            cached: Option<T>, operation: nat -> Outcome<T>, wrap: T -> CachedData,
                            result: Settled<T>, calls: nat)
  {
    && (result, calls) == Answer(cached, operation)
    && after == StoreAnswer(AfterLookup(before, key, now), key, Stored(cached, result, wrap), ttl, doneAt)
  }

  class Client {
    const cache: Cache<CachedData>

    constructor()
      ensures fresh(cache) && cache.entries == map[]
      ensures Valid()
    {
      cache := new Cache<CachedData>();
    }

    /** Every cache entry is stored under a key of its own resource. */
    predicate Valid()
      reads this, cache
    {
      WellTagged(cache.entries)
    }

    /** `getDisciplines` */
    method GetDisciplines(now: int, doneAt: int, respond: nat -> Outcome<RawList<Labelled>>)
      returns (result: Settled<seq<Labelled>>, calls: nat, waits: seq<int>)
      requires Valid()
      modifies cache
      ensures Valid()
      ensures var hit := Lookup(old(cache.entries), DisciplinesKey, now);
        ReadAndStore(old(cache.entries), cache.entries, DisciplinesKey, now, doneAt, DisciplinesTtl,
                     if hit.Some? && hit.value.DisciplineList? then Some(hit.value.disciplines) else None,
                     DisciplinesOperation(respond), ds => DisciplineList(ds), result, calls)
      ensures Lookup(old(cache.entries), DisciplinesKey, now).Some? ==>
                Lookup(old(cache.entries), DisciplinesKey, now).value.DisciplineList?
      ensures forall k :: 0 <= k < |waits| ==> waits[k] == DisciplinesDelay * Pow2(k)
    {
      ghost var before := cache.entries;
      FixedKeyTags(if DisciplinesKey in before then before[DisciplinesKey].data else YearList([]));
      var cached := cache.Get(DisciplinesKey, now);
      if cached.Some? {
        return Returned(cached.value.disciplines), 0, [];
      }
      result, calls, waits := WithRetry(DisciplinesOperation(respond), MaxRetries, DisciplinesDelay);
      if result.Returned? {
        cache.Set(DisciplinesKey, DisciplineList(result.value), DisciplinesTtl, doneAt);
      }
    }

    /** `getQuestionsByDiscipline` */
    method GetQuestionsByDiscipline(discipline: string, limit: int, now: int, doneAt: int, currentYear: int,
                                    respond: nat -> Outcome<RawList<Option<RawQuestion>>>)
      returns (result: Settled<seq<Question>>, calls: nat, waits: seq<int>)
      requires Valid()
      modifies cache
      ensures Valid()
      ensures var key := QuestionsKey(discipline, limit);
              var hit := Lookup(old(cache.entries), key, now);
        ReadAndStore(old(cache.entries), cache.entries, key, now, doneAt, QuestionsTtl,
                     if hit.Some? && hit.value.QuestionList? then Some(hit.value.questions) else None,
                     QuestionListOperation(respond, currentYear), qs => QuestionList(qs), result, calls)
      ensures Lookup(old(cache.entries), QuestionsKey(discipline, limit), now).Some? ==>
                Lookup(old(cache.entries), QuestionsKey(discipline, limit), now).value.QuestionList?
      ensures forall k :: 0 <= k < |waits| ==> waits[k] == QuestionsDelay * Pow2(k)
    {
      var key := QuestionsKey(discipline, limit);
      ghost var before := cache.entries;
      QuestionsKeyTag(discipline, limit, if key in before then before[key].data else YearList([]));
      var cached := cache.Get(key, now);
      if cached.Some? {
        return Returned(cached.value.questions), 0, [];
      }
      result, calls, waits := WithRetry(QuestionListOperation(respond, currentYear), MaxRetries, QuestionsDelay);
      if result.Returned? {
        cache.Set(key, QuestionList(result.value), QuestionsTtl, doneAt);
        PrefixOfConcat("questions_", discipline + "_" + IntToString(limit));
        assert key == "questions_" + (discipline + "_" + IntToString(limit));
      }
    }
  
    /** `getRandomQuestions` */
    method GetRandomQuestions(limit: int, now: int, doneAt: int, currentYear: int,
                              respond: nat -> Outcome<RawList<Option<RawQuestion>>>)
      returns (result: Settled<seq<Question>>, calls: nat, waits: seq<int>)
      requires Valid()
      modifies cache
      ensures Valid()
      ensures var key := RandomQuestionsKey(limit);
              var hit := Lookup(old(cache.entries), key, now);
        ReadAndStore(old(cache.entries), cache.entries, key, now, doneAt, RandomQuestionsTtl,
                     if hit.Some? && hit.value.QuestionList? then Some(hit.value.questions) else None,
                     QuestionListOperation(respond, currentYear), qs => QuestionList(qs), result, calls)
      ensures Lookup(old(cache.entries), RandomQuestionsKey(limit), now).Some? ==>
                Lookup(old(cache.entries), RandomQuestionsKey(limit), now).value.QuestionList?
      ensures forall k :: 0 <= k < |waits| ==> waits[k] == RandomQuestionsDelay * Pow2(k)
    {
      var key := RandomQuestionsKey(limit);
      ghost var before := cache.entries;
      RandomQuestionsKeyTag(limit, if key in before then before[key].data else YearList([]));
      var cached := cache.Get(key, now);
      if cached.Some? {
        return Returned(cached.value.questions), 0, [];
      }
      result, calls, waits := WithRetry(QuestionListOperation(respond, currentYear), MaxRetries, RandomQuestionsDelay);
      if result.Returned? {
        cache.Set(key, QuestionList(result.value), RandomQuestionsTtl, doneAt);
        PrefixOfConcat("random_questions_", IntToString(limit));
      }
    }

    /** `getQuestionById` */
    method GetQuestionById(id: int, now: int, doneAt: int, currentYear: int,
                           respond: nat -> Outcome<Option<RawQuestion>>)
      returns (result: Settled<Question>, calls: nat, waits: seq<int>)
      requires Valid()
      modifies cache
      ensures Valid()
      ensures var key := QuestionKey(id);
              var hit := Lookup(old(cache.entries), key, now);
        ReadAndStore(old(cache.entries), cache.entries, key, now, doneAt, QuestionByIdTtl,
                     if hit.Some? && hit.value.OneQuestion? then Some(hit.value.question) else None,
                     QuestionByIdOperation(respond, currentYear), q => OneQuestion(q), result, calls)
      ensures Lookup(old(cache.entries), QuestionKey(id), now).Some? ==>
                Lookup(old(cache.entries), QuestionKey(id), now).value.OneQuestion?
      ensures forall k :: 0 <= k < |waits| ==> waits[k] == QuestionByIdDelay * Pow2(k)
    {
      var key := QuestionKey(id);
      ghost var before := cache.entries;
      QuestionKeyTag(id, if key in before then before[key].data else YearList([]));
      var cached := cache.Get(key, now);
      if cached.Some? {
        return Returned(cached.value.question), 0, [];
      }
      result, calls, waits := WithRetry(QuestionByIdOperation(respond, currentYear), MaxRetries, QuestionByIdDelay);
      if result.Returned? {
        cache.Set(key, OneQuestion(result.value), QuestionByIdTtl, doneAt);
        PrefixOfConcat("question_", IntToString(id));
      }
    }

    /** `getAvailableYears` */
    method GetAvailableYears(now: int, doneAt: int, respond: nat -> Outcome<RawList<int>>)
      returns (result: Settled<seq<int>>, calls: nat, waits: seq<int>)
      requires Valid()
      modifies cache
      ensures Valid()
      ensures var hit := Lookup(old(cache.entries), YearsKey, now);
        ReadAndStore(old(cache.entries), cache.entries, YearsKey, now, doneAt, YearsTtl,
                     if hit.Some? && hit.value.YearList? then Some(hit.value.years) else None,
                     YearsOperation(respond), ys => YearList(ys), result, calls)
      ensures Lookup(old(cache.entries), YearsKey, now).Some? ==>
                Lookup(old(cache.entries), YearsKey, now).value.YearList?
      ensures forall k :: 0 <= k < |waits| ==> waits[k] == YearsDelay * Pow2(k)
    {
      ghost var before := cache.entries;
      FixedKeyTags(if YearsKey in before then before[YearsKey].data else DisciplineList([]));
      var cached := cache.Get(YearsKey, now);
      if cached.Some? {
        return Returned(cached.value.years), 0, [];
      }
      result, calls, waits := WithRetry(YearsOperation(respond), MaxRetries, YearsDelay);
      if result.Returned? {
        cache.Set(YearsKey, YearList(result.value), YearsTtl, doneAt);
      }
    }

    /** `clearCache` */
    method ClearCache()
      modifies cache
      ensures cache.entries == map[] && Valid()
    {
      cache.Clear();
    }

    /**
     * `preloadCriticalData`: read the disciplines and the years, each falling
     * back to `[]` when its read throws, so the preload never fails. Both reads
     * look the cache up at `now` and each stores at its own completion time.
     * The two reads use different keys, so the years are read as if from the
     * cache before the disciplines were stored. The cache ends as the disciplines
     * read leaves it, followed by the years read.
     */
    method PreloadCriticalData(now: int, disciplinesDoneAt: int, yearsDoneAt: int,
                               respondDisciplines: nat -> Outcome<RawList<Labelled>>,
                               respondYears: nat -> Outcome<RawList<int>>)
      returns (disciplines: seq<Labelled>, years: seq<int>)
      requires Valid()
      modifies cache
      ensures Valid()
      ensures var hit := Lookup(old(cache.entries), DisciplinesKey, now);
        disciplines == ValueOr(Answer(if hit.Some? && hit.value.DisciplineList? then Some(hit.value.disciplines) else None,
                                      DisciplinesOperation(respondDisciplines)).0, [])
      ensures var hit := Lookup(old(cache.entries), YearsKey, now);
        years == ValueOr(Answer(if hit.Some? && hit.value.YearList? then Some(hit.value.years) else None,
                                YearsOperation(respondYears)).0, [])
      ensures var hitD, hitY := Lookup(old(cache.entries), DisciplinesKey, now), Lookup(old(cache.entries), YearsKey, now);
              var cachedD := if hitD.Some? && hitD.value.DisciplineList? then Some(hitD.value.disciplines) else None;
              var cachedY := if hitY.Some? && hitY.value.YearList? then Some(hitY.value.years) else None;
              var d := Answer(cachedD, DisciplinesOperation(respondDisciplines)).0;
              var y := Answer(cachedY, YearsOperation(respondYears)).0;
              var middle := StoreAnswer(AfterLookup(old(cache.entries), DisciplinesKey, now), DisciplinesKey,
                                        Stored(cachedD, d, ds => DisciplineList(ds)), DisciplinesTtl, disciplinesDoneAt);
        cache.entries == StoreAnswer(AfterLookup(middle, YearsKey, now), YearsKey,
                                     Stored(cachedY, y, ys => YearList(ys)), YearsTtl, yearsDoneAt)
    {
      ghost var before := cache.entries;
      var d, _, _ := GetDisciplines(now, disciplinesDoneAt, respondDisciplines);
      ghost var middle := cache.entries;
      assert Lookup(middle, YearsKey, now) == Lookup(before, YearsKey, now) by {
        OtherKeysUntouched(before, DisciplinesKey, YearsKey, Entry(DisciplineList([]), disciplinesDoneAt, DisciplinesTtl), now, now);
        var after := AfterLookup(before, DisciplinesKey, now);
        OtherKeysUntouched(after, DisciplinesKey, YearsKey, Entry(DisciplineList(if d.Returned? then d.value else []), disciplinesDoneAt, DisciplinesTtl), now, now);
      }
      var y, _, _ := GetAvailableYears(now, yearsDoneAt, respondYears);
      disciplines := ValueOr(d, []);
      years := ValueOr(y, []);
    }
  }

  /** `promise.catch(() => fallback)` */
  function ValueOr<T>(s: Settled<T>, fallback: T): T {
    match s
    case Returned(v) => v
    case Threw(_) => fallback
  }

  /** On a miss, the cache is written exactly when the call returned, and then with the returned value. */
  lemma StoredOnlyOnSuccess<T>(before: map<string, Entry<CachedData>>, after: map<string, Entry<CachedData>>,
                                   key: string, now: int, doneAt: int, ttl: int,
                                   operation: nat -> Outcome<T>, wrap: T -> CachedData,
                                   result: Settled<T>, calls: nat)
    requires Lookup(before, key, now).None?
    requires ReadAndStore(before, after, key, now, doneAt, ttl, None, operation, wrap, result, calls)
    ensures key in after <==> result.Returned?
    ensures result.Returned? ==> after[key] == Entry(wrap(result.value), doneAt, ttl)
    ensures result.Returned? ==> calls >= 1 && operation(calls) == Ok(result.value)
    ensures forall k :: k != key ==> (k in after <==> k in before) && (k in after ==> after[k] == before[k])
  {
    RetryRunReturnsAttempt(operation, MaxRetries, 1);
  }

  /** A hit answers with the cached value, makes no call and leaves the cache as it was. */
  lemma HitMakesNoCall<T>(before: map<string, Entry<CachedData>>, after: map<string, Entry<CachedData>>,
                              key: string, now: int, doneAt: int, ttl: int, cached: T,
                              operation: nat -> Outcome<T>, wrap: T -> CachedData,
                              result: Settled<T>, calls: nat)
    requires Lookup(before, key, now).Some?
    requires ReadAndStore(before, after, key, now, doneAt, ttl, Some(cached), operation, wrap, result, calls)
    ensures result == Returned(cached) && calls == 0 && after == before
  {
  }

  /**
   * A question list is stored in the cache only when the fetch returned at
   * least one valid question, and what is stored is exactly the accepted
   * records of the response to the last call, in order.
   */
  lemma StoredQuestionListsNonEmpty(before: map<string, Entry<CachedData>>, after: map<string, Entry<CachedData>>,
                                    key: string, now: int, doneAt: int, ttl: int, currentYear: int,
                                    respond: nat -> Outcome<RawList<Option<RawQuestion>>>,
                                    result: Settled<seq<Question>>, calls: nat)
    requires Lookup(before, key, now).None?
    requires ReadAndStore(before, after, key, now, doneAt, ttl, None, QuestionListOperation(respond, currentYear),
                          qs => QuestionList(qs), result, calls)
    ensures key in after ==> after[key].data.QuestionList? && |after[key].data.questions| > 0
    ensures key in after ==>
      && calls >= 1 && respond(calls).Ok? && respond(calls).value.Items?
      && Map(AcceptedOf, after[key].data.questions) == Filter(Map(ValidationBy(currentYear), respond(calls).value.items), IsAccepted)
  {
    StoredOnlyOnSuccess(before, after, key, now, doneAt, ttl, QuestionListOperation(respond, currentYear),
                        qs => QuestionList(qs), result, calls);
    if key in after {
      QuestionListsNonEmpty(respond, currentYear, calls);
      assert QuestionListOperation(respond, currentYear)(calls) == QuestionListCall(respond(calls), currentYear);
      QuestionListCallAccepted(respond(calls), currentYear);
    }
  }

  /**
   * When every response holds a `null` record, the validator throws on each
   * attempt, so the read fails and nothing is stored under its key.
   */
  lemma NullRecordNeverStored(before: map<string, Entry<CachedData>>, after: map<string, Entry<CachedData>>,
                              key: string, now: int, doneAt: int, ttl: int, currentYear: int,
                              respond: nat -> Outcome<RawList<Option<RawQuestion>>>,
                              result: Settled<seq<Question>>, calls: nat)
    requires Lookup(before, key, now).None?
    requires ReadAndStore(before, after, key, now, doneAt, ttl, None, QuestionListOperation(respond, currentYear),
                          qs => QuestionList(qs), result, calls)
    requires forall k: nat :: respond(k).Ok? && respond(k).value.Items? &&
               exists j :: 0 <= j < |respond(k).value.items| && respond(k).value.items[j].None?
    ensures result.Threw? && key !in after
  {
    StoredOnlyOnSuccess(before, after, key, now, doneAt, ttl, QuestionListOperation(respond, currentYear),
                        qs => QuestionList(qs), result, calls);
  }
}
