# ENEM quiz front end — a verified model of its logic

This project models the logic of the ENEM quiz web application in Dafny and
proves properties of that model. The application is a Next.js front end that
fetches ENEM exam questions from a local service and runs a timed quiz over
them. Rendering is left aside. What is modelled:

- **Question service client** (`enem_api.dfy`, `cache.dfy`, `retry.dfy`, `questions.dfy`, `url_rule.dfy`):
  - the in-memory cache with lazy expiry;
  - the retry loop with exponential back-off;
  - the record validator and its URL normalisation;
  - the five cached read operations, and the preload of disciplines and years.
- **Markdown image scanner** (`markdown_scan.dfy`). It covers the three regular
  expressions the application uses for `![alt](url)`:
  - empty alt text;
  - lazy `.*?` alt text;
  - alt text without `]`.
  Each is modelled as the leftmost-match search that `RegExp.exec` performs with `lastIndex`.
- **Image duplication helpers** (`image_duplication.dfy`): URL extraction, the comparison key,
  the fuzzy same-image test, filtering against a markdown body, and de-duplication.
- **Image preloader** (`image_preloader.dfy`): the set of loaded URLs and the map of pending
  loads, with the image's load and error callbacks as methods.
- **Question text renderer** (`markdown_renderer.dfy`): the split of content into text and image segments.
- **Small pure helpers**: the image component's URL rule (`question_image.dfy`), the timer's
  `formatTime` (`timer.dfy`), and the image optimiser's URL, size test and `srcset` (`image_optimizer.dfy`).
- **Quiz page state machine** (`quiz_page.dfy`), as a class with one field per state hook.
- **Site map construction** (`sitemap.dfy`).

Shared helpers are in `text.dfy` (strings and decimal numbers), `seqs.dfy`
(subsequences, `filter`, `map`, first-occurrence scans) and `wrappers.dfy` (`Option`).

Disagreements between the code and its documentation are resolved in favour of the code:

- `withRetry` retries the service's "no valid question" errors, because they carry no HTTP status.
- With `maxRetries <= 0` it makes no call and throws `undefined`.
- The validator also rejects a record whose alternatives array holds `null`, and a record
  with a URL list that is a truthy non-array or holds a non-string. In each case `.map`,
  a property access or `startsWith` throws inside its `try`, and the `catch` returns `null`.
- A `null` record is not rejected: the `catch` reads `question.id` on it again, so the
  validator throws. The `map` over the list then throws, and the whole list read fails
  (and is retried) instead of dropping that record.

## Model

| member | source | states |
|---|---|---|
| UrlRule.AbsoluteUrl | src/services/enemAPI.ts:33-42 | an `http://`/`https://` URL is kept; a `/`-path gets `http://localhost:3000` in front; anything else, `images/…` included, gets `http://localhost:3000/`; the result is absolute and ends with the input |
| UrlRule.AbsoluteUrlIdempotent | src/services/enemAPI.ts:33-42 | absolutising twice is absolutising once |
| UrlRule.AbsoluteUrlNoCloseParen | src/services/enemAPI.ts:48-51 | the rule adds no `)`, so a rewritten `![](url)` stays one image link |
| TtlCache.Lookup | src/services/enemAPI.ts:17-24 | a read returns a value exactly when the key is present and `now - timestamp < ttl` (strict), and then the stored value |
| TtlCache.AfterLookup | src/services/enemAPI.ts:18-23 | a read that returns nothing deletes the key and no other; a read that returns keeps the map |
| TtlCache.Cache.Get | src/services/enemAPI.ts:17-24 | `getFromCache` answers as `Lookup` and leaves the map as `AfterLookup` |
| TtlCache.Cache.Set | src/services/enemAPI.ts:27-29 | `setCache` stores `(data, now, ttl)` under the key and changes no other key |
| TtlCache.Cache.Clear | src/services/enemAPI.ts:327-330 | `clearCache` empties the map |
| TtlCache.StoredValueLifetime | src/services/enemAPI.ts:19-29 | a stored value reads back before `timestamp + ttl` and is gone (and deleted) from then on; with a positive ttl it reads back at the instant it was stored |
| TtlCache.OtherKeysUntouched | src/services/enemAPI.ts:17-29 | writing or reading one key never changes what another key reads |
| Retry.RetryRunCharacterised | src/services/enemAPI.ts:125-155 | at most `maxRetries` calls; every call but the last failed transiently; the last succeeded, failed with a 4xx other than 429, or was call `maxRetries`, and decides the result; `maxRetries <= 0` makes no call and throws `undefined` |
| Retry.WithRetry | src/services/enemAPI.ts:125-155 | the loop settles as `RetryRun`; after failed call `k` (not the last) it waits `delay * 2^(k-1)` |
| Retry.RetryRunReturnsAttempt | src/services/enemAPI.ts:132-134 | a returned value is the value of the last call made |
| Retry.TotalWait | src/services/enemAPI.ts:147-150 | the waits add up to `delay * (2^n - 1)` after `n` waits, so success at call `N` waited `delay * (2^(N-1) - 1)` |
| Retry.StatuslessFailuresRetried | src/services/enemAPI.ts:139-141 | an error without a status, such as "no valid question", does not stop the retries |
| EnemApi.QuestionsKeyTag | src/services/enemAPI.ts:189 | an entry tagged as valid for a `questions_…` key holds a question list |
| EnemApi.RandomQuestionsKeyTag | src/services/enemAPI.ts:227 | an entry tagged as valid for a `random_questions_…` key holds a question list |
| EnemApi.QuestionKeyTag | src/services/enemAPI.ts:266 | an entry tagged as valid for a `question_…` key holds one question |
| EnemApi.FixedKeyTags | src/services/enemAPI.ts:160 | the `disciplines` and `available_years` keys hold only their own resource |
| EnemApi.KeysDistinct | src/services/enemAPI.ts:160-299 | the keys of different resources never collide |
| EnemApi.KeysInjective | src/services/enemAPI.ts:189-266 | different requests give different keys: two `questions_<discipline>_<limit>` keys are equal only for the same discipline and limit, even when the discipline itself contains `_`, because a rendered limit never contains `_`; random-question keys are equal only for the same limit, and question keys only for the same id |
| EnemApi.ValidQuestionsThrow | src/services/enemAPI.ts:207-210 | mapping the validator over the records throws exactly when some record is `null` |
| EnemApi.ValidQuestionsAccepted | src/services/enemAPI.ts:207-210 | when the mapping does not throw, the result is exactly the accepted records, in order: every accepted record is kept and nothing else |
| EnemApi.QuestionListCall | src/services/enemAPI.ts:207-214 | a transport error is passed on; a truthy non-array body or a `null` record throws; an empty result throws "no valid question"; every such error has no status; a success is a non-empty list from an array body |
| EnemApi.QuestionListCallAccepted | src/services/enemAPI.ts:207-221 | a successful call returns exactly the accepted records of the response, in order |
| EnemApi.QuestionByIdCall | src/services/enemAPI.ts:283-293 | succeeds exactly when the validator accepts the response, with the cleaned question; a rejected or missing record gives a status-less error |
| EnemApi.QuestionListsNonEmpty | src/services/enemAPI.ts:212-214 | a question-list call never succeeds with an empty list |
| EnemApi.Client.GetDisciplines | src/services/enemAPI.ts:159-185 | a live entry answers with no call; otherwise `withRetry(3, 1000)` runs, and a success is stored for 5 minutes |
| EnemApi.Client.GetQuestionsByDiscipline | src/services/enemAPI.ts:188-223 | the same under `questions_<discipline>_<limit>`, `withRetry(3, 1500)`, stored for 10 minutes; each attempt is `QuestionListCall` of its response, so a `null` record fails the attempt |
| EnemApi.Client.GetRandomQuestions | src/services/enemAPI.ts:226-262 | the same under `random_questions_<limit>`, `withRetry(3, 2000)`, stored for 2 minutes; each attempt is `QuestionListCall` of its response |
| EnemApi.Client.GetQuestionById | src/services/enemAPI.ts:265-295 | the same under `question_<id>`, `withRetry(3, 1000)`, stored for 30 minutes; each attempt is `QuestionByIdCall` of its response |
| EnemApi.Client.GetAvailableYears | src/services/enemAPI.ts:298-324 | the same under `available_years`, `withRetry(3, 1000)`, stored for 30 minutes |
| EnemApi.Client.ClearCache | src/services/enemAPI.ts:327-330 | the cache is empty afterwards |
| EnemApi.Client.PreloadCriticalData | src/services/enemAPI.ts:333-353 | never fails: each list is the read's value, or `[]` when that read threw; the cache ends as the disciplines read (lookup, then store on a returned miss) followed by the years read leave it, each read storing at its own completion time |
| EnemApi.StoredOnlyOnSuccess | src/services/enemAPI.ts:168-183 | on a miss the key is written exactly when the call returned, with the returned value, the completion time and the resource's ttl; no other key changes |
| EnemApi.HitMakesNoCall | src/services/enemAPI.ts:161-166 | a hit returns the cached value, makes no call and leaves the cache unchanged |
| EnemApi.StoredQuestionListsNonEmpty | src/services/enemAPI.ts:207-219 | a question list is cached only if it holds at least one valid question, and it is exactly the accepted records of the last response, in order |
| EnemApi.NullRecordNeverStored | src/services/enemAPI.ts:207-219 | when every response holds a `null` record, the read throws and nothing is stored under its key |
| Questions.NormalizeList | src/services/enemAPI.ts:55-69 | a URL array is absolutised element by element, keeping length and order; a falsy list is left as it is |
| Questions.NormalizeAlternative | src/services/enemAPI.ts:73-77 | only a truthy `filePath` is absolutised; an absent one stays absent; the other fields are kept |
| Questions.ValidateAndCleanQuestion | src/services/enemAPI.ts:84-122 | the validator throws exactly on a missing record; an accepted record keeps its truthy `id` and has a non-empty title |
| Questions.RejectedExactly | src/services/enemAPI.ts:84-122 | a missing record throws; a present one is rejected exactly when it lacks a truthy `id`/`title` or an alternatives array, has a `null` alternative, has no valid alternative, or has a URL list that is a truthy non-array or holds a non-string; otherwise it is accepted |
| Questions.AcceptedDefaults | src/services/enemAPI.ts:102-117 | an accepted record takes `''`, `0`, the current year, `[]` and the empty `images` object as defaults, keeps `id`, `title`, `discipline` and `language`, and has its context, files and images normalised |
| Questions.AcceptedAlternatives | src/services/enemAPI.ts:92-113 | an accepted record keeps every valid alternative and only those, in order, each with its `filePath` normalised; there is at least one |
| Questions.NormalizeImageUrls | src/services/enemAPI.ts:32-81 | only URL-bearing fields change: the other fields are kept, the file list keeps its length, alternatives change only in `filePath`, and an empty context stays empty |
| Questions.NormalizeAlternatives | src/services/enemAPI.ts:73-78 | each alternative is normalised in place of itself; nothing but `filePath` changes |
| Questions.NormalizeRawList | src/services/enemAPI.ts:61-69 | rewriting a mappable URL list as stored gives the absolutised list of its strings |
| Questions.NormalizedUrlsAbsolute | src/services/enemAPI.ts:54-78 | after normalisation every file URL, listed image URL and present `filePath` is absolute |
| Questions.NormalizeImagesIdempotent | src/services/enemAPI.ts:59-70 | normalising the shared `images` object again changes nothing |
| Questions.EmptyAltMatchText | src/services/enemAPI.ts:49-50 | each empty-alt match is exactly `![](` + its URL + `)` |
| Questions.ContextRewriteKeepsText | src/services/enemAPI.ts:46-52 | the context and its rewrite interleave the same gaps with the same images, before and after absolutising their URLs |
| Questions.RewriteKeepsAbsoluteContext | src/services/enemAPI.ts:47-52 | a context whose image URLs are all absolute is left unchanged |
| Questions.ImagesObject.NormalizeInPlace | src/services/enemAPI.ts:60-69 | the shared `images` lists are overwritten in order; `.map` on a truthy non-array or on a list holding a non-string stops there, keeping the lists already rewritten; otherwise all three are absolutised |
| MarkdownScan.UrlClose | src/services/enemAPI.ts:49 | `([^)]+)\)` ends at the first `)` after at least one character |
| MarkdownScan.LazyAltEnd | src/utils/imageDuplicationUtils.ts:12 | the lazy `.*?` takes the shortest alt text without a line terminator that lets the rest match |
| MarkdownScan.AltEnd | src/components/MarkdownRenderer.tsx:14 | the alt text ends at the least end the pattern allows, or the pattern does not match there |
| MarkdownScan.MatchAt | src/utils/imagePreloader.ts:81 | a match tried at one index is a match starting there with the least alt end, or there is none |
| MarkdownScan.FindFrom | src/utils/imageDuplicationUtils.ts:16 | `exec` from `lastIndex` finds the leftmost match at or after it, and no match before it |
| MarkdownScan.AllMatches | src/utils/imageDuplicationUtils.ts:16-18 | the matches `exec` returns are in bounds, in order, and do not overlap |
| MarkdownScan.AllMatchesAreMatches | src/utils/imagePreloader.ts:85-87 | every returned match is a match of the pattern, found by trying it at its start |
| MarkdownScan.UrlShape | src/utils/imageDuplicationUtils.ts:12 | a URL capture is non-empty and holds no `)` |
| MarkdownScan.ImageUrlsShape | src/utils/imageDuplicationUtils.ts:16-18 | every extracted URL is non-empty and holds no `)` |
| MarkdownScan.Tiling | src/components/MarkdownRenderer.tsx:19-60 | the gaps and the matched texts tile the scanned text, in order and without overlap |
| MarkdownScan.NoMatches | src/components/MarkdownRenderer.tsx:19 | no match is returned exactly when the pattern matches at no index |
| MarkdownScan.ReplaceKeepsGaps | src/services/enemAPI.ts:48-51 | `replace` keeps every gap and puts `f(url)` where each match was |
| ImageDuplication.ExtractImageUrlsFromMarkdown | src/utils/imageDuplicationUtils.ts:9-21 | `''` gives `[]`; otherwise the URL capture of every lazy-alt match, left to right, each non-empty and without `)` |
| ImageDuplication.HostPrefixLength | src/utils/imageDuplicationUtils.ts:28 | `^https?:\/\/[^\/]+\/` matches a scheme, a non-empty host without `/` and the `/` after it |
| ImageDuplication.LeadingSlashes | src/utils/imageDuplicationUtils.ts:29 | `^\/+` removes exactly the leading slashes |
| ImageDuplication.NormalizeUrlForComparisonShape | src/utils/imageDuplicationUtils.ts:26-31 | the key is the lower-cased rest of the URL after the host and the slashes after it; it never starts with `/` and has no upper-case letter |
| ImageDuplication.HostDoesNotMatter | src/utils/imageDuplicationUtils.ts:26-31 | `http(s)://host/path` has the key of `path`, so both are the same image |
| ImageDuplication.SubstringRule | src/utils/imageDuplicationUtils.ts:36-43 | two URLs are the same image exactly when one key occurs inside the other; the test is symmetric |
| ImageDuplication.SameImageReflexive | src/utils/imageDuplicationUtils.ts:36-43 | every URL is the same image as itself |
| ImageDuplication.EmptyKeyMatchesEverything | src/utils/imageDuplicationUtils.ts:40-42 | a URL with an empty key is the same image as every URL |
| ImageDuplication.SameLengthKeys | src/utils/imageDuplicationUtils.ts:40-42 | keys of equal length match only when equal |
| ImageDuplication.WithoutImagesOf | src/utils/imageDuplicationUtils.ts:62-64 | the filter keeps, in order and with all their copies, exactly the candidates that match no image shown |
| ImageDuplication.WithoutNothing | src/utils/imageDuplicationUtils.ts:52-60 | with no image shown every candidate is kept |
| ImageDuplication.FilterDuplicateImages | src/utils/imageDuplicationUtils.ts:48-65 | the early returns agree with the filter, so the result is always the candidates matching no markdown image |
| ImageDuplication.RemoveDuplicateUrls | src/utils/imageDuplicationUtils.ts:70-80 | the loop computes the first-occurrence scan with `isSameImage` |
| ImageDuplication.DedupeProperties | src/utils/imageDuplicationUtils.ts:70-80 | the result is a subsequence that keeps the first URL; no two kept URLs match; every input URL matches a kept one |
| ImageDuplication.DedupeOfDistinct | src/utils/imageDuplicationUtils.ts:70-80 | a list without two matching URLs is left as it is |
| ImageDuplication.DedupeIdempotent | src/utils/imageDuplicationUtils.ts:70-80 | de-duplicating twice is de-duplicating once |
| Seqs.Distinct | src/utils/imagePreloader.ts:55 | `[...new Set(urls)]` holds each element of the input once, as a subsequence of it, in first-occurrence order: each element occurs in the input before any occurrence of every later one |
| Seqs.Filter | src/utils/imageDuplicationUtils.ts:62-64 | `filter` keeps, in order, exactly the accepted elements with their multiplicities |
| Seqs.DedupeBy | src/utils/imageDuplicationUtils.ts:70-80 | the first-occurrence scan returns a subsequence of its input |
| Seqs.DedupeByProperties | src/utils/imageDuplicationUtils.ts:70-80 | for a reflexive relation the scan keeps the first element, no two related kept elements, and a related kept element for every input |
| Seqs.MapAt | src/app/sitemap.ts:30-51 | `map` puts `f` of each item at the item's position |
| ImagePreloading.NormalizeImageUrl | src/utils/imagePreloader.ts:95-108 | the preloader's rule is the service's rule on every URL |
| ImagePreloading.NormalizeImageUrlIdempotent | src/utils/imagePreloader.ts:95-108 | the rule is idempotent and its result absolute |
| ImagePreloading.SelectedExactly | src/utils/imagePreloader.ts:55-61 | the batch selection holds each non-blank, not-yet-loaded URL of the batch once, and nothing else; it is empty exactly when none qualifies |
| ImagePreloading.SelectedNotLoaded | src/utils/imagePreloader.ts:55-57 | no selected URL is already loaded |
| ImagePreloading.ImagePreloader.constructor | src/utils/imagePreloader.ts:7-8 | both collections start empty |
| ImagePreloading.ImagePreloader.PreloadImage | src/utils/imagePreloader.ts:20-49 | a loaded URL changes nothing; a loading URL returns its pending load and changes nothing; any other URL becomes loading with a fresh ticket; no URL is both loaded and loading, and no two pending URLs share a load |
| ImagePreloading.ImagePreloader.OnLoad | src/utils/imagePreloader.ts:32-36 | the URL moves from loading to loaded |
| ImagePreloading.ImagePreloader.OnError | src/utils/imagePreloader.ts:38-42 | the URL stops loading and is not marked loaded |
| ImagePreloading.ImagePreloader.PreloadImages | src/utils/imagePreloader.ts:54-68 | every selected URL is pending afterwards, with a new load unless one already was; existing loads keep their tickets; each new load has its own ticket, issued by this batch, one per new pending URL; no change when nothing is selected |
| ImagePreloading.ImagePreloader.ExtractImageUrls | src/utils/imagePreloader.ts:80-90 | each lazy-alt match's URL, left to right, absolutised by the preloader's rule |
| ImagePreloading.ImagePreloader.IsPreloaded | src/utils/imagePreloader.ts:113-115 | membership in the loaded set, which excludes a loading URL |
| ImagePreloading.ImagePreloader.Clear | src/utils/imagePreloader.ts:120-124 | both collections are empty afterwards |
| ImagePreloading.ImagePreloader.GetStats | src/utils/imagePreloader.ts:129-134 | the sizes of both collections, which together count distinct URLs |
| MarkdownRendering.AltOrDefault | src/components/MarkdownRenderer.tsx:33 | the alt text given to an image is never empty: an empty one is replaced by the default |
| MarkdownRendering.RenderContent | src/components/MarkdownRenderer.tsx:12-68 | the loop produces `Segments(content)`: the parts, or the whole content as one span when there are none |
| MarkdownRendering.PartsAreWoven | src/components/MarkdownRenderer.tsx:19-60 | the parts are the non-blank gaps as text spans with one image segment per match between them |
| MarkdownRendering.WovenContents | src/components/MarkdownRenderer.tsx:21-47 | weaving keeps the images in order and exactly the non-blank gaps in order |
| MarkdownRendering.ImagesInMatchOrder | src/components/MarkdownRenderer.tsx:19-47 | one image segment per match, in match order, with the URL capture as source and the alt text or its default |
| MarkdownRendering.TextsAreNonBlankGaps | src/components/MarkdownRenderer.tsx:21-60 | with an image present, the text spans are exactly the non-blank gaps, and gaps and matches tile the content |
| MarkdownRendering.NoImagesOneSpan | src/components/MarkdownRenderer.tsx:62-65 | content without an image link is one span holding all of it |
| QuestionImage.ImageUrl | src/components/QuestionImage.tsx:20-33 | the component's rule is the service's rule on every source |
| QuestionImage.ImageUrlCases | src/components/QuestionImage.tsx:20-33 | absolute sources are kept; `/`-paths get the base; any other source gets the base and `/`; the result is absolute and the rule idempotent |
| TimeFormat.Split | src/components/Timer.tsx:30-33 | minutes and seconds are below 60 and `hours*3600 + minutes*60 + seconds == floor(ms/1000)` |
| TimeFormat.PadStart2 | src/components/Timer.tsx:36-38 | `padStart(2, '0')` reaches two characters with leading zeros and never truncates |
| TimeFormat.FieldReadsBack | src/components/Timer.tsx:36-38 | a padded field is all digits and reads back as its number |
| TimeFormat.FieldKeepsDigits | src/components/Timer.tsx:36-38 | a field ends with the whole decimal rendering, preceded only by zeros, so hours of 100 or more print in full |
| TimeFormat.FormatTimeReadsBack | src/components/Timer.tsx:29-39 | the display is `MM:SS` (five characters) exactly when there are no hours, else `HH:MM:SS` with the hours padded to at least two digits; every digit group reads back as its field |
| ImageOptimization.ParamsInOrder | src/utils/imageOptimizer.ts:46-50 | `w`, `h`, `q` are set exactly when `maxWidth`, `maxHeight` are truthy and quality is not 85, once each and in that order; none when the options ask for nothing |
| ImageOptimization.BuildOptimizedUrl | src/utils/imageOptimizer.ts:34-55 | the URL is a prefix of the result, and the result equals it exactly when the options ask for nothing |
| ImageOptimization.BuildOptimizedUrlReadsBack | src/utils/imageOptimizer.ts:46-54 | otherwise the URL is followed by `&` (if it has a `?`) or `?` and a query string that parses back to exactly the parameters set |
| ImageOptimization.QueryRoundTrip | src/utils/imageOptimizer.ts:46-54 | a query string parses back to its parameters, in order |
| ImageOptimization.NeedsOptimizationRewrites | src/utils/imageOptimizer.ts:122-133 | an image needs optimising only under options that ask for something, and the exceeded limit is in the query |
| ImageOptimization.SrcSetEntryShape | src/utils/imageOptimizer.ts:140-143 | an entry is `<url><sep>w=<width> <width>w`, or `<url> 0w` for width 0 |
| ImageOptimization.GenerateSrcSetShape | src/utils/imageOptimizer.ts:138-145 | for non-zero widths, one such entry per width, in order, joined by `, ` |
| QuizPage.RequestFor | src/app/page.tsx:44-50 | a non-empty selected discipline asks for 45 of its questions; no discipline asks for 180 random ones |
| QuizPage.ShownAnswer | src/app/page.tsx:142 | the answer shown is never empty |
| QuizPage.CorrectPlusWrong | src/app/page.tsx:131-147 | `total - correct` counts the questions not answered correctly, so correct + wrong = total |
| QuizPage.AllCorrectIffFullMarks | src/app/page.tsx:131-138 | the count is the total exactly when every answer is correct, and 0 exactly when none is |
| QuizPage.UnansweredNotCorrect | src/app/page.tsx:133-142 | an unanswered question is shown as `Não respondida` and is not correct; the correct alternative always counts |
| QuizPage.ScoreAnswers | src/app/page.tsx:131-145 | one result line per question, in order, and the number of correct answers |
| QuizPage.Page.constructor | src/app/page.tsx:16-31 | the page starts in the selection phase with nothing loaded |
| QuizPage.Page.SelectDiscipline | src/app/page.tsx:33-35 | only the selected discipline changes |
| QuizPage.Page.StartQuiz | src/app/page.tsx:37-50 | the page shows the loading phase with no error and requests the selected discipline's questions |
| QuizPage.Page.QuestionsLoaded | src/app/page.tsx:52-76 | a failed or empty load goes back to the selection with the error; a non-empty one starts at question 0 with no answers |
| QuizPage.Page.SelectAnswer | src/app/page.tsx:79-87 | sets the answer to one question and leaves every other answer unchanged |
| QuizPage.Page.SelectQuestion | src/app/page.tsx:89-94 | sets the index; an index inside the list keeps the page valid |
| QuizPage.Page.Next | src/app/page.tsx:96-106 | moves forward below the last question; at the last it keeps the index and asks to confirm; the index stays in range |
| QuizPage.Page.Previous | src/app/page.tsx:117-124 | moves back only above 0; the index stays in range |
| QuizPage.Page.CancelFinish | src/app/page.tsx:113-115 | closes the confirmation |
| QuizPage.Page.FinishQuiz | src/app/page.tsx:126-162 | results phase with the total, the correct count, the wrong count (which add up), the time spent, the discipline or `all`, and a line per question |
| QuizPage.Page.ConfirmFinish | src/app/page.tsx:108-111 | closes the confirmation and shows the results: the same result `FinishQuiz` computes, with every other field unchanged |
| QuizPage.Page.BackToMenu | src/app/page.tsx:180-197 | back to the selection with every piece of quiz state cleared |
| QuizPage.Page.Restart | src/app/page.tsx:164-178 | clears the quiz and its result, then starts loading the same discipline's questions; the confirmation flag is kept |
| Sitemap.BaseUrl | src/app/sitemap.ts:5 | the environment value when non-empty, else `https://quizenem.com` |
| Sitemap.QuestionEntriesInOrder | src/app/sitemap.ts:30-35 | one `/questao/<id>` entry per question, in order |
| Sitemap.DisciplineEntriesInOrder | src/app/sitemap.ts:38-43 | one `/questoes?disciplina=<value>` entry per discipline, in order |
| Sitemap.YearEntriesInOrder | src/app/sitemap.ts:46-51 | one `/questoes?ano=<year>` entry per year, in order |
| Sitemap.CombinedEntries | src/app/sitemap.ts:54-64 | the nested loops build the year-major grid of the first five years and first four disciplines |
| Sitemap.GridAt | src/app/sitemap.ts:55-63 | years are the outer loop: the entry of year `i` and discipline `j` follows all entries of the years before it |
| Sitemap.CombinedYearMajor | src/app/sitemap.ts:54-64 | the combined entry of year `i` and discipline `j` is at `i * min(4, |disciplines|) + j` |
| Sitemap.BuildSitemap | src/app/sitemap.ts:4-86 | the site map is `SitemapEntries` of the three lookups' results |
| Sitemap.SitemapLayout | src/app/sitemap.ts:14-66 | on success: the two static entries, then the question, discipline, year and combined entries, in that order |
| Sitemap.SitemapSize | src/app/sitemap.ts:54-66 | on success there are `2 + |questions| + |disciplines| + |years| + min(5, |years|) * min(4, |disciplines|)` entries |
| Sitemap.FallbackIsStatic | src/app/sitemap.ts:67-85 | any failed lookup gives exactly the home page and the question list |

## Left out

- The HTTP transport is left out: axios, timeouts and headers. Each read takes the response to each attempt as a function of the attempt number.
- `Date.now()`, `new Date()` and the current year are parameters: `now` when the cache is read, `doneAt` when an answer is stored, `currentYear` for the validator.
- `setTimeout` sleeping is not modelled; `withRetry` returns the waits instead.
- `preloadCriticalData` runs its two reads one after the other rather than under `Promise.all`. Both look the cache up at the same instant, and each stores at its own completion time. The reads use different keys, so neither can see the other's write.
- `preloadImages` is modelled up to the point where every selected load has started; `Promise.allSettled`, its counts and its timing are left out.
- The browser `Image` object is not modelled. A pending load is a ticket standing for its promise, and `onload`/`onerror` are methods the environment calls.
- The `ImagePreloader` and `ImageOptimizer` singletons are left out: `getInstance` and the canvas setup.
- `getSupportedFormat` and `createPerformanceObserver` are left out, as DOM plumbing.
- `calculateOptimalDimensions`, `estimateImageSize` and the quiz score percentage are left out: they are floating-point arithmetic. `QuizResult` therefore has no `score` field.
- ImageOptimization.BuildOptimizedUrl: options are integers, so fractional widths and `NaN` are not modelled. `URLSearchParams` escaping is not modelled because integers render as digits and `-` only.
- The `Math.random` shuffle of the loaded questions is left out; the quiz keeps the order it received. In the source, `questions.sort(...)` reorders in place the array the cache returned, so the cached list is reordered too once a quiz starts. In this model the cache keeps the validated order.
- The quiz page's asynchronous start is split at its `await` into `StartQuiz` and `QuestionsLoaded`. React's batched state updates are applied in order, as plain field updates.
- `handleRestart` runs `handleStartQuiz` with the request for the page's selected discipline; the question fetch itself is outside the page model.
- The site map's three lookups are parameters, `None` for one that threw: `getRandomQuestions(1000)`, `getDisciplines()` and `getAvailableYears()`. Dates are symbolic, and priorities are in tenths.
- ImageOptimization.GenerateSrcSetShape: the default breakpoints are a constant, but the attribute for them is not spelled out as a literal.
- `toLowerCase` is modelled on ASCII letters only. `trim` uses the ECMAScript whitespace characters that fit in one UTF-16 unit.
- Questions.RejectedExactly: JSON values are narrowed to their expected types. The source also rejects a record whose truthy `context` or `filePath` is not a string (the `replace` or `startsWith` call throws). It accepts a truthy `id` that is not a number, and a truthy `images` value that is not an object, which it keeps as it is. It drops an alternative that is not an object. None of these inputs can be written in this model.
- TimeFormat.FormatTimeReadsBack: elapsed time is a non-negative whole number of milliseconds; negative and fractional times are not modelled.
- Logging (`console.*`) is left out everywhere.
- Rendering is left out: JSX, styling and the `setInterval` effect of the timer.
- `src/app/questoes/page.tsx` and the presentational components are not part of this model.
