# HR policy Q&A chatbot — verified model of the search and answer core

The chatbot answers questions about company HR regulations (leave,
allowances, expense limits) from a corpus of policy documents loaded as JSON.
Its decision logic, all in `app.js`, is a short pipeline:

1. **Scorer** (`calculateSectionScore`). It gives every (query, section) pair a score in five parts:
   - an exact-substring bonus;
   - per-word title and content hits;
   - keyword-tag hits;
   - hits of the query's numbers against the section's amounts, exact or within 10%;
   - procedure-trigger and category bonuses.
2. **Ranker** (`executeHybridSearch`). It lowers, trims and tokenises the query. It then scores every section of every document that passes the category filter, keeps those scoring at least 5, sorts them by descending score (a stable sort) and keeps ten.
3. **Answer builder** (`generateStructuredResponse` and helpers). From the top result it builds an answer:
   - a conclusion, whose template is picked by trigger phrases in the query;
   - a key-facts table;
   - the citation;
   - next steps;
   - warnings;
   - a confidence percentage;
   - the two runners-up.

   When there is no result it builds a fixed "nothing found" answer instead.
4. **Bounded histories**. The five most recent questions (deduplicated, newest first) and the fifty most recent chat logs.

The Dafny project models each stage in the source's own form:
- **Scorer and ranker.** Both are methods with loops (`Scorer.CalculateSectionScore`, `Ranker.ExecuteHybridSearch`). Each is proved equal to a specification function (`SectionScore`, `Rank`), and the promised properties are lemmas about those functions. The query is lowered, trimmed and split once, into a `Ranker.SearchQuery` value that the loops share, as app.js:173-174 does before its loops.
- **Key facts.** `Answers.ExtractKeyInfo` fills a key-facts object in a loop.
- **Conclusion and warnings.** `Answers.ComposeConclusion` picks the conclusion's template with the source's if-chain, and `Answers.GenerateStructuredResponse` pushes the warnings step by step.
- **Pure helpers.** `formatAmount`, `calculateConfidence`, `getConfidenceClass`, `generateNoResultResponse` and `escapeQuotes` are functions.
- **Globals.** `policyData`, `currentCategoryFilter`, `recentQuestions` and `chatLogs` are the fields of a `Sessions.Session` object. Its methods update them in place.

Files:
- `base.dfy`: option type and `slice`.
- `text.dfy`: the JavaScript string operations the core uses.
- `policy.dfy`: the data model.
- `scorer.dfy`, `ranker.dfy`, `answer.dfy` and `session.dfy`: the four stages above.
- `findings.dfy`: two places where the source, as written, does not do what it evidently means to.

## Model

| member | source | states |
|---|---|---|
| Text.LowerChar | app.js:173 | a lowered character is never an upper-case ASCII letter; an upper-case one moves down by 32 and any other is kept |
| Text.Lower | app.js:173 | `toLowerCase` keeps the length |
| Text.LowerEach | app.js:173 | `toLowerCase` lowers the text character by character, each as `LowerChar` does |
| Scorer.QueryLower | app.js:173 | `query.toLowerCase().trim()`: the lowered query, trimmed; `Text.LowerEach` and `Text.Trim`/`Text.TrimUnique` state what each step does |
| Text.Trim | app.js:173 | `trim` returns the piece of its input that neither starts nor ends with white space and outside of which there is only white space |
| Text.TrimUnique | app.js:173 | that description leaves no choice: any string meeting it is `Trim`'s result |
| Text.TrimmedSame | app.js:173 | two strings that both meet that description for the same text are equal |
| Text.Runs | app.js:174 | the runs of `\s`-free (or digit) characters: each run is non-empty and made only of such characters, and there is none exactly when the text has no such character |
| Text.RunsOfRun | app.js:174 | a non-empty text of run characters is a single run, so no run is split |
| Text.RunsSeparated | app.js:174 | a character outside the runs separates them: the runs of `a + [c] + b` are those of `a` then those of `b`, none dropped or merged; with the two rows above this fixes the runs of every text |
| Text.RunsOccur | app.js:174 | every word or digit run cut from a text occurs in that text |
| Text.Contains | app.js:219-264 | `includes`: some position of the text starts with the searched text; `Text.ContainsSelf` (a text contains itself) and `Text.ContainsInContext` (what a part contains, every text around that part contains) are the properties the scoring and answer proofs use |
| Text.NatToStringRoundTrip | app.js:375 | `String(n)` of a natural number reads back as `n` |
| Text.DecimalValue | app.js:246 | `parseInt` of a digit run, read most significant digit first; `Text.NatToStringRoundTrip` (it inverts `String(n)`) and `Text.DecimalValueAppend` (the value of `a + b` is that of `a` shifted by the digits of `b`, plus that of `b`) characterise it |
| Text.Grouped | app.js:373 | `toLocaleString` text of an amount is non-empty and starts with a digit |
| Text.GroupedRoundTrip | app.js:373 | the comma-grouped text of an amount, commas removed, is all digits and reads back as the amount |
| Text.Join | app.js:311 | `join` of no parts is empty, every part is at most as long as the joined text, which starts with the first part and ends with the last |
| Text.JoinContains | app.js:311 | every part occurs in the joined text |
| Text.EscapeQuotesIsEscapeEach | app.js:706-708 | the two chained replacements put exactly one backslash before every `'` and `"` and change nothing else |
| Text.EscapeQuotes | app.js:706-708 | `escapeQuotes` equals the one-character-at-a-time escaping of each quote |
| Scorer.LongWords | app.js:174 | the filter keeps exactly the words longer than one character |
| Scorer.LongWordsAppend | app.js:174 | the filter keeps order and repeats: it distributes over concatenation |
| Scorer.QueryWords | app.js:173-174 | every query word has at least two characters, has no white space and occurs in the lowered, trimmed query; every white-space-free run of two or more characters is a query word; a blank query has none |
| Scorer.QueryWordsSeparated | app.js:174 | white space separates query words: the words of `a + [c] + b` are those of `a` then those of `b`, in order, repeats kept |
| Scorer.QueryWordsOfWord | app.js:174 | a white-space-free stretch is one query word when at least two characters long, and none otherwise |
| Scorer.TagHits | app.js:234-240 | the number of tags matching a word is at most the tag count |
| Scorer.TagHitsZero | app.js:234-240 | no tag matches a word exactly when no lowered tag contains it |
| Scorer.KeywordScore | app.js:224-240 | `keywordMatch`: per query word, 8 for a title hit, 5 for a content hit and 6 per matching tag, summed over the words; `Scorer.KeywordScoreAppend` and `Scorer.TagMatchScores` state its properties |
| Scorer.NumberScore | app.js:245-252 | one query number adds 10 when it equals an amount, else 5 when it lies in some amount's band (`Scorer.NearAmount`), else 0; `Scorer.ExactNeverBelowBand` relates the two cases |
| Scorer.AmountScore | app.js:243-253 | `amountMatch`: the sum of `NumberScore` over the query's digit runs read by `parseInt`; `Scorer.AmountScoreAppend` and `Scorer.AmountScoreBounds` state its properties |
| Scorer.NearAmount | app.js:249 | for a positive amount the test passes exactly when the number lies strictly between 90% and 110% of it; it always fails for an amount of 0 and always passes for a negative amount |
| Scorer.SectionScore | app.js:206-278 | exact-match is 0 or 15, procedure-match is 0 or 8 and only for a section with steps, category bonus is 0 or 5 and only for a non-empty category, amount-match is 0 when the raw query has no digits |
| Scorer.CalculateSectionScore | app.js:206-278 | the accumulating loops (tag loop inside the word loop) compute exactly the breakdown `SectionScore` specifies, and the total is the sum of the five parts |
| Scorer.KeywordScoreAppend | app.js:224-231 | keyword scores add over concatenated word lists, repeated words counting again, so appending words never lowers `keywordMatch` |
| Scorer.TagMatchScores | app.js:234-240 | a query word contained in a lowered keyword tag earns at least the keyword weight 6 |
| Scorer.AmountScoreAppend | app.js:243-253 | amount scores add over concatenated lists of query numbers |
| Scorer.AmountScoreBounds | app.js:243-253 | amount-match is 0 with no query number or no section amount, and at most 10 per query number |
| Scorer.ExactNeverBelowBand | app.js:243-253 | a query number equal to an amount scores exactly 5 more than one only within 10% of an amount, in an otherwise identical query |
| Ranker.ResultFor | app.js:186-195 | the pushed result carries the policy, the section, the query and a total equal to the sum of its breakdown |
| Ranker.SectionCandidatesSound | app.js:185-197 | every result collected for a policy is one of its sections, scored as the scorer scores it, at or above 5 |
| Ranker.CandidatesSound | app.js:179-198 | every collected result is admitted: scored by the scorer, at least 5, its policy passing the category filter |
| Ranker.CandidatesComplete | app.js:179-198 | every section scoring at least 5 in a policy passing the filter is collected |
| Ranker.DescendingIsSorted | app.js:201-202 | non-increasing neighbours mean non-increasing order throughout |
| Ranker.InsertByScoreSorted | app.js:201-202 | inserting into a sorted list keeps it sorted |
| Ranker.InsertByScorePermutes | app.js:201-202 | inserting adds exactly the one element and loses none |
| Ranker.SortByScoreSorted | app.js:201-202 | the sort returns a permutation of its input in non-increasing score order |
| Ranker.SortByScore | app.js:201-202 | the stable sort by descending score keeps the length; it is characterised by `Ranker.SortByScoreSorted` (a permutation, in non-increasing order) and `Ranker.SortIsStable` (equal scores keep their order) |
| Ranker.InsertKeepsTies | app.js:201-202 | an inserted element lands behind every element of equal score already in place |
| Ranker.SortIsStable | app.js:201-202 | for every score, the results with that score come out in the order they went in |
| Ranker.ScoreSections | app.js:185-197 | the inner loop collects exactly the specified results of one policy, in section order |
| Ranker.ScorePolicy | app.js:179-197 | one turn of the loop over policies extends the results collected so far to those of one more policy: nothing for a policy the category filter skips, its sections at or above 5 otherwise |
| Ranker.InsertAheadTies | app.js:201-202 | an element that outscores the head of a sorted list passes no element of its own score |
| Ranker.CollectCandidates | app.js:179-198 | the outer loop skips the policies the category filter rejects and collects exactly the specified results, in document-then-section order |
| Ranker.Rank | app.js:168-204 | nothing before the corpus is loaded; otherwise the first ten (or all, if fewer) candidates in sorted order |
| Ranker.ExecuteHybridSearch | app.js:168-204 | the nested loops, sort and cut compute `Rank`: at most ten results, sorted, each admitted |
| Ranker.RankShape | app.js:168-204 | the ranking is empty without a corpus, has at most ten results, sorted, each admitted, each from the corpus, and under any filter but "all" only from that category |
| Ranker.RankKeepsTheBest | app.js:201-203 | for any prepared query, a candidate left out of the sorted, cut ranking scores no more than any kept result, and is left out only when ten are kept |
| Ranker.RankKeepsTieOrder | app.js:201-203 | for any prepared query and each score, the kept results of that score are the first ones of that score in document-then-section order |
| Answers.ChooseTemplate | app.js:295-303 | the template chosen is triggered by the query (or is the fallback), and no template tested earlier is triggered |
| Answers.ChooseTemplateIsFirstTriggered | app.js:295-303 | those two conditions determine the template: the first triggered one in the order limit, procedure, amount, else highlighted content |
| Answers.LargeAmounts | app.js:414 | the filter keeps exactly the amounts of at least 1000 |
| Answers.LargeAmountsAppend | app.js:414 | the filter keeps the original order |
| Answers.FormatAmount | app.js:410-417 | the text is empty exactly when no amount reaches 1000 (so also for no amounts) and names every amount that does |
| Answers.FiftyThousandWon | app.js:415 | 50000 is written "50,000원" |
| Answers.Won | app.js:415 | `amount.toLocaleString() + '원'` (also app.js:373): the comma-grouped amount then the currency sign; `Answers.FiftyThousandWon` and `Text.GroupedRoundTrip` (the grouped digits read back as the amount) characterise it |
| Answers.Confidence | app.js:419-428 | confidence is always within [30,100], is twice the score between 15 and 50, 30 below and 100 above |
| Answers.ConfidenceClass | app.js:669-673 | high exactly from 80, medium exactly from 60 to 79, low below 60 |
| Answers.ScoreClass | app.js:419-428 | for an answer built from a result: high exactly from score 40, medium from 30 to 39, low below 30 |
| Answers.NoResultResponse | app.js:340-350 | confidence 0, no key facts, no citation, exactly one warning, a ticket advised, the query quoted in the conclusion |
| Answers.LabelInjective | app.js:371-382 | distinct key-fact keys have distinct property names |
| Answers.Put | app.js:373-382 | assigning a property sets that key, changes no other, keeps an existing key in place and appends a new one |
| Answers.LastDayIndex | app.js:374-375 | the position of the last amount of at most 30, none exactly when no amount is at most 30 |
| Answers.ExtractKeyInfo | app.js:352-386 | the loop over the amounts and the procedure assignment compute the specified key-facts object, `null` when empty |
| Answers.AmountFactsByIndex | app.js:371-377 | each amount of at least 1000 is reported under its 1-based position with its currency text, and no other position has an amount key |
| Answers.AmountFactsDayCount | app.js:371-377 | the day-count key holds the last amount of at most 30, and is absent when there is none |
| Answers.KeyFactsSteps | app.js:380-383 | the procedure key holds the steps joined with arrows exactly when there are steps, and the amount facts are untouched |
| Answers.AmountFactsEmpty | app.js:371-377 | the amounts add no entry exactly when all lie strictly between 30 and 1000 |
| Answers.KeyInfoNull | app.js:385 | the key facts are `null` exactly when no amount is at least 1000 or at most 30 and there are no steps |
| Answers.KeyInfo | app.js:352-386 | the key-facts object, `null` when it has no entry; its entries are stated by `Answers.AmountFactsByIndex`, `Answers.AmountFactsDayCount` and `Answers.KeyFactsSteps`, and when it is `null` by `Answers.KeyInfoNull` |
| Answers.StepsOrFallback | app.js:298 | the procedure template never shows an empty step list |
| Answers.NextSteps | app.js:309-312 | with steps, the next-step text names every step; without, it names the owner |
| Answers.Keys | app.js:385 | the object's keys, one per entry, in insertion order |
| Answers.CitationOf | app.js:326-332 | the citation copies the policy's title, version, date and owner, and writes the section as its identifier after "§" |
| Answers.Warnings | app.js:315-321 | the exceptions in order, then the inactive-regulation warning exactly when the status is not "active"; empty exactly when neither applies |
| Answers.ComposeConclusion | app.js:293-303 | the if-chain over the trigger phrases appends to the lead exactly the sentence of the first triggered template |
| Answers.GenerateStructuredResponse | app.js:284-338 | the answer meets `Answers.StructuredAnswer`: no results give the no-result answer; otherwise the conclusion, key facts, citation, next steps, warnings (`null` when none) and confidence are those of the first result, the 2nd and 3rd results follow as further reading, no ticket is advised; a found answer's confidence lies in [30,100] |
| Answers.LeadCites | app.js:293 | the conclusion cites the policy title and the section |
| Answers.TemplateMentions | app.js:295-303 | the limit and amount templates name every amount of at least 1000, the procedure template every step, the fallback the highlighted content |
| Answers.ConclusionMentions | app.js:293-303 | the conclusion cites title and section and then what its template promises |
| Answers.Lead | app.js:293 | the conclusion's opening: the policy title, the section identifier and "조에 따르면, "; `Answers.LeadCites` states that it cites both |
| Answers.TemplateText | app.js:295-303 | the sentence each template appends to the lead; `Answers.TemplateMentions` states what each template names |
| Sessions.RemoveAll | app.js:712 | the filter drops every copy of the question and keeps everything else |
| Sessions.RemoveAllAbsent | app.js:712 | filtering out a question that is absent changes nothing |
| Sessions.RemoveAllAppend | app.js:712 | the filter keeps the order of the remaining questions |
| Sessions.RemoveAllNoDuplicates | app.js:712 | filtering keeps a duplicate-free list free of duplicates |
| Sessions.PushRecent | app.js:710-720 | the question is first and nowhere else, at most five entries, the others in their previous order |
| Sessions.PushRecentNoDuplicates | app.js:710-720 | a duplicate-free list stays duplicate-free |
| Sessions.PushRecentIdempotent | app.js:710-720 | asking the same question twice leaves the list as asking it once |
| Sessions.Summary | app.js:778 | the summary is the first hundred characters of the conclusion, or "No answer" when it is empty |
| Sessions.SourceTitle | app.js:782 | the cited title when there is a citation with a non-empty title; "No source" when there is no citation or its title is empty |
| Sessions.MakeLog | app.js:775-783 | the log records timestamp, question, category, confidence and result count as given, a non-empty summary of at most 100 characters (the conclusion's head when there is one), and the cited title, or "No source" when there is no citation or its title is empty |
| Sessions.PushLog | app.js:785-790 | the new log first, at most fifty, the older logs after it in their order |
| Sessions.Session.constructor | app.js:7-11 | no corpus, the "all" filter and empty histories |
| Sessions.Session.AddToRecentQuestions | app.js:710-731 | the list becomes `PushRecent` of the old one, nothing else changes, the session invariant is kept |
| Sessions.Session.SaveChatLog | app.js:774-793 | the log list becomes `PushLog` of the old one with the new entry, nothing else changes, the invariant is kept |
| Sessions.Session.Ask | app.js:484-505 | the answer is the structured answer (`Answers.StructuredAnswer`) for the ranking under the session's filter: the no-result answer when nothing is ranked, otherwise every field from the top result; its confidence is 0 exactly when nothing is ranked; the exchange is logged and nothing else changes |
| Findings.SectionScoreAsWritten | app.js:234-240 | as written, scoring throws exactly for a section with keyword tags |
| Findings.KeywordTagWitness | app.js:234-240 | a section tagged "연차" and the query "연차": as written no score, as intended a keyword match of 6 |
| Findings.StructuredResponseAsWritten | app.js:289-293 | as written, any non-empty ranking throws; only the no-result answer is produced |
| Findings.TopResultWitness | app.js:289-293 | for any non-empty ranking, as written there is no answer, while an answer meeting `Answers.StructuredAnswer` exists and every such answer cites the first result with confidence in [30,100] |

## Left out

- The page is not modelled. That covers building the DOM and HTML, escaping HTML, scrolling, the admin login and log view, `contactHR`, clipboard copying and the debug hooks. None of it takes part in scoring or answering.
- `highlightImportantInfo` is not modelled. It is a parameter `highlight` of `Answers.GenerateStructuredResponse`, and its regular-expression markup is not.
- Fetching and parsing the corpus is not modelled. The corpus is an already-typed `Option<seq<Policy>>`.
- Persisting and loading the histories through local storage is not modelled. Lists loaded from storage are therefore not checked against `Session.Valid`.
- Logging to the console is not modelled.
- Tier1/Tier2 extraction in `extractKeyInfo` is not modelled. The branch is reached only for a section with amounts (app.js:356), and only when the query contains the exact spelling `tier1` or `Tier1` (app.js:357), or `tier2` or `Tier2` (app.js:363). If the content then matches the tier pattern, app.js:360 and app.js:366 call `match` on the array of matches, which throws a TypeError. Otherwise the branch adds nothing. `Answers.ExtractKeyInfo` models the path that does not throw and has no query parameter.
- The `performSearch` error path is not modelled. `Sessions.Session.Ask` covers its successful path only, without the loading indicator or the display.
- Text.Lower: lowers only ASCII letters. `toLowerCase` also lowers other alphabets, but Hangul is unaffected.
- Text.Grouped: comma grouping stands for `toLocaleString`, whose output depends on the locale.
- Scorer.LongWords: compares `|w| > 1` in code points, where `word.length > 1` counts UTF-16 code units. A one-character word outside the Basic Multilingual Plane (an emoji, a CJK Extension B ideograph) is kept by app.js and dropped here; on the Basic Multilingual Plane, Hangul included, the two agree.
- Sessions.Summary: counts code points where `slice` counts UTF-16 code units. The two agree on text without characters outside the Basic Multilingual Plane.
- Sessions.Session.SaveChatLog: the timestamp is a parameter instead of the clock.
- Scorer.SectionScore: takes query numbers and amounts as exact integers. JavaScript's `parseInt` and `includes` compare floating-point numbers, which differ above 2^53. Amounts that are not integers are not modelled.
- Scorer.NearAmount: follows the code for every amount, not only positive ones. A negative amount makes the quotient negative, so the band test passes. An amount of 0 gives `Infinity` or `NaN`, so it fails.
- Answers.Confidence: `Math.round(score / 50 * 100)` is written as `2 * score`. The two are equal for the integer scores the scorer produces.
- The scorer's keyword-tag loop and the top-result binding are modelled as intended. The code as written is kept beside them in `findings.dfy`.
- `Answers.Answer` has no `additionalResults` in the no-result answer; it is the empty sequence. The structured answer has no `isTicketNeeded`; it is `false`.
- The corpus JSON calls the section identifier `section`. In `Policies.Section` it is `id`.
- A section's optional lists (`keywords`, `amounts`, `procedures`, `exceptions`) are modelled as sequences. A missing list is the empty one, which every branch of the code treats alike.

## Findings

| source | as written | input that shows it | evidently intended | confidence | as-written member | corrected member |
|---|---|---|---|---|---|---|
| app.js:234-240 | The keyword-tag loop reads `word` after the loop that binds it has closed (app.js:231). Scoring therefore throws a ReferenceError for every section with at least one keyword tag, and the whole search fails. | A section with keywords `["연차"]` and the query "연차" (`Findings.KeywordTagWitness`) | Add 6 for each (query word, tag) pair whose lowered tag contains the word (`Scorer.TagMatchScores`) | not executed | Findings.SectionScoreAsWritten | Scorer.CalculateSectionScore |
| app.js:289-290 | `topResult` is bound to the whole result array, so `policy` and `section` are undefined. Reading `policy.title` at app.js:293 throws a TypeError whenever there is a result. | Any non-empty ranking (`Findings.TopResultWitness`: as written no answer, as intended an answer exists and cites the first result) | Build the answer from `searchResults[0]`, with confidence in [30,100] | not executed | Findings.StructuredResponseAsWritten | Answers.GenerateStructuredResponse |
