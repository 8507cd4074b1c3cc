/** `calculateSectionScore`: the five-part heuristic score of one section of one
    policy against a query, and the query preprocessing `executeHybridSearch`
    does before it scores anything. */
module Scorer {
  import opened Base
  import opened Text
  import opened Policies

  const EXACT_MATCH := 15
  const TITLE_HIT := 8
  const CONTENT_HIT := 5
  /** `SEARCH_WEIGHTS.KEYWORD`. */
  const KEYWORD := 6
  const NUMERIC_EXACT := 10
  const NUMERIC_NEAR := 5
  const PROCEDURE := 8
  const CATEGORY_BONUS := 5

  const PROCEDURE_KEYWORDS: seq<string> := ["신청", "승인", "절차", "방법", "과정"]

  // ---------------------------------------------------------------------------
  // Query preprocessing
  // ---------------------------------------------------------------------------

  /** `query.toLowerCase().trim()`. */
  function QueryLower(query: string): string {
    Trim(Lower(query))
  }

  /** `words.filter(word => word.length > 1)`. */
  function LongWords(words: seq<string>): (r: seq<string>)
    ensures forall w <- r :: |w| > 1 && w in words
    ensures forall w <- words :: |w| > 1 ==> w in r
  {
    if words == [] then []
    else
      var init, last := words[..|words| - 1], words[|words| - 1];
      assert forall w <- init :: w in words;
      assert words == init + [last];
      LongWords(init) + (if |last| > 1 then [last] else [])
  }

  /** The filter keeps order and repeats: it distributes over concatenation. */
  lemma {:induction false} LongWordsAppend(a: seq<string>, b: seq<string>)
    ensures LongWords(a + b) == LongWords(a) + LongWords(b)
    decreases |b|
  {
    if b == [] {
      assert a + b == a;
    } else {
      var b' := b[..|b| - 1];
      assert (a + b)[..|a + b| - 1] == a + b';
      LongWordsAppend(a, b');
      AppendAssoc(LongWords(a), LongWords(b'), if |b[|b| - 1]| > 1 then [b[|b| - 1]] else []);
    }
  }

  /** One word is kept exactly when it is longer than one character. */
  lemma LongWordsSingle(w: string)
    ensures LongWords([w]) == if |w| > 1 then [w] else []
  {
    assert [w][..0] == [];
  }

  /** `queryLower.split(/\s+/).filter(word => word.length > 1)`: the query's
      words of two or more characters, each free of white space and each a
      piece of the lowered, trimmed query; every such word is among them, and
      a query of white space alone has none. */
  function QueryWords(queryLower: string): (r: seq<string>)
    ensures forall w <- r :: |w| > 1 && AllIn(w, NotSpace) && Contains(queryLower, w)
    ensures forall w <- Words(queryLower) :: |w| > 1 ==> w in r
    ensures NoneIn(queryLower, NotSpace) ==> r == []
  {
    RunsOccur(queryLower, NotSpace);
    LongWords(Words(queryLower))
  }

  /** White space separates query words: the words of `a + [c] + b` are
      those of `a` followed by those of `b`, in order, repeats kept. */
  lemma QueryWordsSeparated(a: string, c: char, b: string)
    requires IsSpace(c)
    ensures QueryWords(a + [c] + b) == QueryWords(a) + QueryWords(b)
  {
    RunsSeparated(a, c, b, NotSpace);
    LongWordsAppend(Words(a), Words(b));
  }

  /** A stretch without white space is one query word when it has at least
      two characters, and none otherwise. */
  lemma QueryWordsOfWord(w: string)
    requires w != [] && AllIn(w, NotSpace)
    ensures QueryWords(w) == if |w| > 1 then [w] else []
  {
    RunsOfRun(w, NotSpace);
    LongWordsSingle(w);
  }

  // ---------------------------------------------------------------------------
  // The five sub-scores as functions
  // ---------------------------------------------------------------------------

  /** Title and content hits of one query word. */
  function TextHits(word: string, titleText: string, sectionText: string): nat {
    (if Contains(titleText, word) then TITLE_HIT else 0)
    + (if Contains(sectionText, word) then CONTENT_HIT else 0)
  }

  /** The number of keyword tags whose lower case contains `word`. */
  function TagHits(word: string, tags: seq<string>): (r: nat)
    ensures r <= |tags|
  {
    if tags == [] then 0
    else TagHits(word, tags[..|tags| - 1]) + (if Contains(Lower(tags[|tags| - 1]), word) then 1 else 0)
  }

  /** A word matches no tag exactly when no lowered tag contains it. */
  lemma {:induction false} TagHitsZero(word: string, tags: seq<string>)
    ensures TagHits(word, tags) == 0 <==> forall t | 0 <= t < |tags| :: !Contains(Lower(tags[t]), word)
  {
    if tags != [] {
      var init := tags[..|tags| - 1];
      TagHitsZero(word, init);
      assert forall t | 0 <= t < |init| :: init[t] == tags[t];
    }
  }

  /** Everything one query word contributes to `keywordMatch`. */
  function WordScore(word: string, titleText: string, sectionText: string, tags: seq<string>): nat {
    TextHits(word, titleText, sectionText) + KEYWORD * TagHits(word, tags)
  }

  /** `keywordMatch`: the sum of the word scores, repeated words counted again. */
  function KeywordScore(words: seq<string>, titleText: string, sectionText: string, tags: seq<string>): nat {
    if words == [] then 0
    else KeywordScore(words[..|words| - 1], titleText, sectionText, tags)
         + WordScore(words[|words| - 1], titleText, sectionText, tags)
  }

  /** `Math.abs(amount - n) / amount < 0.1` in exact arithmetic. For a positive
      amount it is the 10% band; a negative amount makes the quotient negative,
      so it always passes; an amount of 0 gives Infinity or NaN, which fails. */
  predicate NearAmount(amount: int, n: nat)
    ensures amount > 0 ==> (NearAmount(amount, n) <==> 9 * amount < 10 * n < 11 * amount)
    ensures amount == 0 ==> !NearAmount(amount, n)
    ensures amount < 0 ==> NearAmount(amount, n)
  {
    if amount > 0 then 10 * (if amount >= n then amount - n else n - amount) < amount
    else amount < 0
  }

  /** What one number of the query contributes to `amountMatch`. */
  function NumberScore(n: nat, amounts: seq<int>): nat {
    if n in amounts then NUMERIC_EXACT
    else if exists a | a in amounts :: NearAmount(a, n) then NUMERIC_NEAR
    else 0
  }

  predicate DigitStrings(runs: seq<string>) {
    forall d <- runs :: AllIn(d, IsDigit)
  }

  /** `amountMatch`: the sum over the digit runs of the query. */
  function AmountScore(runs: seq<string>, amounts: seq<int>): nat
    requires DigitStrings(runs)
  {
    if runs == [] then 0
    else AmountScore(runs[..|runs| - 1], amounts) + NumberScore(DecimalValue(runs[|runs| - 1]), amounts)
  }

  predicate ProcedureQuery(queryLower: string) {
    exists kw | kw in PROCEDURE_KEYWORDS :: Contains(queryLower, kw)
  }

  /** The whole breakdown, as the specification of `CalculateSectionScore`. */
  function SectionScore(section: Section, policy: Policy, queryLower: string,
                        queryWords: seq<string>, originalQuery: string): (r: Breakdown)
    ensures r.exactMatch == 0 || r.exactMatch == EXACT_MATCH
    ensures r.procedureMatch == 0 || r.procedureMatch == PROCEDURE
    ensures r.categoryBonus == 0 || r.categoryBonus == CATEGORY_BONUS
    ensures r.keywordMatch >= 0 && r.amountMatch >= 0
    ensures r.procedureMatch == PROCEDURE ==> section.procedures != []
    ensures r.categoryBonus == CATEGORY_BONUS ==> policy.category != []
    ensures DigitRuns(originalQuery) == [] ==> r.amountMatch == 0
  {
    var sectionText := Lower(section.content);
    var titleText := Lower(section.title);
    Breakdown(
      if Contains(sectionText, queryLower) || Contains(titleText, queryLower) then EXACT_MATCH else 0,
      KeywordScore(queryWords, titleText, sectionText, section.keywords),
      AmountScore(DigitRuns(originalQuery), section.amounts),
      if ProcedureQuery(queryLower) && |section.procedures| > 0 then PROCEDURE else 0,
      if policy.category != [] && Contains(queryLower, policy.category) then CATEGORY_BONUS else 0)
  }

  // ---------------------------------------------------------------------------
  // The scorer as app.js runs it
  // ---------------------------------------------------------------------------

  /** `calculateSectionScore`: accumulates the breakdown field by field, with
      the keyword-tag loop running inside the query-word loop. */
  method CalculateSectionScore(section: Section, policy: Policy, queryLower: string,
                               queryWords: seq<string>, originalQuery: string) returns (score: Score)
    ensures score.breakdown == SectionScore(section, policy, queryLower, queryWords, originalQuery)
    ensures score.total == score.breakdown.Total()
  {
    var exactMatch, keywordMatch, amountMatch, procedureMatch, categoryBonus := 0, 0, 0, 0, 0;
    var sectionText := Lower(section.content);
    var titleText := Lower(section.title);
    var tags := section.keywords;

    if Contains(sectionText, queryLower) || Contains(titleText, queryLower) {
      exactMatch := EXACT_MATCH;
    }

    var i := 0;
    while i < |queryWords|
      invariant 0 <= i <= |queryWords|
      invariant keywordMatch == KeywordScore(queryWords[..i], titleText, sectionText, tags)
    {
      var word := queryWords[i];
      var before := keywordMatch;
      if Contains(titleText, word) {
        keywordMatch := keywordMatch + TITLE_HIT;
      }
      if Contains(sectionText, word) {
        keywordMatch := keywordMatch + CONTENT_HIT;
      }
      var j := 0;
      while j < |tags|
        invariant 0 <= j <= |tags|
        invariant keywordMatch == before + TextHits(word, titleText, sectionText) + KEYWORD * TagHits(word, tags[..j])
      {
        if Contains(Lower(tags[j]), word) {
          keywordMatch := keywordMatch + KEYWORD;
        }
        assert tags[..j + 1][..j] == tags[..j];
        j := j + 1;
      }
      assert tags[..j] == tags;
      assert queryWords[..i + 1][..i] == queryWords[..i];
      i := i + 1;
    }
    assert queryWords[..i] == queryWords;

    var runs := DigitRuns(originalQuery);
    var k := 0;
    while k < |runs|
      invariant 0 <= k <= |runs|
      invariant amountMatch == AmountScore(runs[..k], section.amounts)
    {
      var numValue := DecimalValue(runs[k]);
      if numValue in section.amounts {
        amountMatch := amountMatch + NUMERIC_EXACT;
      } else if exists a | a in section.amounts :: NearAmount(a, numValue) {
        amountMatch := amountMatch + NUMERIC_NEAR;
      }
      assert runs[..k + 1][..k] == runs[..k];
      k := k + 1;
    }
    assert runs[..k] == runs;

    if ProcedureQuery(queryLower) && |section.procedures| > 0 {
      procedureMatch := PROCEDURE;
    }
    if policy.category != [] && Contains(queryLower, policy.category) {
      categoryBonus := CATEGORY_BONUS;
    }

    var breakdown := Breakdown(exactMatch, keywordMatch, amountMatch, procedureMatch, categoryBonus);
    score := Score(breakdown.Total(), breakdown);
  }

  // ---------------------------------------------------------------------------
  // Properties
  // ---------------------------------------------------------------------------

  /** Keyword scores add up over concatenated word lists, so appending words
      to a query never lowers `keywordMatch`. */
  lemma {:induction false} KeywordScoreAppend(a: seq<string>, b: seq<string>,
                                              titleText: string, sectionText: string, tags: seq<string>)
    ensures KeywordScore(a + b, titleText, sectionText, tags)
         == KeywordScore(a, titleText, sectionText, tags) + KeywordScore(b, titleText, sectionText, tags)
    ensures KeywordScore(a + b, titleText, sectionText, tags) >= KeywordScore(a, titleText, sectionText, tags)
    decreases |b|
  {
    if b == [] {
      assert a + b == a;
    } else {
      var b' := b[..|b| - 1];
      assert (a + b)[..|a + b| - 1] == a + b';
      KeywordScoreAppend(a, b', titleText, sectionText, tags);
    }
  }

  lemma {:induction false} TagHitsPositive(word: string, tags: seq<string>, t: nat)
    requires t < |tags| && Contains(Lower(tags[t]), word)
    ensures TagHits(word, tags) >= 1
  {
    if t < |tags| - 1 {
      TagHitsPositive(word, tags[..|tags| - 1], t);
    }
  }

  lemma {:induction false} KeywordScoreCountsEachWord(words: seq<string>, titleText: string,
                                                      sectionText: string, tags: seq<string>, k: nat)
    requires k < |words|
    ensures KeywordScore(words, titleText, sectionText, tags) >= WordScore(words[k], titleText, sectionText, tags)
  {
    if k < |words| - 1 {
      KeywordScoreCountsEachWord(words[..|words| - 1], titleText, sectionText, tags, k);
    }
  }

  /** A query word contained in one of the section's lowered keyword tags
      earns at least the keyword weight. */
  lemma TagMatchScores(section: Section, policy: Policy, queryLower: string,
                       queryWords: seq<string>, originalQuery: string, k: nat, t: nat)
    requires k < |queryWords| && t < |section.keywords|
    requires Contains(Lower(section.keywords[t]), queryWords[k])
    ensures SectionScore(section, policy, queryLower, queryWords, originalQuery).keywordMatch >= KEYWORD
  {
    TagHitsPositive(queryWords[k], section.keywords, t);
    KeywordScoreCountsEachWord(queryWords, Lower(section.title), Lower(section.content), section.keywords, k);
  }

  /** Amount scores add up over concatenated lists of digit runs. */
  lemma {:induction false} AmountScoreAppend(a: seq<string>, b: seq<string>, amounts: seq<int>)
    requires DigitStrings(a) && DigitStrings(b)
    ensures DigitStrings(a + b)
    ensures AmountScore(a + b, amounts) == AmountScore(a, amounts) + AmountScore(b, amounts)
    decreases |b|
  {
    if b == [] {
      assert a + b == a;
    } else {
      var b' := b[..|b| - 1];
      assert (a + b)[..|a + b| - 1] == a + b';
      AmountScoreAppend(a, b', amounts);
    }
  }

  /** `amountMatch` is 0 when the query has no digit run or the section no
      amount, and at most 10 per digit run otherwise. */
  lemma {:induction false} AmountScoreBounds(runs: seq<string>, amounts: seq<int>)
    requires DigitStrings(runs)
    ensures AmountScore(runs, amounts) <= NUMERIC_EXACT * |runs|
    ensures runs == [] || amounts == [] ==> AmountScore(runs, amounts) == 0
  {
    if runs != [] {
      AmountScoreBounds(runs[..|runs| - 1], amounts);
    }
  }

  /** A query number that is one of the section's amounts never scores below a
      number that is only within the 10% band of one, in any otherwise
      identical query. */
  lemma ExactNeverBelowBand(before: seq<string>, exact: string, near: string, after: seq<string>,
                            amounts: seq<int>)
    requires DigitStrings(before) && DigitStrings(after)
    requires AllIn(exact, IsDigit) && AllIn(near, IsDigit)
    requires DecimalValue(exact) in amounts
    requires DecimalValue(near) !in amounts
    requires exists a | a in amounts :: NearAmount(a, DecimalValue(near))
    ensures DigitStrings(before + [exact] + after) && DigitStrings(before + [near] + after)
    ensures AmountScore(before + [exact] + after, amounts)
         == AmountScore(before + [near] + after, amounts) + (NUMERIC_EXACT - NUMERIC_NEAR)
  {
    AmountScoreAppend(before, [exact], amounts);
    AmountScoreAppend(before + [exact], after, amounts);
    AmountScoreAppend(before, [near], amounts);
    AmountScoreAppend(before + [near], after, amounts);
    assert [exact][..0] == [] && [near][..0] == [];
  }
}
