/** The answer builder: from the ranked results and the raw query, the
    structured answer the chat window shows (conclusion, key facts, citation,
    next steps, warnings, confidence and the runners-up), or the fixed
    "nothing found" answer.

    `highlightImportantInfo`, which only wraps parts of the content in HTML
    markup, is a parameter `highlight` of the builder. */
module Answers {
  import opened Base
  import opened Text
  import opened Policies

  // ---------------------------------------------------------------------------
  // Conclusion templates
  // ---------------------------------------------------------------------------

  /** The four ways the conclusion may continue after the citation lead. */
  datatype Template = Limit | Procedure | Amount | Highlight

  /** The order in which the trigger phrases are tested. */
  function Precedence(t: Template): nat {
    match t
    case Limit => 0
    case Procedure => 1
    case Amount => 2
    case Highlight => 3
  }

  /** The phrases that select each template; the highlighted content is the
      fallback and has none. */
  function Triggers(t: Template): seq<string> {
    match t
    case Limit => ["상한", "한도"]
    case Procedure => ["절차", "방법"]
    case Amount => ["얼마", "금액"]
    case Highlight => []
  }

  predicate Triggered(t: Template, query: string) {
    exists w | w in Triggers(t) :: Contains(query, w)
  }

  /** The `if … else if …` chain on the raw query: the template chosen is
      triggered by the query (or is the fallback), and no template tested
      before it is. */
  function ChooseTemplate(query: string): (t: Template)
    ensures t == Highlight || Triggered(t, query)
    ensures forall u: Template :: Precedence(u) < Precedence(t) ==> !Triggered(u, query)
  {
    if Contains(query, "상한") || Contains(query, "한도") then Limit
    else if Contains(query, "절차") || Contains(query, "방법") then Procedure
    else if Contains(query, "얼마") || Contains(query, "금액") then Amount
    else Highlight
  }

  /** Those two conditions leave no choice: the first triggered template wins. */
  lemma ChooseTemplateIsFirstTriggered(query: string, t: Template)
    requires t == Highlight || Triggered(t, query)
    requires forall u: Template :: Precedence(u) < Precedence(t) ==> !Triggered(u, query)
    ensures t == ChooseTemplate(query)
  {
    assert Precedence(ChooseTemplate(query)) == Precedence(t);
  }

  // ---------------------------------------------------------------------------
  // Amounts as text
  // ---------------------------------------------------------------------------

  /** `amount.toLocaleString()` for an integer amount. */
  function Localized(amount: int): string {
    if amount < 0 then "-" + Grouped(-amount) else Grouped(amount)
  }

  /** `amount.toLocaleString() + '원'`. */
  function Won(amount: int): string {
    Localized(amount) + "원"
  }

  /** `amounts.filter(amount => amount >= 1000)`. */
  function LargeAmounts(amounts: seq<int>): (r: seq<int>)
    ensures forall a <- r :: a >= 1000 && a in amounts
    ensures forall a <- amounts :: a >= 1000 ==> a in r
  {
    if amounts == [] then []
    else
      var init, last := amounts[..|amounts| - 1], amounts[|amounts| - 1];
      assert forall a <- init :: a in amounts;
      assert amounts == init + [last];
      LargeAmounts(init) + (if last >= 1000 then [last] else [])
  }

  /** The filter keeps the original order: it distributes over concatenation. */
  lemma {:induction false} LargeAmountsAppend(a: seq<int>, b: seq<int>)
    ensures LargeAmounts(a + b) == LargeAmounts(a) + LargeAmounts(b)
    decreases |b|
  {
    if b == [] {
      assert a + b == a;
    } else {
      var b' := b[..|b| - 1];
      assert (a + b)[..|a + b| - 1] == a + b';
      LargeAmountsAppend(a, b');
      AppendAssoc(LargeAmounts(a), LargeAmounts(b'), if b[|b| - 1] >= 1000 then [b[|b| - 1]] else []);
    }
  }

  /** `formatAmount`: the amounts of at least 1000, each written with its
      currency sign, joined by ", ". It is empty exactly when no amount
      reaches 1000 (in particular for no amounts at all), and it names every
      amount that does. */
  function FormatAmount(amounts: seq<int>): (r: string)
    ensures r == [] <==> forall a <- amounts :: a < 1000
    ensures forall a <- amounts :: a >= 1000 ==> Contains(r, Won(a))
  {
    var large := LargeAmounts(amounts);
    var parts := seq(|large|, k requires 0 <= k < |large| => Won(large[k]));
    FormatAmountProof(amounts, large, parts);
    Join(parts, ", ")
  }

  lemma FormatAmountProof(amounts: seq<int>, large: seq<int>, parts: seq<string>)
    requires large == LargeAmounts(amounts)
    requires |parts| == |large| && forall k | 0 <= k < |large| :: parts[k] == Won(large[k])
    ensures Join(parts, ", ") == [] <==> forall a <- amounts :: a < 1000
    ensures forall a <- amounts :: a >= 1000 ==> Contains(Join(parts, ", "), Won(a))
  {
    var r := Join(parts, ", ");
    JoinContains(parts, ", ");
    forall a <- amounts | a >= 1000 ensures Contains(r, Won(a)) && r != [] {
      assert a in large;
      var k :| 0 <= k < |large| && large[k] == a;
      assert parts[k] == Won(a) && Won(a) in parts;
      assert |Won(a)| <= |r|;
    }
    if large != [] {
      assert large[0] in large;
    }
  }

  // ---------------------------------------------------------------------------
  // Confidence
  // ---------------------------------------------------------------------------

  /** `calculateConfidence`: twice the score as a percentage, at most 100 and
      at least 30. */
  function Confidence(score: int): (c: int)
    ensures 30 <= c <= 100
    ensures 15 <= score <= 50 ==> c == 2 * score
    ensures score < 15 ==> c == 30
    ensures score > 50 ==> c == 100
  {
    var confidence := Min(100, 2 * score);
    if confidence < 30 then 30 else confidence
  }

  datatype Level = High | Medium | Low
  {
    /** The CSS class `getConfidenceClass` returns. */
    function ClassName(): string {
      match this
      case High => "high"
      case Medium => "medium"
      case Low => "low"
    }
  }

  /** `getConfidenceClass`. */
  function ConfidenceClass(confidence: int): (l: Level)
    ensures l == High <==> confidence >= 80
    ensures l == Medium <==> 60 <= confidence < 80
    ensures l == Low <==> confidence < 60
  {
    if confidence >= 80 then High
    else if confidence >= 60 then Medium
    else Low
  }

  /** For an answer built from a result, the class follows from the score:
      high from 40 up, medium from 30 to 39, low below 30. */
  lemma ScoreClass(score: int)
    ensures ConfidenceClass(Confidence(score)) == High <==> score >= 40
    ensures ConfidenceClass(Confidence(score)) == Medium <==> 30 <= score < 40
    ensures ConfidenceClass(Confidence(score)) == Low <==> score < 30
  {
    if 15 <= score <= 50 {
      assert Confidence(score) == 2 * score;
    }
  }

  // ---------------------------------------------------------------------------
  // The answer
  // ---------------------------------------------------------------------------

  /** The citation of the section the answer is built from. */
  datatype Citation = Citation(title: string, version: string, effectiveDate: string,
                               section: string, owner: string)

  /** The answer object. The no-result answer has no `additionalResults`
      (empty here) and the structured one no `isTicketNeeded` (false here). */
  datatype Answer = Answer(
    conclusion: string,
    keyInfo: Option<seq<Fact>>,
    source: Option<Citation>,
    nextSteps: string,
    warnings: Option<seq<string>>,
    confidence: int,
    additionalResults: seq<SearchResult>,
    isTicketNeeded: bool)

  const NO_RESULT_WARNING := "정확한 답변을 위해 HR팀에 문의해 주세요."

  /** `generateNoResultResponse`: confidence 0, no key facts and no citation,
      exactly one warning, a ticket advised, and the query quoted back. */
  function NoResultResponse(query: string): (a: Answer)
    ensures a.confidence == 0 && a.keyInfo.None? && a.source.None? && a.isTicketNeeded
    ensures a.warnings.Some? && |a.warnings.value| == 1
    ensures Contains(a.conclusion, query)
    ensures a.additionalResults == []
  {
    var before := "**\"";
    var after := "\"**에 대한 정확한 규정을 찾을 수 없습니다. HR팀 상담을 권장합니다.";
    ContainsSelf(query);
    ContainsInContext(before, query, after, query);
    Answer(before + query + after, None, None, "HR팀 상담 티켓을 생성하거나 직접 문의하세요.",
           Some([NO_RESULT_WARNING]), 0, [], true)
  }

  // ---------------------------------------------------------------------------
  // Key facts (`extractKeyInfo`)
  // ---------------------------------------------------------------------------

  /** The keys the key-facts object can hold. */
  datatype InfoKey = AmountKey(index: nat) | DayCount | Steps
  {
    /** The property name in the object. */
    function Label(): string {
      match this
      case AmountKey(n) => "금액 " + NatToString(n)
      case DayCount => "일수/개수"
      case Steps => "처리 절차"
    }
  }

  /** Distinct keys have distinct property names, so the object below may be
      keyed by `InfoKey`. */
  lemma LabelInjective(a: InfoKey, b: InfoKey)
    requires a.Label() == b.Label()
    ensures a == b
  {
    assert a.Label()[0] == b.Label()[0];
    if a.AmountKey? && b.AmountKey? {
      var prefix := "금액 ";
      assert a.Label()[|prefix|..] == NatToString(a.index);
      assert b.Label()[|prefix|..] == NatToString(b.index);
      NatToStringRoundTrip(a.index);
      NatToStringRoundTrip(b.index);
    }
  }

  /** One property of the key-facts object, in insertion order. */
  datatype Fact = Fact(key: InfoKey, value: string)

  function Keys(facts: seq<Fact>): (r: seq<InfoKey>)
    ensures |r| == |facts|
    ensures forall i | 0 <= i < |facts| :: r[i] == facts[i].key
  {
    if facts == [] then [] else [facts[0].key] + Keys(facts[1..])
  }

  /** `keyInfo[key]`. */
  function Lookup(facts: seq<Fact>, key: InfoKey): (r: Option<string>)
    ensures r.Some? ==> facts != []
  {
    if facts == [] then None
    else if facts[0].key == key then Some(facts[0].value)
    else Lookup(facts[1..], key)
  }

  /** `keyInfo[key] = value`: a key already present keeps its place and takes
      the new value, a new key goes last; no other key changes. */
  function Put(facts: seq<Fact>, key: InfoKey, value: string): (r: seq<Fact>)
    ensures Lookup(r, key) == Some(value)
    ensures forall k :: k != key ==> Lookup(r, k) == Lookup(facts, k)
    ensures Keys(r) == if key in Keys(facts) then Keys(facts) else Keys(facts) + [key]
  {
    if facts == [] then [Fact(key, value)]
    else if facts[0].key == key then [Fact(key, value)] + facts[1..]
    else
      var r := [facts[0]] + Put(facts[1..], key, value);
      assert r[1..] == Put(facts[1..], key, value);
      assert Keys(facts) == [facts[0].key] + Keys(facts[1..]);
      r
  }

  /** What one amount at position `i` (0-based) puts into the object. */
  function PutAmount(facts: seq<Fact>, i: nat, amount: int): seq<Fact> {
    if amount >= 1000 then Put(facts, AmountKey(i + 1), Won(amount))
    else if amount <= 30 then Put(facts, DayCount, IntToString(amount) + "일")
    else facts
  }

  /** The facts the `forEach` over the amounts puts, in order. */
  function AmountFacts(amounts: seq<int>): seq<Fact> {
    if amounts == [] then []
    else PutAmount(AmountFacts(amounts[..|amounts| - 1]), |amounts| - 1, amounts[|amounts| - 1])
  }

  const STEP_SEPARATOR := " → "

  /** All the facts of a section, the procedure last. */
  function KeyFacts(section: Section): seq<Fact> {
    var facts := AmountFacts(section.amounts);
    if |section.procedures| > 0 then Put(facts, Steps, Join(section.procedures, STEP_SEPARATOR)) else facts
  }

  /** The specification of `ExtractKeyInfo`: `null` for an empty object. */
  function KeyInfo(section: Section): Option<seq<Fact>> {
    var facts := KeyFacts(section);
    if facts == [] then None else Some(facts)
  }

  /** `extractKeyInfo` without its Tier1/Tier2 part: the amounts are visited
      in order, then the procedure is added. */
  method ExtractKeyInfo(section: Section) returns (keyInfo: Option<seq<Fact>>)
    ensures keyInfo == KeyInfo(section)
  {
    var facts: seq<Fact> := [];
    var amounts := section.amounts;
    var i := 0;
    while i < |amounts|
      invariant 0 <= i <= |amounts|
      invariant facts == AmountFacts(amounts[..i])
    {
      var amount := amounts[i];
      if amount >= 1000 {
        facts := Put(facts, AmountKey(i + 1), Won(amount));
      } else if amount <= 30 {
        facts := Put(facts, DayCount, IntToString(amount) + "일");
      }
      assert amounts[..i + 1][..i] == amounts[..i];
      i := i + 1;
    }
    assert amounts[..i] == amounts;
    if |section.procedures| > 0 {
      facts := Put(facts, Steps, Join(section.procedures, STEP_SEPARATOR));
    }
    keyInfo := if |facts| > 0 then Some(facts) else None;
  }

  /** Every amount of at least 1000 is reported under its 1-based position,
      with its currency text; no other position has an amount key. */
  lemma {:induction false} AmountFactsByIndex(amounts: seq<int>, n: nat)
    ensures Lookup(AmountFacts(amounts), AmountKey(n))
         == if 1 <= n <= |amounts| && amounts[n - 1] >= 1000 then Some(Won(amounts[n - 1])) else None
  {
    if amounts != [] {
      var i := |amounts| - 1;
      var init, last := amounts[..i], amounts[i];
      var facts := AmountFacts(init);
      AmountFactsByIndex(init, n);
      assert AmountFacts(amounts) == PutAmount(facts, i, last);
      PutAmountByIndex(facts, i, last, n);
      if 1 <= n <= |init| {
        assert init[n - 1] == amounts[n - 1];
      }
    }
  }

  /** One amount touches at most the amount key of its own position. */
  lemma PutAmountByIndex(facts: seq<Fact>, i: nat, amount: int, n: nat)
    ensures Lookup(PutAmount(facts, i, amount), AmountKey(n))
         == if n == i + 1 && amount >= 1000 then Some(Won(amount)) else Lookup(facts, AmountKey(n))
  {
    if amount >= 1000 && n != i + 1 {
      assert AmountKey(n) != AmountKey(i + 1);
    } else if amount < 1000 && amount <= 30 {
      assert AmountKey(n) != DayCount;
    }
  }

  /** The position of the last amount of at most 30, if there is one. */
  function LastDayIndex(amounts: seq<int>): (r: Option<nat>)
    ensures r.None? <==> forall a <- amounts :: a > 30
    ensures r.Some? ==> r.value < |amounts| && amounts[r.value] <= 30
                        && forall j | r.value < j < |amounts| :: amounts[j] > 30
  {
    if amounts == [] then None
    else
      var init, last := amounts[..|amounts| - 1], amounts[|amounts| - 1];
      assert amounts == init + [last] && last in amounts;
      assert forall a <- init :: a in amounts;
      if last <= 30 then Some(|amounts| - 1) else LastDayIndex(init)
  }

  /** The day-count key holds the last amount of at most 30 (an amount of at
      most 30 is never also of at least 1000), and is absent when there is none. */
  lemma {:induction false} AmountFactsDayCount(amounts: seq<int>)
    ensures Lookup(AmountFacts(amounts), DayCount)
         == match LastDayIndex(amounts)
            case None => None
            case Some(i) => Some(IntToString(amounts[i]) + "일")
  {
    if amounts != [] {
      var i := |amounts| - 1;
      var init, last := amounts[..i], amounts[i];
      AmountFactsDayCount(init);
      assert AmountFacts(amounts) == PutAmount(AmountFacts(init), i, last);
      if last <= 30 {
        assert LastDayIndex(amounts) == Some(i);
      } else {
        assert LastDayIndex(amounts) == LastDayIndex(init);
        if last >= 1000 {
          assert DayCount != AmountKey(i + 1);
        }
        if LastDayIndex(init).Some? {
          var k := LastDayIndex(init).value;
          assert init[k] == amounts[k];
        }
      }
    }
  }

  /** The procedure key is added last, holding the steps joined with arrows,
      exactly when the section has steps; the amount facts stay as they were. */
  lemma KeyFactsSteps(section: Section)
    ensures Lookup(KeyFacts(section), Steps)
         == if |section.procedures| > 0 then Some(Join(section.procedures, STEP_SEPARATOR)) else None
    ensures forall k :: k != Steps ==> Lookup(KeyFacts(section), k) == Lookup(AmountFacts(section.amounts), k)
  {
    AmountFactsNoSteps(section.amounts);
  }

  lemma {:induction false} AmountFactsNoSteps(amounts: seq<int>)
    ensures Lookup(AmountFacts(amounts), Steps) == None
  {
    if amounts != [] {
      AmountFactsNoSteps(amounts[..|amounts| - 1]);
    }
  }

  lemma {:induction false} AmountFactsEmpty(amounts: seq<int>)
    ensures AmountFacts(amounts) == [] <==> forall a <- amounts :: 30 < a < 1000
  {
    if amounts != [] {
      var init := amounts[..|amounts| - 1];
      var last := amounts[|amounts| - 1];
      AmountFactsEmpty(init);
      assert amounts == init + [last];
      assert forall a <- init :: a in amounts;
      if last >= 1000 {
        assert AmountFacts(amounts) == Put(AmountFacts(init), AmountKey(|amounts| - 1 + 1), Won(last));
        assert last in amounts;
      } else if last <= 30 {
        assert last in amounts;
        assert Lookup(AmountFacts(amounts), DayCount).Some?;
      }
    }
  }

  /** `extractKeyInfo` answers `null` exactly when it adds no entry: no amount
      of at least 1000, none of at most 30, and no procedure. */
  lemma KeyInfoNull(section: Section)
    ensures KeyInfo(section).None?
        <==> (forall a <- section.amounts :: 30 < a < 1000) && section.procedures == []
  {
    AmountFactsEmpty(section.amounts);
  }

  // ---------------------------------------------------------------------------
  // The structured answer
  // ---------------------------------------------------------------------------

  /** `${policy.title} ${section.section}조에 따르면, `. */
  function Lead(policy: Policy, section: Section): string {
    policy.title + " " + section.id + "조에 따르면, "
  }

  /** `section.procedures?.join(' → ') || '해당 부서 문의'`. */
  function StepsOrFallback(procedures: seq<string>): (r: string)
    ensures r != []
  {
    var steps := Join(procedures, STEP_SEPARATOR);
    if steps == [] then "해당 부서 문의" else steps
  }

  /** The text that follows the lead, for each template. */
  function TemplateText(t: Template, section: Section, highlight: string -> string): string {
    match t
    case Limit => "해당 항목의 상한은 **" + FormatAmount(section.amounts) + "**입니다."
    case Procedure => "절차는 **" + StepsOrFallback(section.procedures) + "**입니다."
    case Amount => "관련 금액 기준은 **" + FormatAmount(section.amounts) + "**입니다."
    case Highlight => highlight(section.content)
  }

  /** The steps joined with arrows when the section has any, otherwise the
      owner-contact sentence. */
  function NextSteps(policy: Policy, section: Section): (r: string)
    ensures |section.procedures| > 0 ==> forall p <- section.procedures :: Contains(r, p)
    ensures section.procedures == [] ==> Contains(r, policy.owner)
  {
    if |section.procedures| > 0 then
      JoinContains(section.procedures, STEP_SEPARATOR);
      Join(section.procedures, STEP_SEPARATOR)
    else
      var tail := "에 문의하거나 관련 신청서를 작성하세요.";
      ContainsHead(policy.owner, tail);
      policy.owner + tail
  }

  const INACTIVE_WARNING := "⚠️ 주의: 현재 비활성 상태인 규정입니다."

  predicate Active(policy: Policy) {
    policy.status == "active"
  }

  /** The warnings: the section's exceptions in order, then the
      inactive-regulation warning exactly when the policy is not active. */
  function Warnings(policy: Policy, section: Section): (r: seq<string>)
    ensures |r| == |section.exceptions| + (if Active(policy) then 0 else 1)
    ensures r[..|section.exceptions|] == section.exceptions
    ensures r[|section.exceptions|..] == if Active(policy) then [] else [INACTIVE_WARNING]
    ensures r == [] <==> section.exceptions == [] && Active(policy)
  {
    section.exceptions + if Active(policy) then [] else [INACTIVE_WARNING]
  }

  function CitationOf(policy: Policy, section: Section): (c: Citation)
    ensures c.title == policy.title && c.version == policy.version
    ensures c.effectiveDate == policy.effectiveDate && c.owner == policy.owner
    ensures |c.section| == |section.id| + 1 && c.section[0] == '§' && c.section[1..] == section.id
  {
    Citation(policy.title, policy.version, policy.effectiveDate, "§" + section.id, policy.owner)
  }

  /** The conclusion of `generateStructuredResponse`: the lead, then the
      sentence of the first template whose trigger words the query contains. */
  method ComposeConclusion(policy: Policy, section: Section, query: string, highlight: string -> string)
    returns (conclusion: string)
    ensures conclusion == Lead(policy, section) + TemplateText(ChooseTemplate(query), section, highlight)
  {
    conclusion := Lead(policy, section);
    if Contains(query, "상한") || Contains(query, "한도") {
      conclusion := conclusion + ("해당 항목의 상한은 **" + FormatAmount(section.amounts) + "**입니다.");
    } else if Contains(query, "절차") || Contains(query, "방법") {
      conclusion := conclusion + ("절차는 **" + StepsOrFallback(section.procedures) + "**입니다.");
    } else if Contains(query, "얼마") || Contains(query, "금액") {
      conclusion := conclusion + ("관련 금액 기준은 **" + FormatAmount(section.amounts) + "**입니다.");
    } else {
      conclusion := conclusion + highlight(section.content);
    }
  }

  /** What `generateStructuredResponse` answers for a ranking: the no-result
      answer when nothing was ranked; otherwise the conclusion, key facts,
      citation, next steps, warnings and confidence of the top-ranked section,
      and the next two results as further reading. */
  predicate StructuredAnswer(answer: Answer, searchResults: seq<SearchResult>, originalQuery: string,
                             highlight: string -> string)
  {
    && (searchResults == [] ==> answer == NoResultResponse(originalQuery))
    && (searchResults != [] ==>
          var top := searchResults[0];
          && answer.conclusion == Lead(top.policy, top.section)
                                  + TemplateText(ChooseTemplate(originalQuery), top.section, highlight)
          && answer.keyInfo == KeyInfo(top.section)
          && answer.source == Some(CitationOf(top.policy, top.section))
          && answer.nextSteps == NextSteps(top.policy, top.section)
          && answer.warnings == (if Warnings(top.policy, top.section) == [] then None
                                 else Some(Warnings(top.policy, top.section)))
          && answer.confidence == Confidence(top.totalScore)
          && answer.additionalResults == searchResults[1..Min(3, |searchResults|)]
          && !answer.isTicketNeeded)
  }

  /** `generateStructuredResponse`, built from the first of the ranked results. */
  method GenerateStructuredResponse(searchResults: seq<SearchResult>, originalQuery: string,
                                    highlight: string -> string)
    returns (answer: Answer)
    ensures StructuredAnswer(answer, searchResults, originalQuery, highlight)
    ensures searchResults != [] ==> 30 <= answer.confidence <= 100
  {
    if |searchResults| == 0 {
      return NoResultResponse(originalQuery);
    }
    var topResult := searchResults[0];
    var policy, section := topResult.policy, topResult.section;

    var conclusion := ComposeConclusion(policy, section, originalQuery, highlight);
    var keyInfo := ExtractKeyInfo(section);

    var nextSteps := policy.owner + "에 문의하거나 관련 신청서를 작성하세요.";
    if |section.procedures| > 0 {
      nextSteps := Join(section.procedures, STEP_SEPARATOR);
    }

    var warnings: seq<string> := [];
    if |section.exceptions| > 0 {
      warnings := warnings + section.exceptions;
    }
    assert warnings == section.exceptions;
    if !Active(policy) {
      warnings := warnings + [INACTIVE_WARNING];
    }
    assert warnings == Warnings(policy, section);

    answer := Answer(conclusion, keyInfo, Some(CitationOf(policy, section)), nextSteps,
                     if |warnings| > 0 then Some(warnings) else None,
                     Confidence(topResult.totalScore), Slice(searchResults, 1, 3), false);
  }

  /** The lead cites the policy title and the section. */
  lemma LeadCites(policy: Policy, section: Section, text: string)
    ensures Contains(Lead(policy, section) + text, policy.title)
    ensures Contains(Lead(policy, section) + text, section.id)
  {
    var c := Lead(policy, section) + text;
    var tail := "조에 따르면, " + text;
    ContainsHead(policy.title, " " + section.id + tail);
    assert policy.title + (" " + section.id + tail) == c;
    ContainsHead(section.id, tail);
    ContainsSuffix(policy.title + " ", section.id + tail, section.id);
    assert (policy.title + " ") + (section.id + tail) == c;
  }

  /** The limit and amount templates name every amount of at least 1000, the
      procedure template every step (when the steps join to something), the
      fallback the highlighted content. */
  lemma TemplateMentions(t: Template, section: Section, highlight: string -> string)
    ensures (t == Limit || t == Amount) ==>
      forall a <- section.amounts :: a >= 1000 ==> Contains(TemplateText(t, section, highlight), Won(a))
    ensures t == Procedure && Join(section.procedures, STEP_SEPARATOR) != [] ==>
      forall p <- section.procedures :: Contains(TemplateText(t, section, highlight), p)
    ensures t == Highlight ==> Contains(TemplateText(t, section, highlight), highlight(section.content))
  {
    var text := TemplateText(t, section, highlight);
    var amounts := FormatAmount(section.amounts);
    match t
    case Limit =>
      forall a <- section.amounts | a >= 1000 ensures Contains(text, Won(a)) {
        ContainsInContext("해당 항목의 상한은 **", amounts, "**입니다.", Won(a));
      }
    case Amount =>
      forall a <- section.amounts | a >= 1000 ensures Contains(text, Won(a)) {
        ContainsInContext("관련 금액 기준은 **", amounts, "**입니다.", Won(a));
      }
    case Procedure =>
      if Join(section.procedures, STEP_SEPARATOR) != [] {
        JoinContains(section.procedures, STEP_SEPARATOR);
        forall p <- section.procedures ensures Contains(text, p) {
          ContainsInContext("절차는 **", StepsOrFallback(section.procedures), "**입니다.", p);
        }
      }
    case Highlight =>
      ContainsSelf(text);
  }

  /** What the conclusion says: it cites the policy title and the section, and
      then what the chosen template promises. */
  lemma ConclusionMentions(policy: Policy, section: Section, query: string, highlight: string -> string)
    ensures var c := Lead(policy, section) + TemplateText(ChooseTemplate(query), section, highlight);
      && Contains(c, policy.title) && Contains(c, section.id)
      && (ChooseTemplate(query) == Limit || ChooseTemplate(query) == Amount ==>
            forall a <- section.amounts :: a >= 1000 ==> Contains(c, Won(a)))
      && (ChooseTemplate(query) == Procedure && Join(section.procedures, STEP_SEPARATOR) != [] ==>
            forall p <- section.procedures :: Contains(c, p))
      && (ChooseTemplate(query) == Highlight ==> Contains(c, highlight(section.content)))
  {
    var lead := Lead(policy, section);
    var text := TemplateText(ChooseTemplate(query), section, highlight);
    LeadCites(policy, section, text);
    TemplateMentions(ChooseTemplate(query), section, highlight);
    forall w | Contains(text, w) ensures Contains(lead + text, w) {
      ContainsSuffix(lead, text, w);
    }
  }

  /** `(50000).toLocaleString() + '원'` is "50,000원". */
  lemma FiftyThousandWon()
    ensures Won(50000) == "50,000원"
  {
    assert NatToString(50) == NatToString(5) + [DigitChar(0)];
    assert Grouped(50000) == Grouped(50) + "," + Pad3(0);
  }
}
