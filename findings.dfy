/** Two places where app.js, as written, does not do what its authors
    evidently intended. Each is modelled here as written, next to an input
    that shows the difference; the rest of the model uses the corrected
    behaviour (`Scorer.SectionScore` and `Answers.GenerateStructuredResponse`). */
module Findings {
  import opened Base
  import opened Text
  import opened Policies
  import opened Scorer
  import opened Answers

  /** `calculateSectionScore` as written: the keyword-tag loop reads `word`
      after the loop over the query words that binds it has ended, so it
      throws a ReferenceError (`None` here) as soon as the section has a
      keyword tag. A section without tags is scored as intended. */
  function SectionScoreAsWritten(section: Section, policy: Policy, queryLower: string,
                                 queryWords: seq<string>, originalQuery: string): (r: Option<Breakdown>)
    ensures r.None? <==> section.keywords != []
    ensures r.Some? ==> r.value == SectionScore(section, policy, queryLower, queryWords, originalQuery)
  {
    if section.keywords != [] then None
    else Some(SectionScore(section, policy, queryLower, queryWords, originalQuery))
  }

  /** A section tagged "연차" (annual leave), asked about "연차": as written
      the scorer throws; as intended the tag alone earns the keyword weight. */
  lemma KeywordTagWitness()
    ensures var section := Section("1", "", "", ["연차"], [], [], []);
            var policy := Policy("", "", "", "", "", "active", [section]);
      && SectionScoreAsWritten(section, policy, "연차", ["연차"], "연차").None?
      && SectionScore(section, policy, "연차", ["연차"], "연차").keywordMatch == KEYWORD
  {
    var section := Section("1", "", "", ["연차"], [], [], []);
    var policy := Policy("", "", "", "", "", "active", [section]);
    ContainsSelf("연차");
    assert Lower("연차") == "연차";
    assert TagHits("연차", ["연차"]) == 1 by {
      assert ["연차"][..0] == [];
    }
    assert !Contains("", "연차");
    TagMatchScores(section, policy, "연차", ["연차"], "연차", 0, 0);
  }

  /** `generateStructuredResponse` as written: it binds the whole result
      array as the top result, so reading `policy.title` throws a TypeError
      (`None` here) whenever there is a result; only the no-result answer
      is ever produced. */
  function StructuredResponseAsWritten(searchResults: seq<SearchResult>, originalQuery: string): (r: Option<Answer>)
    ensures searchResults == [] ==> r == Some(NoResultResponse(originalQuery))
    ensures searchResults != [] ==> r.None?
  {
    if searchResults == [] then Some(NoResultResponse(originalQuery)) else None
  }

  /** Any non-empty ranking shows the difference: as written there is no
      answer at all, while the intended answer exists, and every answer meeting
      the intended description cites the first result with a confidence
      between 30 and 100. */
  lemma TopResultWitness(searchResults: seq<SearchResult>, originalQuery: string, highlight: string -> string)
    requires searchResults != []
    ensures StructuredResponseAsWritten(searchResults, originalQuery).None?
    ensures exists answer :: StructuredAnswer(answer, searchResults, originalQuery, highlight)
    ensures forall answer | StructuredAnswer(answer, searchResults, originalQuery, highlight) ::
      && answer.source == Some(CitationOf(searchResults[0].policy, searchResults[0].section))
      && 30 <= answer.confidence <= 100
  {
    var top := searchResults[0];
    var warnings := Warnings(top.policy, top.section);
    var answer := Answer(
      Lead(top.policy, top.section) + TemplateText(ChooseTemplate(originalQuery), top.section, highlight),
      KeyInfo(top.section),
      Some(CitationOf(top.policy, top.section)),
      NextSteps(top.policy, top.section),
      if warnings == [] then None else Some(warnings),
      Confidence(top.totalScore),
      searchResults[1..Min(3, |searchResults|)],
      false);
    assert StructuredAnswer(answer, searchResults, originalQuery, highlight);
  }
}
