/** The corpus and the records the search pipeline passes along: policy
    documents with their sections, the five-part score of a section and the
    search result that carries it to the answer builder.

    The corpus arrives as JSON in which `keywords`, `amounts`, `procedures` and
    `exceptions` may be missing. Every use of them in app.js treats a missing
    list exactly like an empty one (a truthiness test followed by a loop or a
    length test, or `|| fallback` on the joined text), so each is a plain
    sequence here, empty when absent. */
module Policies {

  datatype Section = Section(
    id: string,
    title: string,
    content: string,
    keywords: seq<string>,
    amounts: seq<int>,
    procedures: seq<string>,
    exceptions: seq<string>)

  datatype Policy = Policy(
    title: string,
    version: string,
    effectiveDate: string,
    owner: string,
    category: string,
    status: string,
    sections: seq<Section>)

  /** The five sub-scores of one (query, section) pair. */
  datatype Breakdown = Breakdown(
    exactMatch: int,
    keywordMatch: int,
    amountMatch: int,
    procedureMatch: int,
    categoryBonus: int)
  {
    /** `Object.values(scoreBreakdown).reduce((sum, score) => sum + score, 0)`. */
    function Total(): int {
      exactMatch + keywordMatch + amountMatch + procedureMatch + categoryBonus
    }
  }

  /** What `calculateSectionScore` returns. */
  datatype Score = Score(total: int, breakdown: Breakdown)

  /** One entry of the ranker's output. */
  datatype SearchResult = SearchResult(
    policy: Policy,
    section: Section,
    totalScore: int,
    breakdown: Breakdown,
    matchedQuery: string)
}
