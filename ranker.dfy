/** `executeHybridSearch`: score every section of every policy that passes the
    category filter, keep those scoring at least `MIN_CONFIDENCE_SCORE`, sort
    them by descending score and keep the first ten.

    The global `policyData` and `currentCategoryFilter` of app.js are explicit
    parameters. `Array.prototype.sort` is stable (ECMAScript 2019 onwards), so
    the sort is specified by a stable insertion sort: ties keep the order in
    which the sections were collected, document by document, section by section. */
module Ranker {
  import opened Base
  import opened Policies
  import opened Scorer

  const MIN_CONFIDENCE_SCORE := 5
  const MAX_RESULTS := 10
  const ALL_CATEGORIES := "all"

  predicate IsAll(filter: string) {
    filter == ALL_CATEGORIES
  }

  /** The category filter: every policy under "all", otherwise only those of
      that category. */
  predicate PassesFilter(policy: Policy, filter: string) {
    IsAll(filter) || policy.category == filter
  }

  /** The query as `executeHybridSearch` holds it during its loops: the raw
      text, and the lowered, trimmed text and its words, derived once. */
  datatype SearchQuery = SearchQuery(raw: string, lower: string, words: seq<string>)

  function Prepare(query: string): SearchQuery {
    var queryLower := QueryLower(query);
    SearchQuery(query, queryLower, QueryWords(queryLower))
  }

  /** The search result the ranker builds for one section. */
  function ResultFor(policy: Policy, section: Section, q: SearchQuery): (r: SearchResult)
    ensures r.policy == policy && r.section == section && r.matchedQuery == q.raw
    ensures r.totalScore == r.breakdown.Total()
  {
    var breakdown := SectionScore(section, policy, q.lower, q.words, q.raw);
    SearchResult(policy, section, breakdown.Total(), breakdown, q.raw)
  }

  predicate Admitted(r: SearchResult, filter: string, q: SearchQuery) {
    && r == ResultFor(r.policy, r.section, q)
    && r.totalScore >= MIN_CONFIDENCE_SCORE
    && PassesFilter(r.policy, filter)
  }

  /** The results pushed for `sections` of `policy`, in section order. */
  function SectionCandidates(policy: Policy, sections: seq<Section>, q: SearchQuery): seq<SearchResult> {
    if sections == [] then []
    else
      var rest := SectionCandidates(policy, sections[..|sections| - 1], q);
      var x := ResultFor(policy, sections[|sections| - 1], q);
      rest + (if x.totalScore >= MIN_CONFIDENCE_SCORE then [x] else [])
  }

  /** What one policy adds to `results`: nothing when the filter skips it. */
  function PolicyCandidates(policy: Policy, filter: string, q: SearchQuery): seq<SearchResult> {
    if PassesFilter(policy, filter) then SectionCandidates(policy, policy.sections, q) else []
  }

  /** The whole `results` array before sorting, in document-then-section order. */
  function Candidates(policies: seq<Policy>, filter: string, q: SearchQuery): seq<SearchResult> {
    if policies == [] then []
    else
      var rest := Candidates(policies[..|policies| - 1], filter, q);
      rest + PolicyCandidates(policies[|policies| - 1], filter, q)
  }

  lemma SectionCandidatesStep(policy: Policy, sections: seq<Section>, j: nat, q: SearchQuery)
    requires j < |sections|
    ensures SectionCandidates(policy, sections[..j + 1], q)
         == SectionCandidates(policy, sections[..j], q)
            + (if ResultFor(policy, sections[j], q).totalScore >= MIN_CONFIDENCE_SCORE
               then [ResultFor(policy, sections[j], q)] else [])
  {
    assert sections[..j + 1][..j] == sections[..j];
  }

  lemma CandidatesStep(policies: seq<Policy>, i: nat, filter: string, q: SearchQuery)
    requires i < |policies|
    ensures Candidates(policies[..i + 1], filter, q)
         == Candidates(policies[..i], filter, q) + PolicyCandidates(policies[i], filter, q)
  {
    assert policies[..i + 1][..i] == policies[..i];
  }

  lemma {:induction false} SectionCandidatesSound(policy: Policy, sections: seq<Section>, q: SearchQuery)
    ensures forall x <- SectionCandidates(policy, sections, q) ::
      x.policy == policy && x.section in sections && x == ResultFor(policy, x.section, q)
      && x.totalScore >= MIN_CONFIDENCE_SCORE
  {
    if sections != [] {
      var init := sections[..|sections| - 1];
      SectionCandidatesSound(policy, init, q);
      assert forall s <- init :: s in sections;
    }
  }

  /** Only admitted sections are collected: each scored as the scorer scores
      it, at or above the threshold, of a policy that passes the filter. */
  lemma {:induction false} CandidatesSound(policies: seq<Policy>, filter: string, q: SearchQuery)
    ensures forall x <- Candidates(policies, filter, q) ::
      Admitted(x, filter, q) && x.policy in policies && x.section in x.policy.sections
  {
    if policies != [] {
      var init := policies[..|policies| - 1];
      var policy := policies[|policies| - 1];
      CandidatesSound(init, filter, q);
      SectionCandidatesSound(policy, policy.sections, q);
      assert forall p <- init :: p in policies;
    }
  }

  // ---------------------------------------------------------------------------
  // Stable sort by descending score
  // ---------------------------------------------------------------------------

  predicate SortedByScore(s: seq<SearchResult>) {
    forall i, j :: 0 <= i < j < |s| ==> s[i].totalScore >= s[j].totalScore
  }

  /** Sorted, stated on neighbours only: what the insertion keeps. */
  predicate Descending(s: seq<SearchResult>) {
    forall i :: 0 < i < |s| ==> s[i - 1].totalScore >= s[i].totalScore
  }

  lemma {:induction false} DescendingIsSorted(s: seq<SearchResult>)
    requires Descending(s)
    ensures SortedByScore(s)
  {
    if |s| > 1 {
      var tail := s[1..];
      assert Descending(tail) by {
        forall i | 0 < i < |tail| ensures tail[i - 1].totalScore >= tail[i].totalScore {
          assert tail[i - 1] == s[i] && tail[i] == s[i + 1];
        }
      }
      DescendingIsSorted(tail);
      forall i, j | 0 <= i < j < |s| ensures s[i].totalScore >= s[j].totalScore {
        if i > 0 {
          assert s[i] == tail[i - 1] && s[j] == tail[j - 1];
        } else {
          assert s[1] == tail[0];
          if j > 1 { assert s[j] == tail[j - 1]; }
        }
      }
    }
  }

  /** Inserts `x` after every element scoring at least as much as it. */
  function InsertByScore(x: SearchResult, s: seq<SearchResult>): (r: seq<SearchResult>)
    ensures |r| == |s| + 1
    ensures r[0] == x || (s != [] && r[0] == s[0])
  {
    if s == [] then [x]
    else if x.totalScore > s[0].totalScore then [x] + s
    else [s[0]] + InsertByScore(x, s[1..])
  }

  lemma DescendingTail(s: seq<SearchResult>)
    requires s != [] && Descending(s)
    ensures Descending(s[1..])
  {
    assert forall i :: 0 < i < |s| - 1 ==> s[1..][i - 1] == s[i] && s[1..][i] == s[i + 1];
  }

  /** Inserting into a sorted list keeps it sorted. */
  lemma {:induction false} InsertByScoreSorted(x: SearchResult, s: seq<SearchResult>)
    requires Descending(s)
    ensures Descending(InsertByScore(x, s))
  {
    var r := InsertByScore(x, s);
    if s == [] {
    } else if x.totalScore > s[0].totalScore {
      assert r == [x] + s;
      forall i | 0 < i < |r| ensures r[i - 1].totalScore >= r[i].totalScore {
        if i > 1 {
          assert r[i - 1] == s[i - 2] && r[i] == s[i - 1];
        }
      }
    } else {
      var tail := InsertByScore(x, s[1..]);
      DescendingTail(s);
      InsertByScoreSorted(x, s[1..]);
      assert r == [s[0]] + tail;
      assert tail[0].totalScore <= s[0].totalScore;
      forall i | 0 < i < |r| ensures r[i - 1].totalScore >= r[i].totalScore {
        if i > 1 {
          assert r[i - 1] == tail[i - 2] && r[i] == tail[i - 1];
        }
      }
    }
  }

  /** Inserting adds exactly `x`. */
  lemma {:induction false} InsertByScorePermutes(x: SearchResult, s: seq<SearchResult>)
    ensures multiset(InsertByScore(x, s)) == multiset(s) + multiset{x}
  {
    if s != [] && x.totalScore <= s[0].totalScore {
      var tail := InsertByScore(x, s[1..]);
      InsertByScorePermutes(x, s[1..]);
      assert InsertByScore(x, s) == [s[0]] + tail;
      assert multiset([s[0]] + tail) == multiset([s[0]]) + multiset(tail);
      assert s == [s[0]] + s[1..];
      assert multiset(s) == multiset([s[0]]) + multiset(s[1..]);
    }
  }

  /** `results.sort((a, b) => b.totalScore - a.totalScore)`: an insertion
      sort, which is stable like the engine's. */
  function SortByScore(s: seq<SearchResult>): (r: seq<SearchResult>)
    ensures |r| == |s|
  {
    if s == [] then []
    else InsertByScore(s[|s| - 1], SortByScore(s[..|s| - 1]))
  }

  /** The sort returns a permutation of its input in non-increasing order. */
  lemma {:induction false} SortByScoreSorted(s: seq<SearchResult>)
    ensures Descending(SortByScore(s))
    ensures multiset(SortByScore(s)) == multiset(s)
  {
    if s != [] {
      var init := s[..|s| - 1];
      SortByScoreSorted(init);
      InsertByScoreSorted(s[|s| - 1], SortByScore(init));
      InsertByScorePermutes(s[|s| - 1], SortByScore(init));
      assert s == init + [s[|s| - 1]];
    }
  }

  /** The elements of `s` scoring exactly `v`, in order. */
  function WithScore(s: seq<SearchResult>, v: int): seq<SearchResult> {
    if s == [] then []
    else WithScore(s[..|s| - 1], v) + (if s[|s| - 1].totalScore == v then [s[|s| - 1]] else [])
  }

  lemma {:induction false} WithScoreAppend(a: seq<SearchResult>, b: seq<SearchResult>, v: int)
    ensures WithScore(a + b, v) == WithScore(a, v) + WithScore(b, v)
    decreases |b|
  {
    if b == [] {
      assert a + b == a;
    } else {
      var b' := b[..|b| - 1];
      assert (a + b)[..|a + b| - 1] == a + b';
      WithScoreAppend(a, b', v);
      AppendAssoc(WithScore(a, v), WithScore(b', v), if b[|b| - 1].totalScore == v then [b[|b| - 1]] else []);
    }
  }

  lemma {:induction false} WithScoreNone(s: seq<SearchResult>, v: int)
    requires forall x <- s :: x.totalScore != v
    ensures WithScore(s, v) == []
  {
    if s != [] {
      assert s[|s| - 1] in s;
      assert forall x <- s[..|s| - 1] :: x in s;
      WithScoreNone(s[..|s| - 1], v);
    }
  }

  lemma WithScoreSingle(x: SearchResult, v: int)
    ensures WithScore([x], v) == if x.totalScore == v then [x] else []
  {
    assert [x][..0] == [];
  }

  /** `x` goes in front of a sorted sequence only when it outscores all of
      it, so none of what it passes ties with it. */
  lemma InsertAheadTies(x: SearchResult, s: seq<SearchResult>, v: int)
    requires s != [] && Descending(s) && x.totalScore > s[0].totalScore
    ensures WithScore([x] + s, v) == WithScore(s, v) + WithScore([x], v)
  {
    var one := WithScore([x], v);
    WithScoreSingle(x, v);
    WithScoreAppend([x], s, v);
    if x.totalScore == v {
      DescendingIsSorted(s);
      forall y <- s ensures y.totalScore != v {
        var k :| 0 <= k < |s| && s[k] == y;
      }
      WithScoreNone(s, v);
    } else {
      assert WithScore(s, v) + one == one + WithScore(s, v);
    }
  }

  /** Keeping the head of `s` in front of the insertion into its tail keeps
      the ties in order, given that the insertion into the tail does. */
  lemma InsertBehindTies(x: SearchResult, s: seq<SearchResult>, tail: seq<SearchResult>, v: int)
    requires s != []
    requires WithScore(tail, v) == WithScore(s[1..], v) + WithScore([x], v)
    ensures WithScore([s[0]] + tail, v) == WithScore(s, v) + WithScore([x], v)
  {
    WithScoreAppend([s[0]], tail, v);
    assert s == [s[0]] + s[1..];
    WithScoreAppend([s[0]], s[1..], v);
    AppendAssoc(WithScore([s[0]], v), WithScore(s[1..], v), WithScore([x], v));
  }

  /** Inserting keeps `x` behind every earlier element of the same score. */
  lemma {:induction false} InsertKeepsTies(x: SearchResult, s: seq<SearchResult>, v: int)
    requires Descending(s)
    ensures WithScore(InsertByScore(x, s), v) == WithScore(s, v) + WithScore([x], v)
  {
    if s == [] {
      assert InsertByScore(x, s) == [x];
      assert s + [x] == [x];
    } else if x.totalScore > s[0].totalScore {
      assert InsertByScore(x, s) == [x] + s;
      InsertAheadTies(x, s, v);
    } else {
      DescendingTail(s);
      var tail := InsertByScore(x, s[1..]);
      InsertKeepsTies(x, s[1..], v);
      assert InsertByScore(x, s) == [s[0]] + tail;
      InsertBehindTies(x, s, tail, v);
    }
  }

  /** The sort is stable: for every score, the elements with that score come
      out in the order they went in. */
  lemma {:induction false} SortIsStable(s: seq<SearchResult>, v: int)
    ensures WithScore(SortByScore(s), v) == WithScore(s, v)
  {
    if s != [] {
      var init, last := s[..|s| - 1], s[|s| - 1];
      SortIsStable(init, v);
      SortByScoreSorted(init);
      InsertKeepsTies(last, SortByScore(init), v);
      assert s == init + [last];
      WithScoreAppend(init, [last], v);
    }
  }

  // ---------------------------------------------------------------------------
  // The ranker
  // ---------------------------------------------------------------------------

  /** The specification of `ExecuteHybridSearch`. */
  function Rank(policyData: Option<seq<Policy>>, filter: string, query: string): (r: seq<SearchResult>)
    ensures |r| <= MAX_RESULTS
    ensures policyData.None? ==> r == []
    ensures policyData.Some? ==> |r| == Min(MAX_RESULTS, |Candidates(policyData.value, filter, Prepare(query))|)
    ensures policyData.Some? ==> r == SortByScore(Candidates(policyData.value, filter, Prepare(query)))[..|r|]
  {
    match policyData
    case None => []
    case Some(policies) => Ranked(policies, filter, Prepare(query))
  }

  /** The sort and the cut, once the corpus is loaded and the query prepared. */
  function Ranked(policies: seq<Policy>, filter: string, q: SearchQuery): seq<SearchResult> {
    Take(SortByScore(Candidates(policies, filter, q)), MAX_RESULTS)
  }

  /** The inner loop of `executeHybridSearch`: scores each section of one
      policy and collects those at or above the threshold, in section order. */
  method ScoreSections(policy: Policy, q: SearchQuery) returns (hits: seq<SearchResult>)
    ensures hits == SectionCandidates(policy, policy.sections, q)
  {
    hits := [];
    var j := 0;
    while j < |policy.sections|
      invariant 0 <= j <= |policy.sections|
      invariant hits == SectionCandidates(policy, policy.sections[..j], q)
    {
      var section := policy.sections[j];
      var score := CalculateSectionScore(section, policy, q.lower, q.words, q.raw);
      SectionCandidatesStep(policy, policy.sections, j, q);
      if score.total >= MIN_CONFIDENCE_SCORE {
        hits := hits + [SearchResult(policy, section, score.total, score.breakdown, q.raw)];
      }
      j := j + 1;
    }
    assert policy.sections[..j] == policy.sections;
  }

  /** One turn of the loop over policies: a policy the category filter skips
      adds nothing, any other adds its sections at or above the threshold. */
  method ScorePolicy(policies: seq<Policy>, i: nat, filter: string, q: SearchQuery, found: seq<SearchResult>)
    returns (found': seq<SearchResult>)
    requires i < |policies|
    requires found == Candidates(policies[..i], filter, q)
    ensures found' == Candidates(policies[..i + 1], filter, q)
  {
    CandidatesStep(policies, i, filter, q);
    found' := found;
    if PassesFilter(policies[i], filter) {
      var hits := ScoreSections(policies[i], q);
      found' := found + hits;
    } else {
      assert found + [] == found;
    }
  }

  /** The nested loops of `executeHybridSearch`: every section of every
      policy that passes the filter is scored, and those at or above the
      threshold are collected in document-then-section order. */
  method CollectCandidates(policies: seq<Policy>, filter: string, q: SearchQuery)
    returns (found: seq<SearchResult>)
    ensures found == Candidates(policies, filter, q)
  {
    found := [];
    var i := 0;
    while i < |policies|
      invariant 0 <= i <= |policies|
      invariant found == Candidates(policies[..i], filter, q)
    {
      found := ScorePolicy(policies, i, filter, q, found);
      i := i + 1;
    }
    assert policies[..i] == policies;
  }

  /** `executeHybridSearch`: nothing before the corpus is loaded; otherwise
      the query is lowered, trimmed and split once, and the collected results
      are sorted by descending score and cut to ten. */
  method ExecuteHybridSearch(policyData: Option<seq<Policy>>, filter: string, query: string)
    returns (results: seq<SearchResult>)
    ensures results == Rank(policyData, filter, query)
    ensures |results| <= MAX_RESULTS && SortedByScore(results)
    ensures forall r <- results :: Admitted(r, filter, Prepare(query))
  {
    RankShape(policyData, filter, query);
    if policyData.None? {
      return [];
    }
    var queryLower := QueryLower(query);
    var queryWords := QueryWords(queryLower);
    var found := CollectCandidates(policyData.value, filter, SearchQuery(query, queryLower, queryWords));
    results := Take(SortByScore(found), MAX_RESULTS);
  }

  // ---------------------------------------------------------------------------
  // Properties of the ranking
  // ---------------------------------------------------------------------------

  lemma SortedPrefix(s: seq<SearchResult>, n: nat)
    requires SortedByScore(s)
    ensures SortedByScore(Take(s, n))
  {
    var r := Take(s, n);
    forall i, j | 0 <= i < j < |r| ensures r[i].totalScore >= r[j].totalScore {
      assert r[i] == s[i] && r[j] == s[j];
    }
  }

  lemma SortedMembers(c: seq<SearchResult>, n: nat)
    ensures forall x <- Take(SortByScore(c), n) :: x in c
  {
    var sorted := SortByScore(c);
    SortByScoreSorted(c);
    forall x <- Take(sorted, n) ensures x in c {
      assert x in sorted;
      assert x in multiset(sorted);
    }
  }

  /** At most ten results, sorted by non-increasing score, each scored as the
      scorer scores it, at or above the threshold and in the filtered category;
      nothing at all before the corpus is loaded. */
  lemma RankShape(policyData: Option<seq<Policy>>, filter: string, query: string)
    ensures var r := Rank(policyData, filter, query);
      && |r| <= MAX_RESULTS
      && SortedByScore(r)
      && (forall x <- r :: Admitted(x, filter, Prepare(query)))
      && (forall x <- r :: x.policy in policyData.value && x.section in x.policy.sections)
      && (filter != ALL_CATEGORIES ==> forall x <- r :: x.policy.category == filter)
      && (policyData.None? ==> r == [])
  {
    if policyData.Some? {
      var c := Candidates(policyData.value, filter, Prepare(query));
      CandidatesSound(policyData.value, filter, Prepare(query));
      var sorted := SortByScore(c);
      SortByScoreSorted(c);
      DescendingIsSorted(sorted);
      SortedPrefix(sorted, MAX_RESULTS);
      SortedMembers(c, MAX_RESULTS);
    }
  }

  /** Every admitted section of every policy that passes the filter is
      collected: the candidates are exactly the admitted sections. */
  lemma {:induction false} CandidatesComplete(policies: seq<Policy>, filter: string, q: SearchQuery, i: nat, j: nat)
    requires i < |policies| && j < |policies[i].sections|
    requires PassesFilter(policies[i], filter)
    requires ResultFor(policies[i], policies[i].sections[j], q).totalScore >= MIN_CONFIDENCE_SCORE
    ensures ResultFor(policies[i], policies[i].sections[j], q) in Candidates(policies, filter, q)
  {
    var last := |policies| - 1;
    if i == last {
      SectionCandidatesComplete(policies[i], policies[i].sections, q, j);
    } else {
      CandidatesComplete(policies[..last], filter, q, i, j);
    }
  }

  lemma {:induction false} SectionCandidatesComplete(policy: Policy, sections: seq<Section>, q: SearchQuery, j: nat)
    requires j < |sections|
    requires ResultFor(policy, sections[j], q).totalScore >= MIN_CONFIDENCE_SCORE
    ensures ResultFor(policy, sections[j], q) in SectionCandidates(policy, sections, q)
  {
    if j < |sections| - 1 {
      SectionCandidatesComplete(policy, sections[..|sections| - 1], q, j);
    }
  }

  /** The ten kept are the best: a candidate left out scores no more than any
      kept result, and a candidate is only left out when ten were kept. */
  lemma RankKeepsTheBest(policies: seq<Policy>, filter: string, q: SearchQuery, x: SearchResult)
    requires x in Candidates(policies, filter, q)
    requires x !in Ranked(policies, filter, q)
    ensures |Ranked(policies, filter, q)| == MAX_RESULTS
    ensures forall y <- Ranked(policies, filter, q) :: y.totalScore >= x.totalScore
  {
    var sorted := SortByScore(Candidates(policies, filter, q));
    SortByScoreSorted(Candidates(policies, filter, q));
    DescendingIsSorted(sorted);
    assert x in multiset(sorted);
    var k :| 0 <= k < |sorted| && sorted[k] == x;
    var r := Ranked(policies, filter, q);
    assert k >= |r|;
    forall y <- r ensures y.totalScore >= x.totalScore {
      var m :| 0 <= m < |r| && r[m] == y;
      assert sorted[m] == y;
    }
  }

  /** Ties stay in document-then-section order: for each score, the results
      with that score are the first ones of that score among the candidates,
      in candidate order. */
  lemma RankKeepsTieOrder(policies: seq<Policy>, filter: string, q: SearchQuery, v: int)
    ensures WithScore(Ranked(policies, filter, q), v) <= WithScore(Candidates(policies, filter, q), v)
  {
    var c := Candidates(policies, filter, q);
    var sorted := SortByScore(c);
    var r := Ranked(policies, filter, q);
    assert sorted == r + sorted[|r|..];
    WithScoreAppend(r, sorted[|r|..], v);
    SortIsStable(c, v);
    var ties := WithScore(r, v);
    assert WithScore(c, v) == ties + WithScore(sorted[|r|..], v);
  }
}
