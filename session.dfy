/** The chatbot's global state: the loaded corpus, the active category
    filter, the five most recent questions and the fifty most recent chat
    logs, as the fields of one `Session` object whose methods update them in
    place the way app.js reassigns and `unshift`s its globals. Persisting the
    lists to local storage and redrawing the page are not part of this model. */
module Sessions {
  import opened Base
  import opened Policies
  import opened Ranker
  import opened Answers

  const MAX_RECENT := 5
  const MAX_LOGS := 50
  const SUMMARY_LENGTH := 100

  // ---------------------------------------------------------------------------
  // Recent questions
  // ---------------------------------------------------------------------------

  /** `s.filter(q => q !== x)`. */
  function RemoveAll(s: seq<string>, x: string): (r: seq<string>)
    ensures forall y <- r :: y != x && y in s
    ensures forall y <- s :: y != x ==> y in r
    ensures |r| <= |s|
  {
    if s == [] then [] else (if s[0] == x then [] else [s[0]]) + RemoveAll(s[1..], x)
  }

  /** Removing a value that is absent changes nothing. */
  lemma {:induction false} RemoveAllAbsent(s: seq<string>, x: string)
    requires x !in s
    ensures RemoveAll(s, x) == s
  {
    if s != [] {
      assert s[0] != x;
      assert forall y <- s[1..] :: y in s;
      RemoveAllAbsent(s[1..], x);
    }
  }

  /** The filter keeps order: it distributes over concatenation. */
  lemma {:induction false} RemoveAllAppend(a: seq<string>, b: seq<string>, x: string)
    ensures RemoveAll(a + b, x) == RemoveAll(a, x) + RemoveAll(b, x)
  {
    if a == [] {
      assert a + b == b;
    } else {
      assert (a + b)[1..] == a[1..] + b;
      RemoveAllAppend(a[1..], b, x);
    }
  }

  predicate NoDuplicates(s: seq<string>) {
    forall i, j | 0 <= i < j < |s| :: s[i] != s[j]
  }

  lemma {:induction false} RemoveAllNoDuplicates(s: seq<string>, x: string)
    requires NoDuplicates(s)
    ensures NoDuplicates(RemoveAll(s, x))
  {
    if s != [] {
      var rest := RemoveAll(s[1..], x);
      assert NoDuplicates(s[1..]) by {
        forall i, j | 0 <= i < j < |s| - 1 ensures s[1..][i] != s[1..][j] {
          assert s[1..][i] == s[i + 1] && s[1..][j] == s[j + 1];
        }
      }
      RemoveAllNoDuplicates(s[1..], x);
      assert s[0] !in rest;
      var r := (if s[0] == x then [] else [s[0]]) + rest;
      forall i, j | 0 <= i < j < |r| ensures r[i] != r[j] {
        if s[0] != x && i == 0 {
          assert r[j] == rest[j - 1] && r[j] in rest;
        } else if s[0] != x {
          assert r[i] == rest[i - 1] && r[j] == rest[j - 1];
        }
      }
    }
  }

  /** The specification of `AddToRecentQuestions`: earlier copies of the
      question removed, the question put first, the list cut to five. The
      question is first and nowhere else, and the others follow in the order
      they had. */
  function PushRecent(recent: seq<string>, question: string): (r: seq<string>)
    ensures r != [] && r[0] == question && |r| <= MAX_RECENT
    ensures forall i | 1 <= i < |r| :: r[i] != question
    ensures r[1..] <= RemoveAll(recent, question)
    ensures |r| == Min(MAX_RECENT, |RemoveAll(recent, question)| + 1)
  {
    var r := Take([question] + RemoveAll(recent, question), MAX_RECENT);
    assert forall i | 1 <= i < |r| :: r[i] == RemoveAll(recent, question)[i - 1] && r[i] in RemoveAll(recent, question);
    r
  }

  /** A list free of duplicates stays free of them. */
  lemma PushRecentNoDuplicates(recent: seq<string>, question: string)
    requires NoDuplicates(recent)
    ensures NoDuplicates(PushRecent(recent, question))
  {
    var rest := RemoveAll(recent, question);
    RemoveAllNoDuplicates(recent, question);
    var r := PushRecent(recent, question);
    forall i, j | 0 <= i < j < |r| ensures r[i] != r[j] {
      if i > 0 {
        assert r[i] == rest[i - 1] && r[j] == rest[j - 1];
      }
    }
  }

  /** Asking the same question twice in a row leaves the list as asking it once. */
  lemma PushRecentIdempotent(recent: seq<string>, question: string)
    ensures PushRecent(PushRecent(recent, question), question) == PushRecent(recent, question)
  {
    var r := PushRecent(recent, question);
    assert r == [r[0]] + r[1..];
    RemoveAllAppend([r[0]], r[1..], question);
    assert question !in r[1..] by {
      forall y <- r[1..] ensures y != question {
        var k :| 0 <= k < |r[1..]| && r[1..][k] == y;
        assert y == r[k + 1];
      }
    }
    RemoveAllAbsent(r[1..], question);
    assert RemoveAll([r[0]], question) == [];
    assert RemoveAll(r, question) == r[1..];
    assert [question] + r[1..] == r;
  }

  // ---------------------------------------------------------------------------
  // Chat logs
  // ---------------------------------------------------------------------------

  /** One chat log entry; the timestamp is supplied by the caller. */
  datatype ChatLog = ChatLog(
    timestamp: string,
    question: string,
    answerSummary: string,
    confidence: int,
    resultsCount: int,
    category: string,
    source: string)

  /** `response.conclusion?.slice(0, 100) || 'No answer'`: the first hundred
      characters of the conclusion, or "No answer" when it is empty. */
  function Summary(conclusion: string): (r: string)
    ensures r != [] && |r| <= SUMMARY_LENGTH
    ensures conclusion != [] ==> r == conclusion[..Min(SUMMARY_LENGTH, |conclusion|)]
    ensures conclusion == [] ==> r == "No answer"
  {
    var head := Take(conclusion, SUMMARY_LENGTH);
    if head == [] then "No answer" else head
  }

  /** `response.source?.title || 'No source'`. */
  function SourceTitle(source: Option<Citation>): (r: string)
    ensures r != []
    ensures source.Some? && source.value.title != [] ==> r == source.value.title
    ensures source.None? ==> r == "No source"
    ensures source.Some? && source.value.title == [] ==> r == "No source"
  {
    if source.Some? && source.value.title != [] then source.value.title else "No source"
  }

  /** The log entry `saveChatLog` builds. */
  function MakeLog(timestamp: string, question: string, response: Answer, resultsCount: int,
                   category: string): (log: ChatLog)
    ensures log.timestamp == timestamp && log.question == question && log.category == category
    ensures log.confidence == response.confidence && log.resultsCount == resultsCount
    ensures log.answerSummary != [] && |log.answerSummary| <= SUMMARY_LENGTH
    ensures response.conclusion != [] ==>
      log.answerSummary == response.conclusion[..Min(SUMMARY_LENGTH, |response.conclusion|)]
    ensures response.source.Some? && response.source.value.title != [] ==>
      log.source == response.source.value.title
    ensures response.source.None? ==> log.source == "No source"
    ensures response.source.Some? && response.source.value.title == [] ==> log.source == "No source"
  {
    ChatLog(timestamp, question, Summary(response.conclusion), response.confidence, resultsCount,
            category, SourceTitle(response.source))
  }

  /** The specification of `SaveChatLog`: the newest entry first, the oldest
      beyond fifty dropped, the rest in the order they had. */
  function PushLog(logs: seq<ChatLog>, log: ChatLog): (r: seq<ChatLog>)
    ensures r != [] && r[0] == log
    ensures |r| == Min(MAX_LOGS, |logs| + 1)
    ensures r[1..] == logs[..|r| - 1]
  {
    var r := Take([log] + logs, MAX_LOGS);
    assert r[1..] == ([log] + logs)[1..|r|];
    r
  }

  // ---------------------------------------------------------------------------
  // The session
  // ---------------------------------------------------------------------------

  class Session {
    /** `policyData.policies`, `None` until the corpus is loaded. */
    var policyData: Option<seq<Policy>>
    /** `currentCategoryFilter`. */
    var categoryFilter: string
    var recentQuestions: seq<string>
    var chatLogs: seq<ChatLog>

    /** Both histories within their caps, no question listed twice. */
    predicate Valid()
      reads this
    {
      |recentQuestions| <= MAX_RECENT && NoDuplicates(recentQuestions) && |chatLogs| <= MAX_LOGS
    }

    /** The initial values of the globals. */
    constructor ()
      ensures policyData == None && categoryFilter == ALL_CATEGORIES
      ensures recentQuestions == [] && chatLogs == []
      ensures Valid()
    {
      policyData := None;
      categoryFilter := ALL_CATEGORIES;
      recentQuestions := [];
      chatLogs := [];
    }

    /** `addToRecentQuestions`, list logic only. */
    method AddToRecentQuestions(question: string)
      modifies this
      ensures recentQuestions == PushRecent(old(recentQuestions), question)
      ensures policyData == old(policyData) && categoryFilter == old(categoryFilter)
      ensures chatLogs == old(chatLogs)
      ensures old(Valid()) ==> Valid()
    {
      ghost var before := recentQuestions;
      recentQuestions := RemoveAll(recentQuestions, question);
      recentQuestions := [question] + recentQuestions;
      if |recentQuestions| > MAX_RECENT {
        recentQuestions := recentQuestions[..MAX_RECENT];
      }
      if NoDuplicates(before) {
        PushRecentNoDuplicates(before, question);
      }
    }

    /** `saveChatLog`, list logic only; the timestamp comes from the caller. */
    method SaveChatLog(question: string, response: Answer, resultsCount: int, timestamp: string)
      modifies this
      ensures chatLogs == PushLog(old(chatLogs),
                                  MakeLog(timestamp, question, response, resultsCount, categoryFilter))
      ensures policyData == old(policyData) && categoryFilter == old(categoryFilter)
      ensures recentQuestions == old(recentQuestions)
      ensures old(Valid()) ==> Valid()
    {
      var log := MakeLog(timestamp, question, response, resultsCount, categoryFilter);
      chatLogs := [log] + chatLogs;
      if |chatLogs| > MAX_LOGS {
        chatLogs := chatLogs[..MAX_LOGS];
      }
    }

    /** The successful path of `performSearch`: rank under the active filter,
        answer from the ranking, log the exchange. With nothing ranked the answer
        is the no-result answer (confidence 0); otherwise every field comes from
        the top-ranked section, and the log records the exchange. */
    method Ask(query: string, highlight: string -> string, timestamp: string) returns (answer: Answer)
      modifies this
      ensures var results := Rank(policyData, categoryFilter, query);
        && (answer.confidence == 0 <==> results == [])
        && StructuredAnswer(answer, results, query, highlight)
        && chatLogs == PushLog(old(chatLogs), MakeLog(timestamp, query, answer, |results|, categoryFilter))
      ensures policyData == old(policyData) && categoryFilter == old(categoryFilter)
      ensures recentQuestions == old(recentQuestions)
      ensures old(Valid()) ==> Valid()
    {
      var results := ExecuteHybridSearch(policyData, categoryFilter, query);
      answer := GenerateStructuredResponse(results, query, highlight);
      SaveChatLog(query, answer, |results|, timestamp);
    }
  }
}
