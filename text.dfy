/** The JavaScript string operations app.js relies on, written out over
    `seq<char>`: lower-casing, trimming, splitting into runs, substring search,
    `parseInt` on digit runs, number-to-text conversion, `join`, and the quote
    escaping used when a question is put back into an `onclick` attribute. */
module Text {
  import opened Base

  /** The characters JavaScript's `trim` removes and its regular-expression
      class `\s` matches (ECMAScript WhiteSpace and LineTerminator). */
  predicate IsSpace(c: char) {
    || c == ' ' || c == '\t' || c == '\n' || c == '\r'
    || c == '\U{000B}' || c == '\U{000C}' || c == '\U{00A0}' || c == '\U{1680}'
    || ('\U{2000}' <= c <= '\U{200A}')
    || c == '\U{2028}' || c == '\U{2029}' || c == '\U{202F}' || c == '\U{205F}'
    || c == '\U{3000}' || c == '\U{FEFF}'
  }

  /** The regular-expression class `\d`: ASCII digits only. */
  predicate IsDigit(c: char) { '0' <= c <= '9' }

  predicate NotSpace(c: char) { !IsSpace(c) }

  // ---------------------------------------------------------------------------
  // Case and white space
  // ---------------------------------------------------------------------------

  /** An upper-case ASCII letter is lowered by 32, every other character kept. */
  function LowerChar(c: char): (d: char)
    ensures !('A' <= d <= 'Z')
    ensures 'A' <= c <= 'Z' ==> d as int == c as int + 32
    ensures !('A' <= c <= 'Z') ==> d == c
  {
    if 'A' <= c <= 'Z' then (c as int + 32) as char else c
  }

  /** `toLowerCase`, restricted to the ASCII letters; every other character,
      Hangul included, is its own lower case. */
  function Lower(s: string): (r: string)
    ensures |r| == |s|
  {
    seq(|s|, i requires 0 <= i < |s| => LowerChar(s[i]))
  }

  /** Lower-casing works character by character: no upper-case ASCII letter
      is left, each one is moved down by 32, and nothing else changes. */
  lemma LowerEach(s: string)
    ensures forall i | 0 <= i < |s| :: Lower(s)[i] == LowerChar(s[i])
  {
  }

  function TrimStart(s: string): (r: string)
    ensures |r| <= |s| && r == s[|s| - |r|..]
    ensures r == [] || !IsSpace(r[0])
    ensures forall i :: 0 <= i < |s| - |r| ==> IsSpace(s[i])
  {
    if s != [] && IsSpace(s[0]) then TrimStart(s[1..]) else s
  }

  function TrimEnd(s: string): (r: string)
    ensures |r| <= |s| && r == s[..|r|]
    ensures r == [] || !IsSpace(r[|r| - 1])
    ensures forall i :: |r| <= i < |s| ==> IsSpace(s[i])
  {
    if s != [] && IsSpace(s[|s| - 1]) then TrimEnd(s[..|s| - 1]) else s
  }

  /** `r` is `s` with the white space at both ends cut off, and starts at
      position `i` of `s`: only white space lies outside it, and it neither
      starts nor ends with white space. */
  predicate TrimmedAt(s: string, r: string, i: int) {
    && 0 <= i && i + |r| <= |s| && s[i..i + |r|] == r
    && (forall k | 0 <= k < i :: IsSpace(s[k]))
    && (forall k | i + |r| <= k < |s| :: IsSpace(s[k]))
    && (r == [] || (!IsSpace(r[0]) && !IsSpace(r[|r| - 1])))
  }

  /** Cutting the white space at the start (leaving `t`), then at the end
      (leaving `r`), trims `s`; stated over what `TrimStart` and `TrimEnd`
      promise, so that their bodies stay out of the proof. */
  lemma TrimBothEnds(s: string, t: string, r: string)
    requires |t| <= |s| && t == s[|s| - |t|..]
    requires t == [] || !IsSpace(t[0])
    requires forall k :: 0 <= k < |s| - |t| ==> IsSpace(s[k])
    requires |r| <= |t| && r == t[..|r|]
    requires r == [] || !IsSpace(r[|r| - 1])
    requires forall k :: |r| <= k < |t| ==> IsSpace(t[k])
    ensures r == [] || (!IsSpace(r[0]) && !IsSpace(r[|r| - 1]))
    ensures exists i :: TrimmedAt(s, r, i)
    ensures Contains(s, r)
  {
    var i := |s| - |t|;
    assert s[i..][..|r|] == s[i..i + |r|];
    forall k | i + |r| <= k < |s| ensures IsSpace(s[k]) {
      assert s[k] == t[k - i];
    }
    if r != [] {
      assert r[0] == t[0];
    }
    assert TrimmedAt(s, r, i) && OccursAt(s, r, i);
  }

  /** `trim`: the white space at both ends removed, nothing else. */
  function Trim(s: string): (r: string)
    ensures r == [] || (!IsSpace(r[0]) && !IsSpace(r[|r| - 1]))
    ensures exists i :: TrimmedAt(s, r, i)
    ensures Contains(s, r)
  {
    var t := TrimStart(s);
    var r := TrimEnd(t);
    TrimBothEnds(s, t, r);
    r
  }

  /** A trimmed string is empty exactly when the text is all white space. */
  lemma TrimmedEmpty(s: string, r: string, i: int)
    requires TrimmedAt(s, r, i)
    ensures r == [] <==> forall k | 0 <= k < |s| :: IsSpace(s[k])
  {
    if r != [] {
      assert s[i] == r[0];
    }
  }

  /** Two trimmings of one text: the non-empty one starts no earlier and
      ends no later than the other. */
  lemma TrimmedWithin(s: string, r: string, i: int, t: string, j: int)
    requires TrimmedAt(s, r, i) && TrimmedAt(s, t, j) && t != []
    ensures i <= j && j + |t| <= i + |r|
  {
    assert s[j] == t[0];
    assert s[j + |t| - 1] == t[|t| - 1];
  }

  /** The conditions of `TrimmedAt` leave no choice: `Trim` is the only
      string that meets them. */
  lemma TrimUnique(s: string, r: string, i: int)
    requires TrimmedAt(s, r, i)
    ensures r == Trim(s)
  {
    var t := Trim(s);
    var j :| TrimmedAt(s, t, j);
    TrimmedSame(s, r, i, t, j);
  }

  /** Two strings that both trim `s` are the same string. */
  lemma TrimmedSame(s: string, r: string, i: int, t: string, j: int)
    requires TrimmedAt(s, r, i) && TrimmedAt(s, t, j)
    ensures r == t
  {
    TrimmedEmpty(s, r, i);
    TrimmedEmpty(s, t, j);
    if r != [] && t != [] {
      TrimmedWithin(s, r, i, t, j);
      TrimmedWithin(s, t, j, r, i);
    }
  }

  // ---------------------------------------------------------------------------
  // Substring search (`includes`)
  // ---------------------------------------------------------------------------

  predicate OccursAt(s: string, sub: string, i: int) {
    0 <= i && i + |sub| <= |s| && s[i..i + |sub|] == sub
  }

  /** `s.includes(sub)`. */
  predicate Contains(s: string, sub: string) {
    exists i | 0 <= i <= |s| - |sub| :: OccursAt(s, sub, i)
  }

  lemma ContainsSelf(s: string)
    ensures Contains(s, s)
  {
    assert s[0..|s|] == s;
    assert OccursAt(s, s, 0);
  }

  /** What occurs in a part occurs in every string built around that part. */
  lemma ContainsInContext(a: string, b: string, c: string, w: string)
    requires Contains(b, w)
    ensures Contains(a + b + c, w)
  {
    var i :| 0 <= i <= |b| - |w| && OccursAt(b, w, i);
    var k := |a| + i;
    assert (a + b + c)[k..k + |w|] == b[i..i + |w|];
    assert OccursAt(a + b + c, w, k);
  }

  /** What occurs in a string occurs in every extension of it. */
  lemma ContainsPrefix(b: string, c: string, w: string)
    requires Contains(b, w)
    ensures Contains(b + c, w)
  {
    var i :| 0 <= i <= |b| - |w| && OccursAt(b, w, i);
    assert (b + c)[i..i + |w|] == b[i..i + |w|];
    assert OccursAt(b + c, w, i);
  }

  lemma ContainsSuffix(a: string, b: string, w: string)
    requires Contains(b, w)
    ensures Contains(a + b, w)
  {
    var i :| 0 <= i <= |b| - |w| && OccursAt(b, w, i);
    var k := |a| + i;
    assert (a + b)[k..k + |w|] == b[i..i + |w|];
    assert OccursAt(a + b, w, k);
  }

  /** A string occurs at the head of every extension of it. */
  lemma ContainsHead(b: string, c: string)
    ensures Contains(b + c, b)
  {
    assert (b + c)[0..|b|] == b;
    assert OccursAt(b + c, b, 0);
  }

  // ---------------------------------------------------------------------------
  // Runs: `split(/\s+/)` on a trimmed string and `match(/\d+/g)`
  // ---------------------------------------------------------------------------

  predicate AllIn(w: string, inRun: char -> bool) {
    forall c <- w :: inRun(c)
  }

  predicate NoneIn(s: string, inRun: char -> bool) {
    forall c <- s :: !inRun(c)
  }

  function Flush(cur: string): seq<string> {
    if cur == [] then [] else [cur]
  }

  /** The maximal runs of characters satisfying `inRun`, scanning `s` with the
      unfinished run `cur` already read. */
  function SplitRuns(s: string, cur: string, inRun: char -> bool): (r: seq<string>)
    requires AllIn(cur, inRun)
    ensures forall w <- r :: w != [] && AllIn(w, inRun)
    ensures r == [] <==> cur == [] && NoneIn(s, inRun)
    decreases |s|
  {
    if s == [] then Flush(cur)
    else if !inRun(s[0]) then Flush(cur) + SplitRuns(s[1..], [], inRun)
    else SplitRuns(s[1..], cur + [s[0]], inRun)
  }

  /** Every run is a piece of the text it was cut from. */
  lemma {:induction false} SplitRunsOccur(s: string, cur: string, inRun: char -> bool)
    requires AllIn(cur, inRun)
    ensures forall w <- SplitRuns(s, cur, inRun) :: Contains(cur + s, w)
    decreases |s|
  {
    if s == [] {
      assert cur + s == cur;
      ContainsSelf(cur);
    } else if !inRun(s[0]) {
      var rest := SplitRuns(s[1..], [], inRun);
      SplitRunsOccur(s[1..], [], inRun);
      assert [] + s[1..] == s[1..];
      var pre := cur + [s[0]];
      assert pre + s[1..] == cur + s;
      forall w <- rest ensures Contains(cur + s, w) {
        ContainsSuffix(pre, s[1..], w);
      }
      if cur != [] {
        ContainsHead(cur, s);
      }
    } else {
      SplitRunsOccur(s[1..], cur + [s[0]], inRun);
      assert (cur + [s[0]]) + s[1..] == cur + s;
    }
  }

  /** The maximal runs of characters satisfying `inRun`, in order. */
  function Runs(s: string, inRun: char -> bool): (r: seq<string>)
    ensures forall w <- r :: w != [] && AllIn(w, inRun)
    ensures r == [] <==> NoneIn(s, inRun)
  {
    SplitRuns(s, [], inRun)
  }

  /** Each run occurs in the text. */
  lemma RunsOccur(s: string, inRun: char -> bool)
    ensures forall w <- Runs(s, inRun) :: Contains(s, w)
  {
    SplitRunsOccur(s, [], inRun);
    assert [] + s == s;
  }

  /** A stretch of run characters read on from `cur` makes one run. */
  lemma {:induction false} SplitRunsWhole(w: string, cur: string, inRun: char -> bool)
    requires AllIn(cur, inRun) && AllIn(w, inRun)
    ensures SplitRuns(w, cur, inRun) == Flush(cur + w)
    decreases |w|
  {
    if w == [] {
      assert cur + w == cur;
    } else {
      assert w[0] in w;
      assert forall c <- w[1..] :: c in w;
      assert forall c <- cur + [w[0]] :: c in cur || c == w[0];
      SplitRunsWhole(w[1..], cur + [w[0]], inRun);
      assert cur + [w[0]] + w[1..] == cur + w;
    }
  }

  /** A character outside the runs closes the run before it. */
  lemma {:induction false} SplitRunsSeparated(a: string, c: char, b: string, cur: string, inRun: char -> bool)
    requires AllIn(cur, inRun) && !inRun(c)
    ensures SplitRuns(a + [c] + b, cur, inRun) == SplitRuns(a, cur, inRun) + SplitRuns(b, [], inRun)
    decreases |a|
  {
    var s := a + [c] + b;
    if a == [] {
      assert s[0] == c && s[1..] == b;
    } else {
      assert s[0] == a[0] && s[1..] == a[1..] + [c] + b;
      if inRun(a[0]) {
        assert forall x <- cur + [a[0]] :: x in cur || x == a[0];
        SplitRunsSeparated(a[1..], c, b, cur + [a[0]], inRun);
      } else {
        SplitRunsSeparated(a[1..], c, b, [], inRun);
        AppendAssoc(Flush(cur), SplitRuns(a[1..], [], inRun), SplitRuns(b, [], inRun));
      }
    }
  }

  /** A non-empty text of run characters only is a single run: no run is
      ever split. Together with the next lemma and `Runs`' own contract (no
      run in a text without run characters) this fixes `Runs` on every text. */
  lemma RunsOfRun(w: string, inRun: char -> bool)
    requires w != [] && AllIn(w, inRun)
    ensures Runs(w, inRun) == [w]
  {
    SplitRunsWhole(w, [], inRun);
    assert [] + w == w;
  }

  /** A character outside the runs separates them: the runs of `a + [c] + b`
      are the runs of `a` followed by the runs of `b`, none dropped, none
      merged, in order. */
  lemma RunsSeparated(a: string, c: char, b: string, inRun: char -> bool)
    requires !inRun(c)
    ensures Runs(a + [c] + b, inRun) == Runs(a, inRun) + Runs(b, inRun)
  {
    SplitRunsSeparated(a, c, b, [], inRun);
  }

  /** `s.split(/\s+/)` for a trimmed `s`, empty pieces dropped: on a trimmed
      string the only empty piece `split` yields is the one for "" itself. */
  function Words(s: string): seq<string> {
    Runs(s, NotSpace)
  }

  /** `s.match(/\d+/g)`, with `null` (no match) as the empty sequence. */
  function DigitRuns(s: string): seq<string> {
    Runs(s, IsDigit)
  }

  // ---------------------------------------------------------------------------
  // Numbers as text
  // ---------------------------------------------------------------------------

  function DigitValue(c: char): nat
    requires IsDigit(c)
  {
    c as int - '0' as int
  }

  function DigitChar(d: nat): (c: char)
    requires d < 10
    ensures IsDigit(c) && DigitValue(c) == d
  {
    ('0' as int + d) as char
  }

  /** `parseInt` of a digit run: its decimal value. */
  function DecimalValue(d: string): nat
    requires AllIn(d, IsDigit)
  {
    if d == [] then 0 else DecimalValue(d[..|d| - 1]) * 10 + DigitValue(d[|d| - 1])
  }

  /** The decimal text of a natural number, as `String(n)` writes it. */
  function NatToString(n: nat): (r: string)
    ensures r != [] && AllIn(r, IsDigit)
  {
    if n < 10 then [DigitChar(n)] else NatToString(n / 10) + [DigitChar(n % 10)]
  }

  /** `String(i)` for an integer. */
  function IntToString(i: int): string {
    if i < 0 then "-" + NatToString(-i) else NatToString(i)
  }

  /** Reading the decimal text of `n` back gives `n`. */
  lemma {:induction false} NatToStringRoundTrip(n: nat)
    ensures DecimalValue(NatToString(n)) == n
  {
    if n >= 10 {
      NatToStringRoundTrip(n / 10);
      var s := NatToString(n);
      assert s[..|s| - 1] == NatToString(n / 10);
    }
  }

  /** The three-digit, zero-padded text of a group below 1000. */
  function Pad3(k: nat): (r: string)
    requires k < 1000
    ensures |r| == 3 && AllIn(r, IsDigit)
  {
    [DigitChar(k / 100), DigitChar(k / 10 % 10), DigitChar(k % 10)]
  }

  /** `toLocaleString` of a non-negative integer: decimal digits grouped in
      threes with commas ("50,000"). */
  function Grouped(n: nat): (r: string)
    ensures r != [] && IsDigit(r[0])
  {
    if n < 1000 then NatToString(n) else Grouped(n / 1000) + "," + Pad3(n % 1000)
  }

  function RemoveCommas(s: string): (r: string)
    ensures AllIn(r, (c: char) => c != ',')
  {
    if s == [] then [] else (if s[0] == ',' then [] else [s[0]]) + RemoveCommas(s[1..])
  }

  lemma {:induction false} RemoveCommasAppend(a: string, b: string)
    ensures RemoveCommas(a + b) == RemoveCommas(a) + RemoveCommas(b)
  {
    if a != [] {
      assert (a + b)[1..] == a[1..] + b;
      RemoveCommasAppend(a[1..], b);
    } else {
      assert a + b == b;
    }
  }

  lemma DigitsHaveNoCommas(s: string)
    requires AllIn(s, IsDigit)
    ensures RemoveCommas(s) == s
    decreases |s|
  {
    if s != [] {
      assert s[0] in s;
      assert forall c <- s[1..] :: c in s;
      DigitsHaveNoCommas(s[1..]);
    }
  }

  function Pow10(k: nat): nat {
    if k == 0 then 1 else 10 * Pow10(k - 1)
  }

  lemma MulShift(x: nat, p: nat)
    ensures (x * p) * 10 == x * (10 * p)
  {
  }

  lemma {:induction false} DecimalValueAppend(a: string, b: string)
    requires AllIn(a, IsDigit) && AllIn(b, IsDigit)
    ensures DecimalValue(a + b) == DecimalValue(a) * Pow10(|b|) + DecimalValue(b)
    decreases |b|
  {
    if b == [] {
      assert a + b == a;
    } else {
      var b', last := b[..|b| - 1], b[|b| - 1];
      assert (a + b)[..|a + b| - 1] == a + b';
      assert (a + b)[|a + b| - 1] == last;
      DecimalValueAppend(a, b');
      var va, vb', p := DecimalValue(a), DecimalValue(b'), Pow10(|b'|);
      var d := DigitValue(last);
      assert Pow10(|b|) == 10 * p;
      calc {
        DecimalValue(a + b);
        DecimalValue(a + b') * 10 + d;
        (va * p + vb') * 10 + d;
        { MulShift(va, p); }
        va * (10 * p) + (vb' * 10 + d);
      }
    }
  }

  lemma Pad3Value(k: nat)
    requires k < 1000
    ensures DecimalValue(Pad3(k)) == k
  {
    var p := Pad3(k);
    var a, b, c := k / 100, k / 10 % 10, k % 10;
    assert p[..1] == [DigitChar(a)] && p[..2] == [DigitChar(a), DigitChar(b)];
    assert p[..1][..0] == [] && p[..2][..1] == p[..1];
    assert DecimalValue(p[..1]) == a;
    assert DecimalValue(p[..2]) == a * 10 + b;
    assert DecimalValue(p) == (a * 10 + b) * 10 + c;
    assert k / 10 == a * 10 + b;
    assert k == (k / 10) * 10 + c;
  }

  /** The grouped text of an amount reads back, commas ignored, as the amount. */
  lemma {:induction false} GroupedRoundTrip(n: nat)
    ensures AllIn(RemoveCommas(Grouped(n)), IsDigit)
    ensures DecimalValue(RemoveCommas(Grouped(n))) == n
  {
    if n < 1000 {
      DigitsHaveNoCommas(NatToString(n));
      NatToStringRoundTrip(n);
    } else {
      var q, m := n / 1000, n % 1000;
      var head, tail := Grouped(q), Pad3(m);
      GroupedRoundTrip(q);
      var digits := RemoveCommas(head);
      RemoveCommasAppend(head + ",", tail);
      RemoveCommasAppend(head, ",");
      DigitsHaveNoCommas(tail);
      assert RemoveCommas(",") == [];
      assert RemoveCommas(Grouped(n)) == digits + tail;
      DecimalValueAppend(digits, tail);
      Pad3Value(m);
      assert Pow10(3) == 1000;
      calc {
        DecimalValue(digits + tail);
        DecimalValue(digits) * Pow10(3) + DecimalValue(tail);
        q * 1000 + m;
        n;
      }
    }
  }

  // ---------------------------------------------------------------------------
  // `join`
  // ---------------------------------------------------------------------------

  /** `parts.join(sep)`. */
  function Join(parts: seq<string>, sep: string): (r: string)
    ensures parts == [] ==> r == []
    ensures forall i :: 0 <= i < |parts| ==> |parts[i]| <= |r|
    ensures parts != [] ==> r[..|parts[0]|] == parts[0]
    ensures parts != [] ==> r[|r| - |parts[|parts| - 1]|..] == parts[|parts| - 1]
  {
    if parts == [] then []
    else if |parts| == 1 then parts[0]
    else
      var rest := Join(parts[1..], sep);
      var r := parts[0] + sep + rest;
      assert parts[1..][|parts| - 2] == parts[|parts| - 1];
      assert r[|r| - |rest|..] == rest;
      r
  }

  /** Every part occurs in the joined text. */
  lemma {:induction false} JoinContains(parts: seq<string>, sep: string)
    ensures forall p <- parts :: Contains(Join(parts, sep), p)
  {
    if |parts| == 1 {
      ContainsSelf(parts[0]);
    } else if |parts| > 1 {
      var rest := Join(parts[1..], sep);
      JoinContains(parts[1..], sep);
      forall p <- parts ensures Contains(Join(parts, sep), p) {
        if p == parts[0] {
          ContainsHead(p, sep + rest);
          assert p + (sep + rest) == p + sep + rest;
        } else {
          assert p in parts[1..];
          ContainsSuffix(parts[0] + sep, rest, p);
        }
      }
    }
  }

  // ---------------------------------------------------------------------------
  // `escapeQuotes`
  // ---------------------------------------------------------------------------

  /** `s.replace(/c/g, rep)` for a one-character pattern. */
  function ReplaceAll(s: string, c: char, rep: string): string {
    if s == [] then [] else (if s[0] == c then rep else [s[0]]) + ReplaceAll(s[1..], c, rep)
  }

  lemma {:induction false} ReplaceAllAppend(a: string, b: string, c: char, rep: string)
    ensures ReplaceAll(a + b, c, rep) == ReplaceAll(a, c, rep) + ReplaceAll(b, c, rep)
  {
    if a == [] {
      assert a + b == b;
    } else {
      assert (a + b)[1..] == a[1..] + b;
      ReplaceAllAppend(a[1..], b, c, rep);
    }
  }

  function EscapeChar(c: char): string {
    if c == '\'' || c == '"' then ['\\', c] else [c]
  }

  /** Reference definition: each quote gets a backslash in front of it, every
      other character is kept, one character at a time. */
  function EscapeEach(s: string): string {
    if s == [] then [] else EscapeChar(s[0]) + EscapeEach(s[1..])
  }

  /** The two chained replacements escape each quote exactly once: the first
      only inserts backslashes and single quotes, which the second leaves alone. */
  lemma {:induction false} EscapeQuotesIsEscapeEach(s: string)
    ensures ReplaceAll(ReplaceAll(s, '\'', "\\'"), '"', "\\\"") == EscapeEach(s)
  {
    if s != [] {
      assert s == [s[0]] + s[1..];
      ReplaceAllAppend([s[0]], s[1..], '\'', "\\'");
      var once := ReplaceAll([s[0]], '\'', "\\'");
      ReplaceAllAppend(once, ReplaceAll(s[1..], '\'', "\\'"), '"', "\\\"");
      EscapeQuotesIsEscapeEach(s[1..]);
      assert [s[0]][1..] == [];
      if s[0] == '\'' {
        assert once == "\\'";
        assert once[1..][1..] == [];
      }
    }
  }

  /** app.js's `escapeQuotes`: every `'` is replaced by `\'`, then every `"`
      by `\"`; the result puts one backslash before each quote and keeps
      everything else. */
  function EscapeQuotes(s: string): (r: string)
    ensures r == EscapeEach(s)
  {
    EscapeQuotesIsEscapeEach(s);
    ReplaceAll(ReplaceAll(s, '\'', "\\'"), '"', "\\\"")
  }
}
