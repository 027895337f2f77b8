/**
 * The JSX ternary rewriter (scripts/fix-ternaries.mjs). `fixFile` scans a file once and
 * turns `{cond && ( … )}` and `{cond && <Tag …>}` into `{cond ? … : null}`.
 *
 * The two regular expressions are replaced by `FirstMatch`, which is specified as the
 * leftmost match with the shortest condition group. The scan itself is `FixFile`, a
 * method with the script's loops, and it is proved against `Run`, the step-by-step
 * meaning of one pass.
 */
module TernaryFix {
  import opened Wrappers
  import opened JsText

  function Min(a: int, b: int): int
  {
    if a <= b then a else b
  }

  /** A character the condition group `[^\{\}\n]` accepts. */
  predicate CondChar(c: char)
  {
    c != '{' && c != '}' && c != '\n'
  }

  predicate AllCondChars(s: string)
  {
    forall k :: 0 <= k < |s| ==> CondChar(s[k])
  }

  /** The first index at or after k that holds c, or |s| if there is none. */
  function FindFrom(s: string, k: nat, c: char): (g: nat)
    requires k <= |s|
    ensures k <= g <= |s|
    ensures forall m :: k <= m < g ==> s[m] != c
    ensures g < |s| ==> s[g] == c
    decreases |s| - k
  {
    if k < |s| && s[k] != c then FindFrom(s, k + 1, c) else k
  }

  /** The two patterns: `\{([^\{\}\n]+?)\s*&&\s*\(` and `\{([^\{\}\n]+?)\s*&&\s*(<[^>]+>)\s*\}`. */
  datatype Rule = AndParen | AndTag

  /** Where a match ends, and where its `(<[^>]+>)` group lies (empty for AndParen). */
  datatype Tail = Tail(end: nat, compStart: nat, compEnd: nat)

  /** The part of a pattern after the condition group, tried at q. Every `\s*` stands
      before a character that is not white space, so it takes the whole run; `[^>]+`
      followed by '>' runs to the first '>'. */
  function TailAt(rule: Rule, s: string, q: nat): (t: Option<Tail>)
    requires q <= |s|
    ensures t.Some? ==> q < t.value.end <= |s|
    ensures t.Some? && rule == AndParen ==> s[t.value.end - 1] == '('
    ensures t.Some? && rule == AndTag ==>
      q < t.value.compStart && t.value.compStart + 3 <= t.value.compEnd < t.value.end &&
      s[t.value.compStart] == '<' && s[t.value.compEnd - 1] == '>' && s[t.value.end - 1] == '}'
  {
    var e := SkipSpaces(s, q);
    if e + 2 <= |s| && s[e] == '&' && s[e + 1] == '&' then
      var f := SkipSpaces(s, e + 2);
      if rule == AndParen then
        if f < |s| && s[f] == '(' then Some(Tail(f + 1, f + 1, f + 1)) else None
      else if f < |s| && s[f] == '<' then
        var g := FindFrom(s, f + 1, '>');
        if f + 2 <= g < |s| then
          var h := SkipSpaces(s, g + 1);
          if h < |s| && s[h] == '}' then
            Some(Tail(h + 1, f, g + 1))
          else None
        else None
      else None
    else None
  }

  /** The component group holds no '>' but its last character, and only white space stands
      between it and the closing '}'. */
  lemma TagComponent(s: string, q: nat)
    requires q <= |s| && TailAt(AndTag, s, q).Some?
    ensures var t := TailAt(AndTag, s, q).value;
            '>' !in s[t.compStart + 1..t.compEnd - 1] && AllSpaces(s[t.compEnd..t.end - 1])
  {
    var t := TailAt(AndTag, s, q).value;
    var e := SkipSpaces(s, q);
    var f := SkipSpaces(s, e + 2);
    var g := FindFrom(s, f + 1, '>');
    assert f == t.compStart && g + 1 == t.compEnd;
    var inner := s[f + 1..g];
    forall m | 0 <= m < |inner| ensures inner[m] != '>' {
      assert inner[m] == s[f + 1 + m];
    }
    SpacesSlice(s, t.compEnd, t.end - 1);
  }

  /** Every character of `s[lo..hi]` may stand in the condition group. */
  predicate CondRun(s: string, lo: nat, hi: nat)
    requires hi <= |s|
  {
    forall m :: lo <= m < hi ==> CondChar(s[m])
  }

  /** The pattern matches at p with the condition group `s[p+1..q]`. */
  predicate IsMatch(rule: Rule, s: string, p: nat, q: nat)
  {
    p + 2 <= q <= |s| && s[p] == '{' && CondRun(s, p + 1, q) && TailAt(rule, s, q).Some?
  }

  /** No condition group `s[p+1..q]` with lo <= q < hi lets the pattern match at p. */
  ghost predicate NoMatchIn(rule: Rule, s: string, p: nat, lo: nat, hi: nat)
  {
    forall q: nat :: lo <= q < hi ==> !IsMatch(rule, s, p, q)
  }

  lemma NoMatchPrepend(rule: Rule, s: string, p: nat, q: nat, hi: nat)
    requires !IsMatch(rule, s, p, q) && NoMatchIn(rule, s, p, q + 1, hi)
    ensures NoMatchIn(rule, s, p, q, hi)
  {
  }

  /** A character the condition group cannot hold ends every longer candidate. */
  lemma NoCondAfter(rule: Rule, s: string, p: nat, q: nat)
    requires p + 1 < q <= |s| && !CondChar(s[q - 1])
    ensures NoMatchIn(rule, s, p, q, |s| + 1)
  {
    forall q': nat | q <= q' < |s| + 1 ensures !IsMatch(rule, s, p, q') {
      assert !CondChar(s[q - 1]);
    }
  }

  /** The lazy group `+?`: the shortest condition, at least `s[p+1..q]`, after which the rest
      of the pattern matches. */
  function LazyFrom(rule: Rule, s: string, p: nat, q: nat): (r: Option<nat>)
    requires p + 2 <= q <= |s| && s[p] == '{' && CondRun(s, p + 1, q - 1)
    ensures r.Some? ==> q <= r.value && IsMatch(rule, s, p, r.value) && NoMatchIn(rule, s, p, q, r.value)
    ensures r.None? ==> NoMatchIn(rule, s, p, q, |s| + 1)
    decreases |s| - q
  {
    if !CondChar(s[q - 1]) then
      NoCondAfter(rule, s, p, q);
      None
    else if TailAt(rule, s, q).Some? then
      Some(q)
    else if q < |s| then
      var r := LazyFrom(rule, s, p, q + 1);
      NoMatchPrepend(rule, s, p, q, if r.Some? then r.value else |s| + 1);
      r
    else
      NoMatchPrepend(rule, s, p, q, q + 1);
      None
  }

  lemma NoShorterStart(rule: Rule, s: string, p: nat, hi: nat)
    requires NoMatchIn(rule, s, p, p + 2, hi)
    ensures Shortest(rule, s, p, hi)
  {
  }

  /** The match starting at p, if the pattern matches there. */
  function FirstAt(rule: Rule, s: string, p: nat): (r: Option<nat>)
    requires p <= |s|
    ensures r.Some? ==> IsMatch(rule, s, p, r.value) && Shortest(rule, s, p, r.value)
    ensures r.None? ==> NoMatchAt(rule, s, p)
  {
    if p + 2 <= |s| && s[p] == '{' then
      var r := LazyFrom(rule, s, p, p + 2);
      NoShorterStart(rule, s, p, if r.Some? then r.value else |s| + 1);
      r
    else None
  }

  /** No condition shorter than `s[p+1..c]` lets the pattern match at p. */
  ghost predicate Shortest(rule: Rule, s: string, p: nat, c: nat)
  {
    forall q: nat :: q < c ==> !IsMatch(rule, s, p, q)
  }

  /** The pattern matches at p with no condition group at all. */
  ghost predicate NoMatchAt(rule: Rule, s: string, p: nat)
  {
    forall q: nat :: !IsMatch(rule, s, p, q)
  }

  lemma MatchBlocks(rule: Rule, s: string, p: nat, q: nat)
    requires IsMatch(rule, s, p, q)
    ensures !NoMatchAt(rule, s, p)
  {
  }

  /** The pattern matches at no start in `[lo, hi)`. */
  ghost predicate NoMatchBetween(rule: Rule, s: string, lo: nat, hi: nat)
  {
    forall p: nat :: lo <= p < hi ==> NoMatchAt(rule, s, p)
  }

  /** The pattern matches at no start from lo on. */
  ghost predicate NoMatchFrom(rule: Rule, s: string, lo: nat)
  {
    forall p: nat :: lo <= p ==> NoMatchAt(rule, s, p)
  }

  /** A match: the '{' it starts at, the end of its condition group, and the rest. */
  datatype Match = Match(start: nat, condEnd: nat, tail: Tail)

  /** `content.slice(i).match(pattern)`: the leftmost start, and at that start the shortest
      condition group. */
  function FirstMatch(rule: Rule, s: string, i: nat): (r: Option<Match>)
    requires i <= |s|
    ensures r.Some? ==> i <= r.value.start && IsMatch(rule, s, r.value.start, r.value.condEnd)
    ensures r.Some? ==> TailAt(rule, s, r.value.condEnd) == Some(r.value.tail)
    ensures r.Some? ==> NoMatchBetween(rule, s, i, r.value.start)
    ensures r.Some? ==> Shortest(rule, s, r.value.start, r.value.condEnd)
    ensures r.None? ==> NoMatchFrom(rule, s, i)
    decreases |s| - i
  {
    if i == |s| then
      None
    else
      match FirstAt(rule, s, i)
      case Some(q) => Some(Match(i, q, TailAt(rule, s, q).value))
      case None =>
        var r := FirstMatch(rule, s, i + 1);
        NoMatchAtStart(rule, s, i, if r.Some? then r.value.start else i + 1);
        r
  }

  /** A start without a match extends the stretch of starts without one. */
  lemma NoMatchAtStart(rule: Rule, s: string, i: nat, hi: nat)
    requires NoMatchAt(rule, s, i)
    ensures NoMatchBetween(rule, s, i + 1, hi) ==> NoMatchBetween(rule, s, i, hi)
    ensures NoMatchFrom(rule, s, i + 1) ==> NoMatchFrom(rule, s, i)
  {
  }

  /** `match[1]`, the condition. */
  function Condition(s: string, m: Match): (cond: string)
    requires m.start + 1 <= m.condEnd <= |s|
  {
    s[m.start + 1..m.condEnd]
  }

  /** The match a rule would act on at i: its first match, unless its condition has a '?'. */
  predicate Applies(rule: Rule, s: string, i: nat)
    requires i <= |s|
  {
    var m := FirstMatch(rule, s, i);
    m.Some? && '?' !in Condition(s, m.value)
  }

  // ---- parenthesis balance ----

  function Delta(c: char): int
  {
    if c == '(' then 1 else if c == ')' then -1 else 0
  }

  /** Opening minus closing parentheses. */
  function BalanceOf(t: string): int
  {
    if t == [] then 0 else Delta(t[0]) + BalanceOf(t[1..])
  }

  /** A body whose parentheses close exactly and never dip below zero. */
  predicate Nested(body: string)
  {
    BalanceOf(body) == 0 && forall m :: 0 <= m <= |body| ==> BalanceOf(body[..m]) >= 0
  }

  /** The inner loop: `while (j < content.length && pCount > 0)`, counting up at '(' and
      down at ')'; the index it stops at. */
  function ParenEnd(s: string, j: nat, depth: nat): (e: nat)
    requires j <= |s|
    ensures j <= e <= |s|
    decreases |s| - j
  {
    if j < |s| && depth > 0 then
      var d: nat := depth + Delta(s[j]);
      ParenEnd(s, j + 1, d)
    else j
  }

  lemma BalanceStep(s: string, j: nat, m: nat)
    requires j < m <= |s|
    ensures BalanceOf(s[j..m]) == Delta(s[j]) + BalanceOf(s[j + 1..m])
  {
    assert s[j..m][1..] == s[j + 1..m];
  }

  /** The scan stops at the first index where the depth reaches 0, or at the end of the
      input; when it stops balanced, the last character it passed is the matching ')'. */
  lemma {:induction false} ParenScan(s: string, j: nat, depth: nat)
    requires j <= |s| && depth > 0
    ensures var e := ParenEnd(s, j, depth);
            (forall m :: j <= m < e ==> depth + BalanceOf(s[j..m]) > 0) &&
            (e == |s| || depth + BalanceOf(s[j..e]) == 0) &&
            (depth + BalanceOf(s[j..e]) == 0 ==> j < e && s[e - 1] == ')')
    decreases |s| - j
  {
    var e := ParenEnd(s, j, depth);
    assert s[j..j] == [];
    if j < |s| {
      var d: nat := depth + Delta(s[j]);
      assert e == ParenEnd(s, j + 1, d);
      BalanceStep(s, j, j + 1);
      assert s[j + 1..j + 1] == [];
      if d == 0 {
        assert e == j + 1;
      } else {
        ParenScan(s, j + 1, d);
        forall m | j + 1 <= m <= e
          ensures depth + BalanceOf(s[j..m]) == d + BalanceOf(s[j + 1..m])
        {
          BalanceStep(s, j, m);
        }
      }
    }
  }

  /** A nested body followed by ')' is scanned to just after that ')'. */
  lemma {:induction false} ParenEndNested(s: string, j: nat, body: string, depth: nat)
    requires j + |body| < |s| && s[j..j + |body|] == body && s[j + |body|] == ')'
    requires depth >= 1 && depth + BalanceOf(body) == 1
    requires forall m :: 0 <= m <= |body| ==> depth + BalanceOf(body[..m]) >= 1
    ensures ParenEnd(s, j, depth) == j + |body| + 1
    decreases |body|
  {
    if body == [] {
      assert ParenEnd(s, j, depth) == ParenEnd(s, j + 1, 0);
    } else {
      assert s[j] == body[0];
      var d: nat := depth + Delta(body[0]);
      assert body[..1] == [body[0]];
      assert BalanceOf(body[..1]) == Delta(body[0]);
      var rest := body[1..];
      forall m | 0 <= m <= |rest| ensures d + BalanceOf(rest[..m]) >= 1 {
        assert body[..m + 1][1..] == rest[..m];
        assert depth + BalanceOf(body[..m + 1]) >= 1;
      }
      assert s[j + 1..j + 1 + |rest|] == rest;
      ParenEndNested(s, j + 1, rest, d);
    }
  }

  // ---- one step of the scan ----

  /** What one iteration of the outer loop does. */
  datatype StepKind = Closed | Unclosed | SingleLine | Copied

  datatype Step = Step(emit: string, next: nat, rewrote: bool, kind: StepKind)

  /** The first rule at its match m: copy the text before it, emit `{cond ? (`, copy the
      scanned body, then look past white space for '}'. Without one, the segment up to and
      including the character found is appended as it is, after the already emitted prefix. */
  function ParenStep(s: string, i: nat, m: Match): (st: Step)
    requires i <= m.start && m.start + 2 <= m.condEnd < m.tail.end <= |s|
    ensures st.next > m.tail.end && st.next <= |s| + 1
    ensures st.rewrote <==> st.kind == Closed
    ensures st.kind == Closed || st.kind == Unclosed
    ensures |st.emit| >= m.start - i && st.emit[..m.start - i] == s[i..m.start]
  {
    var j := ParenEnd(s, m.tail.end, 1);
    var k := SkipSpaces(s, j);
    var head := s[i..m.start] + ("{" + Condition(s, m) + " ? (") + s[m.tail.end..j];
    if k < |s| && s[k] == '}' then Step(head + " : null}", k + 1, true, Closed)
    else Step(head + s[j..Min(k + 1, |s|)], k + 1, false, Unclosed)
  }

  /** The first rule's step is decided after the parenthesis scan from the match's end and
      the white space after it: it goes on one past the character reached, and it is a
      closed rewrite exactly when that character is '}'. */
  lemma ParenStepStops(s: string, i: nat, m: Match)
    requires i <= m.start && m.start + 2 <= m.condEnd < m.tail.end <= |s|
    ensures var k := SkipSpaces(s, ParenEnd(s, m.tail.end, 1));
            ParenStep(s, i, m).next == k + 1 &&
            (ParenStep(s, i, m).kind == Closed <==> k < |s| && s[k] == '}')
  {
  }

  /** The second rule at its match m: `{cond ? <…> : null}` in place of the whole match. */
  function TagStep(s: string, i: nat, m: Match): (st: Step)
    requires i <= m.start && m.start + 2 <= m.condEnd <= m.tail.compStart <= m.tail.compEnd < m.tail.end <= |s|
    ensures st.next == m.tail.end && st.rewrote && st.kind == SingleLine
    ensures |st.emit| >= m.start - i && st.emit[..m.start - i] == s[i..m.start]
  {
    Step(s[i..m.start] + ("{" + Condition(s, m) + " ? " + s[m.tail.compStart..m.tail.compEnd] + " : null}"),
         m.tail.end, true, SingleLine)
  }

  /** One iteration at i: the first rule if it applies, else the second, else copy one
      character. Every iteration moves i forward. */
  function StepAt(s: string, i: nat): (st: Step)
    requires i < |s|
    ensures i < st.next <= |s| + 1
    ensures st.kind == Closed || st.kind == Unclosed <==> Applies(AndParen, s, i)
    ensures st.kind == SingleLine <==> !Applies(AndParen, s, i) && Applies(AndTag, s, i)
    ensures st.kind == Copied <==> !Applies(AndParen, s, i) && !Applies(AndTag, s, i)
    ensures st.rewrote <==> st.kind == Closed || st.kind == SingleLine
    ensures st.kind == Copied ==> st.emit == [s[i]] && st.next == i + 1
  {
    var m1 := FirstMatch(AndParen, s, i);
    if m1.Some? && '?' !in Condition(s, m1.value) then
      ParenStep(s, i, m1.value)
    else
      var m2 := FirstMatch(AndTag, s, i);
      if m2.Some? && '?' !in Condition(s, m2.value) then TagStep(s, i, m2.value)
      else Step([s[i]], i + 1, false, Copied)
  }

  /** The output of the scan from i, and whether any step set `modified`. */
  datatype Output = Output(text: string, modified: bool)

  function Run(s: string, i: nat): (out: Output)
    decreases |s| + 1 - i
  {
    if i >= |s| then Output("", false)
    else
      var st := StepAt(s, i);
      var rest := Run(s, st.next);
      Output(st.emit + rest.text, st.rewrote || rest.modified)
  }

  // ---- the unclosed branch as its comment intends ----

  /** One iteration in which a first-rule match whose body is not followed by '}' reverts
      the whole segment: the text from i up to and including the character after the white
      space is copied unchanged. Every other iteration is as in `StepAt`. */
  function RevertingStepAt(s: string, i: nat): (st: Step)
    requires i < |s|
    ensures i < st.next <= |s| + 1
    ensures st.next == StepAt(s, i).next && st.rewrote == StepAt(s, i).rewrote && st.kind == StepAt(s, i).kind
    ensures st.kind != Unclosed ==> st == StepAt(s, i)
    ensures !st.rewrote ==> st.emit == s[i..Min(st.next, |s|)]
  {
    var st := StepAt(s, i);
    if st.kind == Unclosed then Step(s[i..Min(st.next, |s|)], st.next, false, Unclosed)
    else
      assert st.kind == Copied ==> s[i..Min(st.next, |s|)] == [s[i]];
      st
  }

  function RevertingRun(s: string, i: nat): (out: Output)
    decreases |s| + 1 - i
  {
    if i >= |s| then Output("", false)
    else
      var st := RevertingStepAt(s, i);
      var rest := RevertingRun(s, st.next);
      Output(st.emit + rest.text, st.rewrote || rest.modified)
  }

  lemma SliceJoin(s: string, i: nat, n: nat)
    requires i <= n <= |s|
    ensures s[i..] == s[i..n] + s[n..]
  {
  }

  /** The reverting pass visits the same positions as the pass as written, so it reports a
      change exactly when that pass does. */
  lemma {:induction false} RevertingRunModified(s: string, i: nat)
    ensures RevertingRun(s, i).modified == Run(s, i).modified
    decreases |s| + 1 - i
  {
    if i < |s| {
      var st := RevertingStepAt(s, i);
      RevertingRunModified(s, st.next);
    }
  }

  /** When the reverting pass reports no change, its output is its input. */
  lemma {:induction false} RevertingRunKeepsUnchanged(s: string, i: nat)
    requires i <= |s|
    ensures !RevertingRun(s, i).modified ==> RevertingRun(s, i).text == s[i..]
    decreases |s| - i
  {
    if i < |s| && !RevertingRun(s, i).modified {
      var st := RevertingStepAt(s, i);
      var n := Min(st.next, |s|);
      if st.next <= |s| {
        RevertingRunKeepsUnchanged(s, st.next);
      } else {
        assert RevertingRun(s, st.next).text == s[n..];
      }
      SliceJoin(s, i, n);
    }
  }

  /** One more iteration keeps the scan's invariant: what is emitted so far followed by the
      output of the rest is the output of the whole pass. */
  lemma Advance(s: string, i: nat, before: string, modified: bool, after: string, next: nat, nowModified: bool)
    requires i < |s|
    requires Run(s, 0) == Output(before + Run(s, i).text, modified || Run(s, i).modified)
    requires after == before + StepAt(s, i).emit && next == StepAt(s, i).next
    requires nowModified == (modified || StepAt(s, i).rewrote)
    ensures Run(s, 0) == Output(after + Run(s, next).text, nowModified || Run(s, next).modified)
  {
    var st := StepAt(s, i);
    assert Run(s, i).text == st.emit + Run(s, st.next).text;
    ConcatAssoc(before, st.emit, Run(s, st.next).text);
  }

  /** The parenthesis loop of `fixFile`: from just after the opening '(' at depth 1, the
      index where the depth first reaches 0, or the end of the content. */
  method ScanBody(content: string, bodyStart: nat) returns (j: nat)
    requires bodyStart <= |content|
    ensures j == ParenEnd(content, bodyStart, 1)
  {
    var pCount: nat := 1;
    j := bodyStart;
    while j < |content| && pCount > 0
      invariant bodyStart <= j <= |content|
      invariant ParenEnd(content, j, pCount) == ParenEnd(content, bodyStart, 1)
      decreases |content| - j
    {
      if content[j] == '(' {
        pCount := pCount + 1;
      } else if content[j] == ')' {
        pCount := pCount - 1;
      }
      j := j + 1;
    }
  }

  /** `while (k < content.length && /\s/.test(content[k])) k++`. */
  method SkipWhitespace(content: string, j: nat) returns (k: nat)
    requires j <= |content|
    ensures k == SkipSpaces(content, j)
  {
    k := j;
    while k < |content| && IsSpace(content[k])
      invariant j <= k <= |content|
      invariant SkipSpaces(content, k) == SkipSpaces(content, j)
      decreases |content| - k
    {
      k := k + 1;
    }
  }

  /** The first rule's branch of `fixFile` at match m: everything it appends to `newContent`,
      where the scan goes on, and whether it set `modified`. */
  method ApplyAndParen(content: string, i: nat, m: Match, newContent: string) returns (out: string, next: nat, closed: bool)
    requires i <= m.start && m.start + 2 <= m.condEnd < m.tail.end <= |content|
    ensures out == newContent + ParenStep(content, i, m).emit
    ensures next == ParenStep(content, i, m).next && closed == ParenStep(content, i, m).rewrote
  {
    var start := m.start;
    var condition := Condition(content, m);
    var bodyStart := m.tail.end;
    out := newContent + content[i..start];
    ghost var emitted := content[i..start];
    out := out + ("{" + condition + " ? (");
    ConcatAssoc(newContent, emitted, "{" + condition + " ? (");
    emitted := emitted + ("{" + condition + " ? (");
    var j := ScanBody(content, bodyStart);
    out := out + content[bodyStart..j];
    ConcatAssoc(newContent, emitted, content[bodyStart..j]);
    emitted := emitted + content[bodyStart..j];
    var k := SkipWhitespace(content, j);
    if k < |content| && content[k] == '}' {
      out := out + " : null}";
      ConcatAssoc(newContent, emitted, " : null}");
      next, closed := k + 1, true;
    } else {
      out := out + content[j..Min(k + 1, |content|)];
      ConcatAssoc(newContent, emitted, content[j..Min(k + 1, |content|)]);
      next, closed := k + 1, false;
    }
  }

  /** The second rule's branch of `fixFile` at match m. */
  method ApplyAndTag(content: string, i: nat, m: Match, newContent: string) returns (out: string, next: nat)
    requires i <= m.start && m.start + 2 <= m.condEnd <= m.tail.compStart <= m.tail.compEnd < m.tail.end <= |content|
    ensures out == newContent + TagStep(content, i, m).emit && next == TagStep(content, i, m).next
  {
    var start := m.start;
    var condition := Condition(content, m);
    var component := content[m.tail.compStart..m.tail.compEnd];
    out := newContent + content[i..start];
    out := out + ("{" + condition + " ? " + component + " : null}");
    ConcatAssoc(newContent, content[i..start], "{" + condition + " ? " + component + " : null}");
    next := m.tail.end;
  }

  /** `fixFile` on the text of one file: the new content, the `modified` flag, and whether
      the file is written back. */
  method FixFile(content: string) returns (newContent: string, modified: bool, written: bool)
    ensures Output(newContent, modified) == Run(content, 0)
    ensures written <==> modified && content != newContent
  {
    newContent := "";
    modified := false;
    var i: nat := 0;
    while i < |content|
      invariant i <= |content| + 1
      invariant Run(content, 0) == Output(newContent + Run(content, i).text, modified || Run(content, i).modified)
      decreases |content| + 1 - i
    {
      ghost var before := newContent;
      var found := FirstMatch(AndParen, content, i);
      if found.Some? && '?' !in Condition(content, found.value) {
        var next, closed;
        newContent, next, closed := ApplyAndParen(content, i, found.value, newContent);
        assert StepAt(content, i) == ParenStep(content, i, found.value);
        Advance(content, i, before, modified, newContent, next, modified || closed);
        i := next;
        modified := modified || closed;
        continue;
      }
      var single := FirstMatch(AndTag, content, i);
      if single.Some? && '?' !in Condition(content, single.value) {
        var next;
        newContent, next := ApplyAndTag(content, i, single.value, newContent);
        assert StepAt(content, i) == TagStep(content, i, single.value);
        Advance(content, i, before, modified, newContent, next, true);
        i := next;
        modified := true;
        continue;
      }
      assert StepAt(content, i) == Step([content[i]], i + 1, false, Copied);
      newContent := newContent + [content[i]];
      var next := i + 1;
      Advance(content, i, before, modified, newContent, next, modified);
      i := next;
    }
    written := modified && content != newContent;
  }
}

module TernaryFixShapes {
  import opened Wrappers
  import opened JsText
  import opened TernaryFix

  lemma {:induction false} FindFromTo(s: string, k: nat, g: nat, c: char)
    requires k <= g < |s| && s[g] == c
    requires forall m :: k <= m < g ==> s[m] != c
    ensures FindFrom(s, k, c) == g
    decreases g - k
  {
    if k < g {
      FindFromTo(s, k + 1, g, c);
    }
  }

  /** Neither pattern's tail can start where the white space it skips runs into a
      character other than '&'. */
  lemma NoTailBefore(rule: Rule, s: string, lo: nat, hi: nat)
    requires lo <= hi <= |s|
    requires forall m :: lo <= m < hi ==> s[m] != '&'
    requires lo < hi ==> !IsSpace(s[hi - 1])
    ensures forall q: nat :: lo <= q < hi ==> TailAt(rule, s, q).None?
  {
    forall q: nat | lo <= q < hi ensures TailAt(rule, s, q).None? {
      var e := SkipSpaces(s, q);
      assert e <= hi - 1;
    }
  }

  /** A match at p with no '{' before it from i, and no shorter condition, is the first. */
  lemma LocateFirst(rule: Rule, s: string, i: nat, p: nat, c: nat)
    requires i <= p && IsMatch(rule, s, p, c)
    requires forall m :: i <= m < p ==> s[m] != '{'
    requires forall q: nat :: p + 2 <= q < c ==> TailAt(rule, s, q).None?
    ensures FirstMatch(rule, s, i) == Some(Match(p, c, TailAt(rule, s, c).value))
  {
    MatchBlocks(rule, s, p, c);
    var r := FirstMatch(rule, s, i);
    assert r.Some?;
    assert r.value.start == p;
    assert r.value.condEnd == c;
  }

  /** The common head `{cond<ws>&&` of both patterns, by index: the brace at p, the
      condition up to c, the `&&` at e. */
  predicate HeadAt(s: string, i: nat, p: nat, c: nat, e: nat)
  {
    i <= p && p + 2 <= c <= e && e + 2 <= |s| && s[p] == '{' &&
    (forall m :: i <= m < p ==> s[m] != '{') &&
    CondRun(s, p + 1, c) && (forall m :: p < m < c ==> s[m] != '&') && !IsSpace(s[c - 1]) &&
    (forall m :: c <= m < e ==> IsSpace(s[m])) && s[e] == '&' && s[e + 1] == '&'
  }

  /** The conditions a shape lemma puts on the text of a condition. */
  predicate PlainCondition(cond: string)
  {
    cond != [] && AllCondChars(cond) && '&' !in cond && !IsSpace(cond[|cond| - 1])
  }

  // ---- locating the pieces of a text ----

  /** `t` occurs in `s` at k. */
  predicate At(s: string, k: nat, t: string)
  {
    k + |t| <= |s| && forall m {:trigger t[m]} :: 0 <= m < |t| ==> s[k + m] == t[m]
  }

  lemma AtWhole(a: string, b: string)
    ensures At(a + b, 0, a)
  {
  }

  lemma AtSplit(s: string, k: nat, a: string, b: string)
    requires At(s, k, a + b)
    ensures At(s, k, a) && At(s, k + |a|, b)
  {
    forall m | 0 <= m < |b| ensures s[k + |a| + m] == b[m] {
      assert s[k + (|a| + m)] == (a + b)[|a| + m];
    }
    forall m | 0 <= m < |a| ensures s[k + m] == a[m] {
      assert s[k + m] == (a + b)[m];
    }
  }

  lemma AtIndex(s: string, k: nat, t: string)
    requires At(s, k, t)
    ensures forall m :: k <= m < k + |t| ==> s[m] == t[m - k]
  {
    forall m | k <= m < k + |t| ensures s[m] == t[m - k] {
      assert s[k + (m - k)] == t[m - k];
    }
  }

  lemma AtSpaces(s: string, k: nat, ws: string)
    requires At(s, k, ws) && AllSpaces(ws)
    ensures forall m :: k <= m < k + |ws| ==> IsSpace(s[m])
  {
    AtIndex(s, k, ws);
  }

  /** The head `{cond<ws>&&` laid out from piece positions. */
  lemma HeadFromPieces(s: string, i: nat, pre: string, cond: string, ws1: string)
    requires At(s, i, pre) && '{' !in pre
    requires At(s, i + |pre|, "{")
    requires At(s, i + |pre| + 1, cond) && PlainCondition(cond)
    requires At(s, i + |pre| + 1 + |cond|, ws1) && AllSpaces(ws1)
    requires At(s, i + |pre| + 1 + |cond| + |ws1|, "&&")
    ensures HeadAt(s, i, i + |pre|, i + |pre| + 1 + |cond|, i + |pre| + 1 + |cond| + |ws1|)
  {
    var p := i + |pre|;
    var c := p + 1 + |cond|;
    var e := c + |ws1|;
    AtIndex(s, i, pre);
    AtIndex(s, p, "{");
    AtIndex(s, p + 1, cond);
    AtSpaces(s, c, ws1);
    AtIndex(s, e, "&&");
    assert s[c - 1] == cond[|cond| - 1];
  }

  /** The pieces of `pre + "{" + cond + ws1 + "&&" + ws2 + open` standing at i, by
      position. */
  lemma ArrowPieces(s: string, i: nat, pre: string, cond: string, ws1: string, ws2: string, open: string)
    requires At(s, i, pre + "{" + cond + ws1 + "&&" + ws2 + open)
    ensures At(s, i, pre) && At(s, i + |pre|, "{") && At(s, i + |pre| + 1, cond)
    ensures At(s, i + |pre| + 1 + |cond|, ws1) && At(s, i + |pre| + 1 + |cond| + |ws1|, "&&")
    ensures At(s, i + |pre| + 1 + |cond| + |ws1| + 2, ws2)
    ensures At(s, i + |pre| + 1 + |cond| + |ws1| + 2 + |ws2|, open)
  {
    var x1 := pre + "{";
    var x2 := x1 + cond;
    var x3 := x2 + ws1;
    var x4 := x3 + "&&";
    var x5 := x4 + ws2;
    AtSplit(s, i, x5, open);
    AtSplit(s, i, x4, ws2);
    AtSplit(s, i, x3, "&&");
    AtSplit(s, i, x2, ws1);
    AtSplit(s, i, x1, cond);
    AtSplit(s, i, pre, "{");
  }

  lemma AtSlice(s: string, k: nat, t: string)
    requires At(s, k, t)
    ensures s[k..k + |t|] == t
  {
    AtIndex(s, k, t);
  }

  /** Where `{cond && (` is the first thing from i, the first rule finds it with exactly
      that condition. */
  lemma AndParenFound(s: string, i: nat, p: nat, c: nat, e: nat, f: nat)
    requires HeadAt(s, i, p, c, e) && e + 2 <= f < |s| && s[f] == '('
    requires forall m :: e + 2 <= m < f ==> IsSpace(s[m])
    ensures FirstMatch(AndParen, s, i) == Some(Match(p, c, Tail(f + 1, f + 1, f + 1)))
  {
    SkipSpacesTo(s, c, e);
    SkipSpacesTo(s, e + 2, f);
    assert TailAt(AndParen, s, c) == Some(Tail(f + 1, f + 1, f + 1));
    NoTailBefore(AndParen, s, p + 1, c);
    LocateFirst(AndParen, s, i, p, c);
  }

  /** The tail `&& <…> }` of the second rule, tried at c. */
  lemma TagTail(s: string, c: nat, e: nat, f: nat, g: nat, h: nat)
    requires c <= e && e + 2 <= f && f + 2 <= g < h < |s|
    requires forall m :: c <= m < e ==> IsSpace(s[m])
    requires s[e] == '&' && s[e + 1] == '&'
    requires forall m :: e + 2 <= m < f ==> IsSpace(s[m])
    requires s[f] == '<' && (forall m :: f < m < g ==> s[m] != '>') && s[g] == '>'
    requires forall m :: g < m < h ==> IsSpace(s[m])
    requires s[h] == '}'
    ensures TailAt(AndTag, s, c) == Some(Tail(h + 1, f, g + 1))
  {
    SkipSpacesTo(s, c, e);
    SkipSpacesTo(s, e + 2, f);
    FindFromTo(s, f + 1, g, '>');
    SkipSpacesTo(s, g + 1, h);
  }

  /** Where `{cond && <…>}` is the first thing from i, the second rule finds it. */
  lemma AndTagFound(s: string, i: nat, p: nat, c: nat, e: nat, f: nat, g: nat, h: nat)
    requires HeadAt(s, i, p, c, e) && e + 2 <= f && f + 2 <= g < h < |s|
    requires forall m :: e + 2 <= m < f ==> IsSpace(s[m])
    requires s[f] == '<' && (forall m :: f < m < g ==> s[m] != '>') && s[g] == '>'
    requires forall m :: g < m < h ==> IsSpace(s[m])
    requires s[h] == '}'
    ensures FirstMatch(AndTag, s, i) == Some(Match(p, c, Tail(h + 1, f, g + 1)))
  {
    TagTail(s, c, e, f, g, h);
    NoTailBefore(AndTag, s, p + 1, c);
    LocateFirst(AndTag, s, i, p, c);
  }

  /** If '(' does not occur from i on, the first rule finds nothing. */
  lemma NoParenNoMatch(s: string, i: nat)
    requires i <= |s| && (forall m :: i <= m < |s| ==> s[m] != '(')
    ensures FirstMatch(AndParen, s, i).None?
  {
  }

  /** Without '{' from i on, neither pattern matches. */
  lemma NoBraceNoMatch(rule: Rule, s: string, i: nat)
    requires i <= |s| && (forall m :: i <= m < |s| ==> s[m] != '{')
    ensures FirstMatch(rule, s, i).None?
  {
  }

  /** Where neither rule acts, the pass copies one character and goes on. */
  lemma CopiedStep(s: string, i: nat)
    requires i < |s| && !Applies(AndParen, s, i) && !Applies(AndTag, s, i)
    ensures Run(s, i) == Output([s[i]] + Run(s, i + 1).text, Run(s, i + 1).modified)
  {
    var st := StepAt(s, i);
    assert st.kind == Copied && st.emit == [s[i]] && st.next == i + 1 && !st.rewrote;
  }

  /** A copied character in front of a copied rest: the text from i is copied. */
  lemma CopiedSlice(s: string, i: nat, here: Output, rest: Output)
    requires i < |s| && here == Output([s[i]] + rest.text, rest.modified)
    requires rest == Output(s[i + 1..], false)
    ensures here == Output(s[i..], false)
  {
    assert s[i..] == [s[i]] + s[i + 1..];
  }

  /** Text without '{' is copied as it is, and the pass reports no change. */
  lemma {:induction false} NoBraceCopied(s: string, i: nat)
    requires i <= |s| && (forall m :: i <= m < |s| ==> s[m] != '{')
    ensures Run(s, i) == Output(s[i..], false)
    decreases |s| - i
  {
    if i < |s| {
      NoBraceNoMatch(AndParen, s, i);
      NoBraceNoMatch(AndTag, s, i);
      CopiedStep(s, i);
      NoBraceCopied(s, i + 1);
      CopiedSlice(s, i, Run(s, i), Run(s, i + 1));
    }
  }

  /** The match of `pre + "{" + cond + ws1 + "&&" + ws2 + "("` laid out from i. */
  function ParenMatch(i: nat, pre: string, cond: string, ws1: string, ws2: string): Match
  {
    var f := i + |pre| + 1 + |cond| + |ws1| + 2 + |ws2| + 1;
    Match(i + |pre|, i + |pre| + 1 + |cond|, Tail(f, f, f))
  }

  /** Where `{cond && (` stands from i, with no '{' before it, the first rule matches it with
      exactly that condition. */
  lemma ParenHeadAt(s: string, i: nat, pre: string, cond: string, ws1: string, ws2: string)
    requires At(s, i, pre) && '{' !in pre
    requires At(s, i + |pre|, "{")
    requires At(s, i + |pre| + 1, cond) && PlainCondition(cond)
    requires At(s, i + |pre| + 1 + |cond|, ws1) && AllSpaces(ws1)
    requires At(s, i + |pre| + 1 + |cond| + |ws1|, "&&")
    requires At(s, i + |pre| + 1 + |cond| + |ws1| + 2, ws2) && AllSpaces(ws2)
    requires At(s, i + |pre| + 1 + |cond| + |ws1| + 2 + |ws2|, "(")
    ensures FirstMatch(AndParen, s, i) == Some(ParenMatch(i, pre, cond, ws1, ws2))
  {
    var p := i + |pre|;
    var c := p + 1 + |cond|;
    var e := c + |ws1|;
    var f := e + 2 + |ws2|;
    HeadFromPieces(s, i, pre, cond, ws1);
    AtSpaces(s, e + 2, ws2);
    AtIndex(s, f, "(");
    assert ParenMatch(i, pre, cond, ws1, ws2) == Match(p, c, Tail(f + 1, f + 1, f + 1));
    AndParenFound(s, i, p, c, e, f);
  }

  /** Just after the ')' that closes `body` in that layout. */
  function ParenBodyEnd(i: nat, pre: string, cond: string, ws1: string, ws2: string, body: string): nat
  {
    ParenMatch(i, pre, cond, ws1, ws2).tail.end + |body| + 1
  }

  /** Where `{cond && (` stands at i + |pre|, with no '{' in pre before it, the first rule
      matches it with exactly that condition. */
  lemma ParenHead(s: string, i: nat, pre: string, cond: string, ws1: string, ws2: string)
    requires At(s, i, pre + "{" + cond + ws1 + "&&" + ws2 + "(")
    requires '{' !in pre && PlainCondition(cond) && AllSpaces(ws1) && AllSpaces(ws2)
    ensures FirstMatch(AndParen, s, i) == Some(ParenMatch(i, pre, cond, ws1, ws2))
    ensures Condition(s, ParenMatch(i, pre, cond, ws1, ws2)) == cond
    ensures s[i..i + |pre|] == pre
  {
    ArrowPieces(s, i, pre, cond, ws1, ws2, "(");
    AtSlice(s, i, pre);
    AtSlice(s, i + |pre| + 1, cond);
    ParenHeadAt(s, i, pre, cond, ws1, ws2);
  }

  /** With `{cond && (` laid out at i + |pre| and no '?' in cond, the step at i is the first
      rule's at that match. */
  lemma ParenHeadStep(s: string, i: nat, pre: string, cond: string, ws1: string, ws2: string)
    requires At(s, i, pre + "{" + cond + ws1 + "&&" + ws2 + "(")
    requires '{' !in pre && PlainCondition(cond) && '?' !in cond && AllSpaces(ws1) && AllSpaces(ws2)
    requires i < |s|
    ensures StepAt(s, i) == ParenStep(s, i, ParenMatch(i, pre, cond, ws1, ws2))
  {
    ParenHead(s, i, pre, cond, ws1, ws2);
  }

  /** The text before a match and its condition, in that layout. */
  lemma HeadText(s: string, i: nat, pre: string, cond: string, ws1: string, ws2: string, open: string, m: Match)
    requires At(s, i, pre + "{" + cond + ws1 + "&&" + ws2 + open)
    requires m.start == i + |pre| && m.condEnd == i + |pre| + 1 + |cond|
    ensures s[i..m.start] == pre && Condition(s, m) == cond
  {
    ArrowPieces(s, i, pre, cond, ws1, ws2, open);
    AtSlice(s, i, pre);
    AtSlice(s, i + |pre| + 1, cond);
  }

  /** The pieces of `head + body + ")" + ws3` standing at i, by position. */
  lemma BodyPieces(s: string, i: nat, head: string, body: string, ws3: string, b: nat)
    requires At(s, i, head + body + ")" + ws3) && AllSpaces(ws3) && b == i + |head|
    ensures At(s, i, head)
    ensures b + |body| + 1 + |ws3| <= |s|
    ensures s[b..b + |body|] == body && s[b + |body|] == ')' && s[b..b + |body| + 1] == body + ")"
    ensures forall m :: b + |body| + 1 <= m < b + |body| + 1 + |ws3| ==> IsSpace(s[m])
    ensures s[b + |body| + 1..b + |body| + 1 + |ws3|] == ws3
  {
    var y1 := head + body;
    var y2 := y1 + ")";
    AtSplit(s, i, y2, ws3);
    AtSplit(s, i, y1, ")");
    AtSplit(s, i, head, body);
    AtSlice(s, b, body);
    AtIndex(s, b + |body|, ")");
    assert s[b..b + |body| + 1] == body + ")";
    AtSpaces(s, b + |body| + 1, ws3);
    AtSlice(s, b + |body| + 1, ws3);
  }

  /** A nested body at b followed by ')' and white space up to k: the body scan stops just
      after the ')', and the white space is skipped when something else follows it. */
  lemma BodyScan(s: string, b: nat, body: string, k: nat)
    requires b + |body| + 1 <= k <= |s|
    requires s[b..b + |body|] == body && s[b + |body|] == ')' && Nested(body)
    requires forall m :: b + |body| + 1 <= m < k ==> IsSpace(s[m])
    ensures ParenEnd(s, b, 1) == b + |body| + 1
    ensures k < |s| && !IsSpace(s[k]) ==> SkipSpaces(s, b + |body| + 1) == k
  {
    ParenEndNested(s, b, body, 1);
    if k < |s| && !IsSpace(s[k]) {
      SkipSpacesTo(s, b + |body| + 1, k);
    }
  }

  /** The first rule's step at m once its pieces are known: the text before the match, the
      condition, the scanned body with its ')', and the first character after the white
      space. */
  lemma ClosedStep(s: string, i: nat, m: Match, j: nat, k: nat, pre: string, cond: string, body: string)
    requires i <= m.start && m.start + 2 <= m.condEnd < m.tail.end <= |s|
    requires ParenEnd(s, m.tail.end, 1) == j && SkipSpaces(s, j) == k && k < |s| && s[k] == '}'
    requires s[i..m.start] == pre && Condition(s, m) == cond && s[m.tail.end..j] == body + ")"
    ensures ParenStep(s, i, m) == Step(pre + "{" + cond + " ? (" + body + ") : null}", k + 1, true, Closed)
  {
    assert ParenStep(s, i, m).emit == pre + ("{" + cond + " ? (") + (body + ")") + " : null}";
    ClosedText(pre, cond, body);
  }

  lemma UnclosedStep(s: string, i: nat, m: Match, j: nat, k: nat, pre: string, cond: string, body: string,
                     ws3: string, x: char)
    requires i <= m.start && m.start + 2 <= m.condEnd < m.tail.end <= |s|
    requires ParenEnd(s, m.tail.end, 1) == j && SkipSpaces(s, j) == k && k < |s| && s[k] == x && x != '}'
    requires s[i..m.start] == pre && Condition(s, m) == cond && s[m.tail.end..j] == body + ")"
    requires s[j..k] == ws3
    ensures ParenStep(s, i, m) == Step(pre + "{" + cond + " ? (" + body + ")" + ws3 + [x], k + 1, false, Unclosed)
  {
    assert Min(k + 1, |s|) == k + 1;
    SliceSnoc(s, j, k, ws3);
    assert ParenStep(s, i, m).emit == pre + ("{" + cond + " ? (") + (body + ")") + (ws3 + [x]);
    UnclosedText(pre, cond, body, ws3, x);
  }

  lemma SliceSnoc(s: string, j: nat, k: nat, t: string)
    requires j <= k < |s| && s[j..k] == t
    ensures s[j..k + 1] == t + [s[k]]
  {
  }

  /** The two ways the rewritten head of the first rule is put together. */
  lemma ClosedText(pre: string, cond: string, body: string)
    ensures pre + ("{" + cond + " ? (") + (body + ")") + " : null}" == pre + "{" + cond + " ? (" + body + ") : null}"
  {
  }

  lemma UnclosedText(pre: string, cond: string, body: string, ws3: string, x: char)
    ensures pre + ("{" + cond + " ? (") + (body + ")") + (ws3 + [x]) == pre + "{" + cond + " ? (" + body + ")" + ws3 + [x]
  {
  }

  /** `{cond && (body) }` with a nested body becomes `{cond ? (body) : null}`, the scan goes
      on after the '}', and the step counts as a change. */
  lemma RewritesClosedParen(s: string, i: nat, pre: string, cond: string, ws1: string, ws2: string,
                            body: string, ws3: string)
    requires At(s, i, pre + "{" + cond + ws1 + "&&" + ws2 + "(" + body + ")" + ws3 + "}")
    requires '{' !in pre && PlainCondition(cond) && '?' !in cond
    requires AllSpaces(ws1) && AllSpaces(ws2) && AllSpaces(ws3) && Nested(body)
    ensures StepAt(s, i) ==
            Step(pre + "{" + cond + " ? (" + body + ") : null}",
                 i + |pre + "{" + cond + ws1 + "&&" + ws2 + "(" + body + ")" + ws3 + "}"|, true, Closed)
  {
    var head := pre + "{" + cond + ws1 + "&&" + ws2 + "(";
    var y := head + body + ")" + ws3;
    AtSplit(s, i, y, "}");
    var m := ParenMatch(i, pre, cond, ws1, ws2);
    var b := m.tail.end;
    BodyPieces(s, i, head, body, ws3, b);
    var j := b + |body| + 1;
    var k := j + |ws3|;
    assert k == i + |y|;
    AtIndex(s, k, "}");
    BodyScan(s, b, body, k);
    HeadText(s, i, pre, cond, ws1, ws2, "(", m);
    ClosedStep(s, i, m, j, k, pre, cond, body);
    ParenHeadStep(s, i, pre, cond, ws1, ws2);
  }

  /** `{cond && (body)x` with a nested body and a character other than white space or '}'
      after the ')': the already emitted `{cond ? (` stays, the text up to and including x
      follows it unchanged, and the step does not count as a change. */
  lemma KeepsUnclosedParen(s: string, i: nat, pre: string, cond: string, ws1: string, ws2: string,
                           body: string, ws3: string, x: char)
    requires At(s, i, pre + "{" + cond + ws1 + "&&" + ws2 + "(" + body + ")" + ws3 + [x])
    requires '{' !in pre && PlainCondition(cond) && '?' !in cond
    requires AllSpaces(ws1) && AllSpaces(ws2) && AllSpaces(ws3) && Nested(body)
    requires x != '}' && !IsSpace(x)
    ensures StepAt(s, i) ==
            Step(pre + "{" + cond + " ? (" + body + ")" + ws3 + [x],
                 i + |pre + "{" + cond + ws1 + "&&" + ws2 + "(" + body + ")" + ws3 + [x]|, false, Unclosed)
  {
    var head := pre + "{" + cond + ws1 + "&&" + ws2 + "(";
    var y := head + body + ")" + ws3;
    AtSplit(s, i, y, [x]);
    var m := ParenMatch(i, pre, cond, ws1, ws2);
    var b := m.tail.end;
    BodyPieces(s, i, head, body, ws3, b);
    var j := b + |body| + 1;
    var k := j + |ws3|;
    assert k == i + |y|;
    AtIndex(s, k, [x]);
    BodyScan(s, b, body, k);
    HeadText(s, i, pre, cond, ws1, ws2, "(", m);
    UnclosedStep(s, i, m, j, k, pre, cond, body, ws3, x);
    ParenHeadStep(s, i, pre, cond, ws1, ws2);
  }

  // ---- the second rule ----

  /** The match of `pre + "{" + cond + ws1 + "&&" + ws2 + "<" + inner + ">" + ws3 + "}"` laid
      out from i. */
  function TagMatch(i: nat, pre: string, cond: string, ws1: string, ws2: string, inner: string, ws3: string): Match
  {
    var f := i + |pre| + 1 + |cond| + |ws1| + 2 + |ws2|;
    var g := f + 1 + |inner|;
    Match(i + |pre|, i + |pre| + 1 + |cond|, Tail(g + 1 + |ws3| + 1, f, g + 1))
  }

  /** The component `<inner>` and what follows it up to the '}', by position. */
  lemma TagTailPieces(s: string, i: nat, head: string, inner: string, ws3: string, g: nat)
    requires At(s, i, head + inner + ">" + ws3 + "}") && AllSpaces(ws3) && '>' !in inner
    requires g == i + |head| + |inner|
    ensures At(s, i, head) && g + 1 + |ws3| < |s|
    ensures s[i + |head|..g] == inner && (forall m :: i + |head| <= m < g ==> s[m] != '>') && s[g] == '>'
    ensures (forall m :: g < m < g + 1 + |ws3| ==> IsSpace(s[m])) && s[g + 1 + |ws3|] == '}'
  {
    var y1 := head + inner;
    var y2 := y1 + ">";
    var y3 := y2 + ws3;
    AtSplit(s, i, y3, "}");
    AtSplit(s, i, y2, ws3);
    AtSplit(s, i, y1, ">");
    AtSplit(s, i, head, inner);
    AtSlice(s, i + |head|, inner);
    AtIndex(s, i + |head|, inner);
    AtIndex(s, g, ">");
    AtSpaces(s, g + 1, ws3);
    AtIndex(s, i + |y3|, "}");
  }

  /** The head `{cond<ws>&& <ws><` of the second rule, by position. */
  lemma TagHeadPieces(s: string, i: nat, pre: string, cond: string, ws1: string, ws2: string)
    requires At(s, i, pre + "{" + cond + ws1 + "&&" + ws2 + "<")
    requires '{' !in pre && PlainCondition(cond) && AllSpaces(ws1) && AllSpaces(ws2)
    ensures var e := i + |pre| + 1 + |cond| + |ws1|;
            HeadAt(s, i, i + |pre|, i + |pre| + 1 + |cond|, e) &&
            (forall m :: e + 2 <= m < e + 2 + |ws2| ==> IsSpace(s[m])) && s[e + 2 + |ws2|] == '<'
  {
    ArrowPieces(s, i, pre, cond, ws1, ws2, "<");
    HeadFromPieces(s, i, pre, cond, ws1);
    AtSpaces(s, i + |pre| + 1 + |cond| + |ws1| + 2, ws2);
    AtIndex(s, i + |pre| + 1 + |cond| + |ws1| + 2 + |ws2|, "<");
  }

  lemma ComponentText(s: string, f: nat, g: nat, inner: string)
    requires f < g < |s| && s[f] == '<' && s[f + 1..g] == inner && s[g] == '>'
    ensures s[f..g + 1] == "<" + inner + ">"
  {
  }

  /** The second rule's step once its pieces are known. */
  lemma TagStepText(s: string, i: nat, m: Match, pre: string, cond: string, comp: string)
    requires i <= m.start && m.start + 2 <= m.condEnd <= m.tail.compStart <= m.tail.compEnd < m.tail.end <= |s|
    requires s[i..m.start] == pre && Condition(s, m) == cond && s[m.tail.compStart..m.tail.compEnd] == comp
    ensures TagStep(s, i, m) == Step(pre + "{" + cond + " ? " + comp + " : null}", m.tail.end, true, SingleLine)
  {
    assert pre + ("{" + cond + " ? " + comp + " : null}") == pre + "{" + cond + " ? " + comp + " : null}";
  }

  /** When the first rule finds nothing and the second finds m, the step is the second rule's. */
  lemma TagRuleStep(s: string, i: nat, m: Match)
    requires i < |s| && FirstMatch(AndParen, s, i).None? && FirstMatch(AndTag, s, i) == Some(m)
    requires '?' !in Condition(s, m)
    ensures StepAt(s, i) == TagStep(s, i, m)
  {
  }

  lemma TagText(pre: string, cond: string, inner: string)
    ensures pre + "{" + cond + " ? " + ("<" + inner + ">") + " : null}" == pre + "{" + cond + " ? <" + inner + "> : null}"
  {
  }

  /** The step of the second rule at the match of `{cond && <…>}` laid out from i. */
  lemma SingleLineText(s: string, i: nat, pre: string, cond: string, ws1: string, ws2: string,
                       inner: string, ws3: string)
    requires At(s, i, pre + "{" + cond + ws1 + "&&" + ws2 + "<" + inner + ">" + ws3 + "}")
    requires cond != [] && AllSpaces(ws3) && inner != [] && '>' !in inner
    ensures var m := TagMatch(i, pre, cond, ws1, ws2, inner, ws3);
            Condition(s, m) == cond &&
            TagStep(s, i, m) == Step(pre + "{" + cond + " ? <" + inner + "> : null}", m.tail.end, true, SingleLine)
  {
    var head := pre + "{" + cond + ws1 + "&&" + ws2 + "<";
    var m := TagMatch(i, pre, cond, ws1, ws2, inner, ws3);
    var f := m.tail.compStart;
    var g := m.tail.compEnd - 1;
    assert f + 1 == i + |head| && g == i + |head| + |inner|;
    TagTailPieces(s, i, head, inner, ws3, g);
    AtIndex(s, i, head);
    HeadText(s, i, pre, cond, ws1, ws2, "<", m);
    ComponentText(s, f, g, inner);
    TagStepText(s, i, m, pre, cond, "<" + inner + ">");
    TagText(pre, cond, inner);
  }

  /** `{cond && <…>}` laid out from i, with no '{' before it, is the second rule's first
      match from i. */
  lemma SingleLineMatch(s: string, i: nat, pre: string, cond: string, ws1: string, ws2: string,
                        inner: string, ws3: string)
    requires At(s, i, pre + "{" + cond + ws1 + "&&" + ws2 + "<" + inner + ">" + ws3 + "}")
    requires '{' !in pre && PlainCondition(cond)
    requires AllSpaces(ws1) && AllSpaces(ws2) && AllSpaces(ws3)
    requires inner != [] && '>' !in inner
    ensures FirstMatch(AndTag, s, i) == Some(TagMatch(i, pre, cond, ws1, ws2, inner, ws3))
  {
    var head := pre + "{" + cond + ws1 + "&&" + ws2 + "<";
    var m := TagMatch(i, pre, cond, ws1, ws2, inner, ws3);
    var e := i + |pre| + 1 + |cond| + |ws1|;
    var f := m.tail.compStart;
    var g := m.tail.compEnd - 1;
    var h := m.tail.end - 1;
    assert f == e + 2 + |ws2| && f + 1 == i + |head| && g == i + |head| + |inner| && h == g + 1 + |ws3|;
    TagTailPieces(s, i, head, inner, ws3, g);
    TagHeadPieces(s, i, pre, cond, ws1, ws2);
    AndTagFound(s, i, m.start, m.condEnd, e, f, g, h);
  }

  /** With no '(' left in the file, `{cond && <…>}` becomes `{cond ? <…> : null}` and the scan
      goes on after the '}'. */
  lemma RewritesSingleLine(s: string, i: nat, pre: string, cond: string, ws1: string, ws2: string,
                           inner: string, ws3: string)
    requires At(s, i, pre + "{" + cond + ws1 + "&&" + ws2 + "<" + inner + ">" + ws3 + "}")
    requires '{' !in pre && PlainCondition(cond) && '?' !in cond
    requires AllSpaces(ws1) && AllSpaces(ws2) && AllSpaces(ws3)
    requires inner != [] && '>' !in inner
    requires forall m :: i <= m < |s| ==> s[m] != '('
    ensures StepAt(s, i) ==
            Step(pre + "{" + cond + " ? <" + inner + "> : null}",
                 i + |pre + "{" + cond + ws1 + "&&" + ws2 + "<" + inner + ">" + ws3 + "}"|, true, SingleLine)
  {
    var m := TagMatch(i, pre, cond, ws1, ws2, inner, ws3);
    assert m.tail.end == i + |pre + "{" + cond + ws1 + "&&" + ws2 + "<" + inner + ">" + ws3 + "}"|;
    SingleLineText(s, i, pre, cond, ws1, ws2, inner, ws3);
    SingleLineMatch(s, i, pre, cond, ws1, ws2, inner, ws3);
    NoParenNoMatch(s, i);
    TagRuleStep(s, i, m);
  }

  // ---- conditions that are already ternaries ----

  /** The tail of either rule needs "&&" after white space only, so a condition group that
      lets it match at q runs past every '?' before the first '&'. */
  lemma TailPastQuestion(rule: Rule, s: string, q: nat, d: nat)
    requires q <= d < |s| && s[d] == '?' && (forall m :: q <= m < d ==> s[m] != '&')
    ensures TailAt(rule, s, q).None?
  {
    var e := SkipSpaces(s, q);
    assert e <= d;
    assert s[e] != '&';
  }

  /** A brace followed by a '?' before any '&' is never where a rule acts: the condition
      group must reach past that '?'. If a rule acts from i, its match starts after the
      brace. */
  lemma QuestionMarkSkipped(rule: Rule, s: string, i: nat, p: nat, d: nat)
    requires i <= p < d < |s| && s[p] == '{' && s[d] == '?'
    requires forall m :: i <= m < p ==> s[m] != '{'
    requires forall m :: p < m < d ==> s[m] != '&'
    ensures Applies(rule, s, i) ==> FirstMatch(rule, s, i).value.start > p
  {
    var r := FirstMatch(rule, s, i);
    if r.Some? && r.value.start <= p {
      assert r.value.start == p;
      QuestionInCondition(rule, s, r.value, d);
    }
  }

  /** A match whose brace comes before a '?' with no '&' in between holds that '?'. */
  lemma QuestionInCondition(rule: Rule, s: string, m: Match, d: nat)
    requires m.start + 1 <= m.condEnd <= |s| && TailAt(rule, s, m.condEnd) == Some(m.tail)
    requires m.start < d < |s| && s[d] == '?' && (forall k :: m.start < k < d ==> s[k] != '&')
    ensures '?' in Condition(s, m)
  {
    if m.condEnd <= d {
      TailPastQuestion(rule, s, m.condEnd, d);
    }
    assert Condition(s, m)[d - m.start - 1] == '?';
  }

  /** With no other '{' from i on, nothing starts after the brace, so the rule does not act. */
  lemma QuestionMarkNeitherRule(rule: Rule, s: string, i: nat, p: nat, d: nat)
    requires i <= p < d < |s| && s[p] == '{' && s[d] == '?'
    requires forall m :: p < m < d ==> s[m] != '&'
    requires forall m :: i <= m < |s| && m != p ==> s[m] != '{'
    ensures !Applies(rule, s, i)
  {
    QuestionMarkSkipped(rule, s, i, p, d);
    var r := FirstMatch(rule, s, i);
    if r.Some? {
      assert s[r.value.start] == '{';
    }
  }

  /** So the pass copies the character at i. */
  lemma QuestionMarkCopied(s: string, i: nat, p: nat, d: nat)
    requires i <= p < d < |s| && s[p] == '{' && s[d] == '?'
    requires forall m :: p < m < d ==> s[m] != '&'
    requires forall m :: i <= m < |s| && m != p ==> s[m] != '{'
    ensures Run(s, i) == Output([s[i]] + Run(s, i + 1).text, Run(s, i + 1).modified)
  {
    QuestionMarkNeitherRule(AndParen, s, i, p, d);
    QuestionMarkNeitherRule(AndTag, s, i, p, d);
    CopiedStep(s, i);
  }

  /** From i on, text whose only '{' is followed by a '?' before any '&' is copied as it is,
      and the pass reports no change. */
  lemma {:induction false} QuestionMarkKeepsText(s: string, i: nat, p: nat, d: nat)
    requires i <= p < d < |s| && s[p] == '{' && s[d] == '?'
    requires forall m :: p < m < d ==> s[m] != '&'
    requires forall m :: i <= m < |s| && m != p ==> s[m] != '{'
    ensures Run(s, i) == Output(s[i..], false)
    decreases p - i
  {
    QuestionMarkCopied(s, i, p, d);
    if i < p {
      QuestionMarkKeepsText(s, i + 1, p, d);
    } else {
      NoBraceCopied(s, i + 1);
    }
    CopiedSlice(s, i, Run(s, i), Run(s, i + 1));
  }

  // ---- whole files ----

  lemma DropConcat(x: string, rest: string)
    ensures (x + rest)[|x|..] == rest
  {
  }

  /** One step of the pass, unfolded. */
  lemma RunStep(s: string, i: nat)
    requires i < |s|
    ensures Run(s, i) == Output(StepAt(s, i).emit + Run(s, StepAt(s, i).next).text,
                                StepAt(s, i).rewrote || Run(s, StepAt(s, i).next).modified)
  {
  }

  /** A file that is `{cond && (body)}` between text without '{' is rewritten to
      `{cond ? (body) : null}` between the same text, and counts as changed. */
  lemma ClosedParenFile(s: string, out: string, pre: string, cond: string, ws1: string, ws2: string,
                        body: string, ws3: string, rest: string)
    requires '{' !in pre && PlainCondition(cond) && '?' !in cond && Nested(body) && '{' !in rest
    requires AllSpaces(ws1) && AllSpaces(ws2) && AllSpaces(ws3)
    requires s == pre + "{" + cond + ws1 + "&&" + ws2 + "(" + body + ")" + ws3 + "}" + rest
    requires out == pre + "{" + cond + " ? (" + body + ") : null}" + rest
    ensures Run(s, 0) == Output(out, true)
  {
    var x := pre + "{" + cond + ws1 + "&&" + ws2 + "(" + body + ")" + ws3 + "}";
    AtWhole(x, rest);
    DropConcat(x, rest);
    NoBraceCopied(s, |x|);
    RewritesClosedParen(s, 0, pre, cond, ws1, ws2, body, ws3);
    assert StepAt(s, 0).next == |x|;
    RunStep(s, 0);
  }

  /** Text without parentheses is trivially nested. */
  lemma {:induction false} NoParensBalance(t: string)
    requires '(' !in t && ')' !in t
    ensures BalanceOf(t) == 0
  {
    if t != [] {
      assert t[0] in t;
      assert forall c :: c in t[1..] ==> c in t;
      NoParensBalance(t[1..]);
    }
  }

  lemma NoParensNested(t: string)
    requires '(' !in t && ')' !in t
    ensures Nested(t)
  {
    NoParensBalance(t);
    forall m | 0 <= m <= |t| ensures BalanceOf(t[..m]) >= 0 {
      assert forall c :: c in t[..m] ==> c in t;
      NoParensBalance(t[..m]);
    }
  }

  lemma ClosedExampleInput()
    ensures "" + "{" + "open" + " " + "&&" + " " + "(" + "<Modal />" + ")" + "" + "}" + "" == "{open && (<Modal />)}"
  {
  }

  lemma ClosedExampleOutput()
    ensures "" + "{" + "open" + " ? (" + "<Modal />" + ") : null}" + "" == "{open ? (<Modal />) : null}"
  {
  }

  lemma OpenIsPlain()
    ensures PlainCondition("open") && '?' !in "open"
  {
  }

  /** A conditional modal. */
  lemma ClosedParenExample()
    ensures Run("{open && (<Modal />)}", 0) == Output("{open ? (<Modal />) : null}", true)
  {
    NoParensNested("<Modal />");
    ClosedExampleInput();
    ClosedExampleOutput();
    OpenIsPlain();
    ClosedParenFile("{open && (<Modal />)}", "{open ? (<Modal />) : null}", "", "open", " ", " ", "<Modal />", "", "");
  }

  // ---- an unclosed segment ----

  lemma AtSuffix(x: string, y: string)
    ensures At(x + y, |x|, y)
  {
  }

  lemma TakeConcat(x: string, y: string)
    ensures (x + y)[..|x|] == x && (x + y)[0..|x|] == x
  {
  }

  lemma AppendEmpty(x: string)
    ensures x + "" == x
  {
  }

  /** A file that is `{cond && (body)x` between text without '{', where x is neither white
      space nor '}', comes out with `{cond ? (body)x`, and the pass reports no change. */
  lemma UnclosedParenFile(s: string, out: string, pre: string, cond: string, ws1: string, ws2: string,
                          body: string, ws3: string, x: char, rest: string)
    requires '{' !in pre && PlainCondition(cond) && '?' !in cond && Nested(body) && '{' !in rest
    requires AllSpaces(ws1) && AllSpaces(ws2) && AllSpaces(ws3) && x != '}' && !IsSpace(x)
    requires s == pre + "{" + cond + ws1 + "&&" + ws2 + "(" + body + ")" + ws3 + [x] + rest
    requires out == pre + "{" + cond + " ? (" + body + ")" + ws3 + [x] + rest
    ensures Run(s, 0) == Output(out, false)
  {
    var u := pre + "{" + cond + ws1 + "&&" + ws2 + "(" + body + ")" + ws3 + [x];
    AtWhole(u, rest);
    DropConcat(u, rest);
    NoBraceCopied(s, |u|);
    KeepsUnclosedParen(s, 0, pre, cond, ws1, ws2, body, ws3, x);
    assert StepAt(s, 0).next == |u|;
    RunStep(s, 0);
  }

  /** The steps over an unclosed segment `u` followed by a closed one `v`. */
  lemma UnclosedThenClosedSteps(s: string, u: string, v: string, pre: string, c1: string, ws1: string,
                                ws2: string, b1: string, ws3: string, x: char, mid: string, c2: string,
                                ws4: string, ws5: string, b2: string, ws6: string)
    requires '{' !in pre && PlainCondition(c1) && '?' !in c1 && Nested(b1)
    requires AllSpaces(ws1) && AllSpaces(ws2) && AllSpaces(ws3) && x != '}' && !IsSpace(x)
    requires '{' !in mid && PlainCondition(c2) && '?' !in c2 && Nested(b2)
    requires AllSpaces(ws4) && AllSpaces(ws5) && AllSpaces(ws6)
    requires u == pre + "{" + c1 + ws1 + "&&" + ws2 + "(" + b1 + ")" + ws3 + [x]
    requires v == mid + "{" + c2 + ws4 + "&&" + ws5 + "(" + b2 + ")" + ws6 + "}"
    requires s == u + v
    ensures StepAt(s, 0) == Step(pre + "{" + c1 + " ? (" + b1 + ")" + ws3 + [x], |u|, false, Unclosed)
    ensures StepAt(s, |u|) == Step(mid + "{" + c2 + " ? (" + b2 + ") : null}", |s|, true, Closed)
    ensures s[0..|u|] == u
  {
    AtWhole(u, v);
    AtSuffix(u, v);
    TakeConcat(u, v);
    RewritesClosedParen(s, |u|, mid, c2, ws4, ws5, b2, ws6);
    KeepsUnclosedParen(s, 0, pre, c1, ws1, ws2, b1, ws3, x);
  }

  /** An unclosed segment `u` followed by a closed one: the pass as written keeps the
      half-rewritten `{c1 ? (b1)x` and, because the second segment sets the flag, the file is
      written with it; the reverting pass keeps `u` as it was. */
  lemma UnclosedThenClosedFile(s: string, u: string, v: string, e1: string, e2: string, pre: string,
                               c1: string, ws1: string, ws2: string, b1: string, ws3: string, x: char,
                               mid: string, c2: string, ws4: string, ws5: string, b2: string, ws6: string)
    requires '{' !in pre && PlainCondition(c1) && '?' !in c1 && Nested(b1)
    requires AllSpaces(ws1) && AllSpaces(ws2) && AllSpaces(ws3) && x != '}' && !IsSpace(x)
    requires '{' !in mid && PlainCondition(c2) && '?' !in c2 && Nested(b2)
    requires AllSpaces(ws4) && AllSpaces(ws5) && AllSpaces(ws6)
    requires u == pre + "{" + c1 + ws1 + "&&" + ws2 + "(" + b1 + ")" + ws3 + [x]
    requires v == mid + "{" + c2 + ws4 + "&&" + ws5 + "(" + b2 + ")" + ws6 + "}"
    requires e1 == pre + "{" + c1 + " ? (" + b1 + ")" + ws3 + [x]
    requires e2 == mid + "{" + c2 + " ? (" + b2 + ") : null}"
    requires s == u + v
    ensures Run(s, 0) == Output(e1 + e2, true)
    ensures RevertingRun(s, 0) == Output(u + e2, true)
  {
    AppendEmpty(e2);
    UnclosedThenClosedSteps(s, u, v, pre, c1, ws1, ws2, b1, ws3, x, mid, c2, ws4, ws5, b2, ws6);
    RunStep(s, |u|);
    RunStep(s, 0);
    assert RevertingRun(s, |u|) == Output(e2, true);
    assert RevertingRun(s, 0) == Output(u + e2, true);
  }

  lemma UnclosedExampleText()
    ensures "" + "{" + "a" + " " + "&&" + " " + "(" + "b" + ")" + "" + ['c'] + "}" == "{a && (b)c}"
    ensures "" + "{" + "a" + " ? (" + "b" + ")" + "" + ['c'] + "}" == "{a ? (b)c}"
  {
  }

  /** `{a && (b)c}` comes out as `{a ? (b)c}` with no change reported. */
  lemma UnclosedExample()
    ensures Run("{a && (b)c}", 0) == Output("{a ? (b)c}", false)
  {
    NoParensNested("b");
    UnclosedExampleText();
    UnclosedParenFile("{a && (b)c}", "{a ? (b)c}", "", "a", " ", " ", "b", "", 'c', "}");
  }

  lemma UnclosedThenClosedPieces()
    ensures "" + "{" + "a" + " " + "&&" + " " + "(" + "b" + ")" + "" + ['c'] == "{a && (b)c"
    ensures "}" + "{" + "d" + " " + "&&" + " " + "(" + "e" + ")" + "" + "}" == "}{d && (e)}"
    ensures "" + "{" + "a" + " ? (" + "b" + ")" + "" + ['c'] == "{a ? (b)c"
    ensures "}" + "{" + "d" + " ? (" + "e" + ") : null}" == "}{d ? (e) : null}"
  {
  }

  lemma UnclosedThenClosedJoinInput()
    ensures "{a && (b)c" + "}{d && (e)}" == "{a && (b)c}{d && (e)}"
  {
  }

  lemma UnclosedThenClosedJoinOutputs()
    ensures "{a ? (b)c" + "}{d ? (e) : null}" == "{a ? (b)c}{d ? (e) : null}"
    ensures "{a && (b)c" + "}{d ? (e) : null}" == "{a && (b)c}{d ? (e) : null}"
  {
  }

  /** `{a && (b)c}{d && (e)}`: the pass as written reports a change and its output, which
      differs from the input, carries the broken `{a ? (b)c}`; the reverting pass keeps it as
      `{a && (b)c}`. */
  lemma UnclosedThenClosedExample()
    ensures Run("{a && (b)c}{d && (e)}", 0) == Output("{a ? (b)c}{d ? (e) : null}", true)
    ensures "{a ? (b)c}{d ? (e) : null}" != "{a && (b)c}{d && (e)}"
    ensures RevertingRun("{a && (b)c}{d && (e)}", 0) == Output("{a && (b)c}{d ? (e) : null}", true)
  {
    NoParensNested("b");
    NoParensNested("e");
    UnclosedThenClosedPieces();
    UnclosedThenClosedJoinInput();
    UnclosedThenClosedJoinOutputs();
    assert "{a ? (b)c}{d ? (e) : null}"[3] != "{a && (b)c}{d && (e)}"[3];
    UnclosedThenClosedFile("{a && (b)c}{d && (e)}", "{a && (b)c", "}{d && (e)}", "{a ? (b)c", "}{d ? (e) : null}",
                           "", "a", " ", " ", "b", "", 'c', "}", "d", " ", " ", "e", "");
  }
}
