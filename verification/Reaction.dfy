/** One student reaction: what the schema keeps of a model reply, how an echo of
    the teacher is recognised, and how the understanding score is settled. */
module Reaction {
  import opened Wrappers
  import opened Text

  const AGREE_THRESHOLD := 80
  const UNDERSTANDING_MAX_RISE := 20
  const ECHO_MIN_CORE := 10
  const ECHO_MAX_TAIL := 5
  const SAME_ARTIFACT_MAX_CORE := 10

  /** The Korean regular expressions, left uninterpreted, and the echo judgement
      built from them: reaction, teacher's words, previous artifact, previous words. */
  datatype TextRules = TextRules(
    isSeparator: char -> bool,
    dropFiller: string -> string,
    isStuckSummary: string -> bool,
    isStuckOnly: (string, string) -> bool,
    echoes: (Stored, string, string, string) -> bool)

  /** The fields of a model reply before validation. */
  datatype RawReaction = RawReaction(
    action: string, utterance: string, artifact: string, misconception: string,
    ready: bool, understanding: int, onTask: bool)

  /** The JSON object kept on a student row. Rows older than the understanding
      field have none. */
  datatype Stored = Stored(
    action: string, utterance: string, artifact: string, misconception: string,
    ready: bool, understanding: Option<int>, onTask: bool)

  /** One finished model call. */
  datatype LlmResult = Parsed(raw: RawReaction) | Unparsed(text: string)

  function Min(a: int, b: int): int { if a <= b then a else b }

  // ---------------------------------------------------------------- schema

  function Clamp(v: int): int { if v < 0 then 0 else if v > 100 then 100 else v }

  function ValidatedScore(raw: RawReaction): (v: int)
    ensures 0 <= v <= 100
    ensures raw.misconception != "" ==> v < AGREE_THRESHOLD
  {
    if raw.misconception != "" then Min(Clamp(raw.understanding), 79) else Clamp(raw.understanding)
  }

  /** What the schema allows: 0 to 100, below 80 with a misconception. */
  predicate Allowed(raw: RawReaction, v: int) { 0 <= v <= 100 && (raw.misconception != "" ==> v < 80) }

  function Distance(a: int, b: int): nat { if a <= b then b - a else a - b }

  /** No allowed score is nearer to what the model said. */
  lemma ScoreIsNearest(raw: RawReaction, v: int)
    requires Allowed(raw, v)
    ensures Allowed(raw, ValidatedScore(raw))
    ensures Distance(ValidatedScore(raw), raw.understanding) <= Distance(v, raw.understanding)
  {
  }

  function ValidatedMisconception(rules: TextRules, raw: RawReaction): string {
    if rules.isStuckSummary(raw.misconception) || rules.isStuckOnly(raw.utterance, raw.artifact)
    then "" else raw.misconception
  }

  /** What `StudentReaction(...).model_dump()` returns. */
  function Validated(rules: TextRules, raw: RawReaction): Stored {
    Stored(raw.action, raw.utterance, raw.artifact, ValidatedMisconception(rules, raw),
           raw.ready, Some(ValidatedScore(raw)), raw.onTask)
  }

  /** The schema object; its validators rewrite its own fields. */
  class StudentReaction {
    const raw: RawReaction
    var understanding: int
    var misconception: string

    constructor (raw: RawReaction)
      ensures this.raw == raw && misconception == raw.misconception
      ensures understanding == Clamp(raw.understanding)
    {
      this.raw := raw;
      misconception := raw.misconception;
      understanding := if raw.understanding < 0 then 0 else if raw.understanding > 100 then 100 else raw.understanding;
    }

    method CapWithMisconception(rules: TextRules)
      requires understanding == Clamp(raw.understanding) && misconception == raw.misconception
      modifies this
      ensures Dump() == Validated(rules, raw)
    {
      if misconception != "" && understanding >= 80 {
        understanding := 79;
      }
      if rules.isStuckSummary(misconception) || rules.isStuckOnly(raw.utterance, raw.artifact) {
        misconception := "";
      }
    }

    function Dump(): Stored
      reads this
    {
      Stored(raw.action, raw.utterance, raw.artifact, misconception, raw.ready, Some(understanding), raw.onTask)
    }
  }

  /** Building the schema object from a reply runs both validators. */
  method Parse(rules: TextRules, raw: RawReaction) returns (s: Stored)
    ensures s == Validated(rules, raw)
  {
    var reaction := new StudentReaction(raw);
    reaction.CapWithMisconception(rules);
    s := reaction.Dump();
  }

  // ------------------------------------------------------------------ echo

  /** `_plain`: the text without separators. */
  function Plain(rules: TextRules, s: string): string {
    if s == "" then ""
    else if rules.isSeparator(s[0]) then Plain(rules, s[1..])
    else [s[0]] + Plain(rules, s[1..])
  }

  /** `_core`: without leading filler, separators and one final polite ending. */
  function Core(rules: TextRules, utterance: string): string {
    var core := Plain(rules, rules.dropFiller(utterance));
    if core != "" && core[|core| - 1] == '요' then core[..|core| - 1] else core
  }

  /** Exactly the separators go, the rest stays in order. */
  lemma {:induction false} PlainSplits(rules: TextRules, a: string, c: char, b: string)
    ensures Plain(rules, a + [c] + b) == Plain(rules, a) + (if rules.isSeparator(c) then [] else [c]) + Plain(rules, b)
  {
    var s := a + [c] + b;
    if a == "" {
      assert s == [c] + b && s[1..] == b;
    } else {
      assert s[1..] == a[1..] + [c] + b;
      PlainSplits(rules, a[1..], c, b);
    }
  }

  /** One polite ending goes, if there is one. */
  lemma CoreIs(rules: TextRules, utterance: string, stem: string)
    ensures var plain := Plain(rules, rules.dropFiller(utterance));
      && (plain == stem + ['요'] ==> Core(rules, utterance) == stem)
      && (Core(rules, utterance) == plain || plain == Core(rules, utterance) + ['요'])
  {
    var plain := Plain(rules, rules.dropFiller(utterance));
    if plain == stem + ['요'] {
      assert plain[..|plain| - 1] == stem;
    }
    if plain != "" {
      assert plain == plain[..|plain| - 1] + [plain[|plain| - 1]];
    }
  }

  datatype QuoteMark = QuoteMark(open: char, close: char, notAfterAlnum: bool)

  /** The four quotation patterns, tried one after the other. */
  const QUOTED: seq<QuoteMark> := [
    QuoteMark('\'', '\'', true),
    QuoteMark('"', '"', true),
    QuoteMark('‘', '’', false),
    QuoteMark('“', '”', false)
  ]

  predicate IsAlnum(c: char) { 'A' <= c <= 'Z' || 'a' <= c <= 'z' || '0' <= c <= '9' }

  /** The first closing mark at or after `i`, or the end of the text. */
  function NextClose(text: string, close: char, i: nat): (j: nat)
    requires i <= |text|
    ensures i <= j <= |text|
    ensures forall k | i <= k < j :: text[k] != close
    ensures j < |text| ==> text[j] == close
    decreases |text| - i
  {
    if i == |text| || text[i] == close then i else NextClose(text, close, i + 1)
  }

  predicate OpensAt(text: string, q: QuoteMark, i: nat)
    requires i < |text|
  {
    text[i] == q.open && (q.notAfterAlnum && i > 0 ==> !IsAlnum(text[i - 1]))
  }

  /** `findall` of one quotation pattern: leftmost, non-empty, non-overlapping. */
  function FindAll(text: string, q: QuoteMark, i: nat): seq<string>
    requires i <= |text|
    decreases |text| - i
  {
    if i == |text| then []
    else if OpensAt(text, q, i) then
      var j := NextClose(text, q.close, i + 1);
      if i + 1 < j < |text| then [text[i + 1..j]] + FindAll(text, q, j + 1)
      else FindAll(text, q, i + 1)
    else FindAll(text, q, i + 1)
  }

  /** Every quoted span of the teacher's words, pattern by pattern. */
  function QuotedSpans(text: string, marks: seq<QuoteMark>): seq<string> {
    if marks == [] then [] else FindAll(text, marks[0], 0) + QuotedSpans(text, marks[1..])
  }

  /** From position `i` on the text quotes `span`: an opening mark, the span, the first
      closing mark. */
  predicate Encloses(text: string, q: QuoteMark, i: nat, span: string) {
    && i + 1 + |span| < |text|
    && text[i] == q.open && (q.notAfterAlnum && i > 0 ==> !IsAlnum(text[i - 1]))
    && span != "" && text[i + 1..i + 1 + |span|] == span
    && q.close !in span && text[i + 1 + |span|] == q.close
  }

  /** Position `i` lies in one of the matches. */
  predicate Inside(starts: seq<nat>, spans: seq<string>, i: nat)
    requires |starts| == |spans|
  {
    exists k | 0 <= k < |starts| :: starts[k] <= i <= starts[k] + 1 + |spans[k]|
  }

  /** Every match is a quotation. */
  predicate AllEnclose(text: string, q: QuoteMark, from: nat, starts: seq<nat>, spans: seq<string>)
    requires |starts| == |spans|
  {
    forall k | 0 <= k < |starts| :: from <= starts[k] && Encloses(text, q, starts[k], spans[k])
  }

  /** Each one starts behind the closing mark of those before it. */
  predicate Disjoint(starts: seq<nat>, spans: seq<string>)
    requires |starts| == |spans|
  {
    forall j, k | 0 <= j < k < |starts| :: starts[j] + 1 + |spans[j]| < starts[k]
  }

  /** No quotation opens outside of them. */
  ghost predicate NoneOutside(text: string, q: QuoteMark, from: nat, starts: seq<nat>, spans: seq<string>)
    requires |starts| == |spans|
  {
    forall i: nat, span | from <= i && Encloses(text, q, i, span) :: Inside(starts, spans, i)
  }

  /** The matches of one pattern from `from` on: quotations one behind the other, and none
      that opens outside of them. */
  ghost predicate Finds(text: string, q: QuoteMark, from: nat, starts: seq<nat>, spans: seq<string>) {
    && |starts| == |spans|
    && AllEnclose(text, q, from, starts, spans)
    && Disjoint(starts, spans)
    && NoneOutside(text, q, from, starts, spans)
  }

  /** A quotation closes at the first closing mark. */
  lemma ClosesFirst(text: string, q: QuoteMark, i: nat, span: string)
    requires Encloses(text, q, i, span)
    ensures OpensAt(text, q, i) && NextClose(text, q.close, i + 1) == i + 1 + |span|
    ensures span == text[i + 1..NextClose(text, q.close, i + 1)]
  {
    forall k | i + 1 <= k < i + 1 + |span| ensures text[k] != q.close {
      assert text[i + 1..i + 1 + |span|][k - i - 1] == text[k];
      assert span[k - i - 1] in span;
    }
  }

  lemma InsideNext(start: nat, span: string, starts: seq<nat>, spans: seq<string>, i: nat)
    requires |starts| == |spans|
    ensures Inside([start] + starts, [span] + spans, i) <==> start <= i <= start + 1 + |span| || Inside(starts, spans, i)
  {
    var all, texts := [start] + starts, [span] + spans;
    if start <= i <= start + 1 + |span| {
      assert all[0] <= i <= all[0] + 1 + |texts[0]|;
    }
    if k :| 0 <= k < |starts| && starts[k] <= i <= starts[k] + 1 + |spans[k]| {
      assert all[k + 1] <= i <= all[k + 1] + 1 + |texts[k + 1]|;
    }
    if k :| 0 <= k < |all| && all[k] <= i <= all[k] + 1 + |texts[k]| {
      assert k > 0 ==> starts[k - 1] <= i <= starts[k - 1] + 1 + |spans[k - 1]|;
    }
  }

  /** One match more in front. */
  lemma FindsNext(text: string, q: QuoteMark, i: nat, span: string, starts: seq<nat>, spans: seq<string>)
    requires Encloses(text, q, i, span) && Finds(text, q, i + 2 + |span|, starts, spans)
    ensures Finds(text, q, i, [i] + starts, [span] + spans)
  {
    FrontEncloses(text, q, i, span, starts, spans);
    FrontDisjoint(text, q, i, span, starts, spans);
    assert NoneOutside(text, q, i, [i] + starts, [span] + spans) by {
      forall x: nat, y | i <= x && Encloses(text, q, x, y) ensures Inside([i] + starts, [span] + spans, x) {
        InsideNext(i, span, starts, spans, x);
      }
    }
  }

  lemma FrontEncloses(text: string, q: QuoteMark, i: nat, span: string, starts: seq<nat>, spans: seq<string>)
    requires |starts| == |spans| && Encloses(text, q, i, span) && AllEnclose(text, q, i + 2 + |span|, starts, spans)
    ensures AllEnclose(text, q, i, [i] + starts, [span] + spans)
  {
    var all, texts := [i] + starts, [span] + spans;
    forall k | 0 <= k < |all| ensures i <= all[k] && Encloses(text, q, all[k], texts[k]) {
      assert k > 0 ==> all[k] == starts[k - 1] && texts[k] == spans[k - 1];
    }
  }

  lemma FrontDisjoint(text: string, q: QuoteMark, i: nat, span: string, starts: seq<nat>, spans: seq<string>)
    requires |starts| == |spans| && Disjoint(starts, spans) && AllEnclose(text, q, i + 2 + |span|, starts, spans)
    ensures Disjoint([i] + starts, [span] + spans)
  {
    var all, texts := [i] + starts, [span] + spans;
    forall j, k | 0 <= j < k < |all| ensures all[j] + 1 + |texts[j]| < all[k] {
      assert all[k] == starts[k - 1];
      assert j > 0 ==> all[j] == starts[j - 1] && texts[j] == spans[j - 1];
    }
  }

  /** Nothing opens here. */
  lemma FindsSkip(text: string, q: QuoteMark, i: nat, starts: seq<nat>, spans: seq<string>)
    requires Finds(text, q, i + 1, starts, spans) && forall span :: !Encloses(text, q, i, span)
    ensures Finds(text, q, i, starts, spans)
  {
    forall x: nat, y | i <= x && Encloses(text, q, x, y) ensures Inside(starts, spans, x) {
      assert x != i;
    }
  }

  /** The search finds these matches, in every text. */
  lemma {:induction false} FindAllFinds(text: string, q: QuoteMark, i: nat) returns (starts: seq<nat>)
    requires i <= |text|
    ensures Finds(text, q, i, starts, FindAll(text, q, i))
    decreases |text| - i
  {
    if i == |text| {
      starts := [];
      return;
    }
    var j := NextClose(text, q.close, i + 1);
    if OpensAt(text, q, i) && i + 1 < j < |text| {
      starts := FindAllFinds(text, q, j + 1);
      FindsNext(text, q, i, text[i + 1..j], starts, FindAll(text, q, j + 1));
      starts := [i] + starts;
    } else {
      starts := FindAllFinds(text, q, i + 1);
      forall span ensures !Encloses(text, q, i, span) {
        if Encloses(text, q, i, span) {
          ClosesFirst(text, q, i, span);
        }
      }
      FindsSkip(text, q, i, starts, FindAll(text, q, i + 1));
    }
  }

  lemma FindsTail(text: string, q: QuoteMark, from: nat, starts: seq<nat>, spans: seq<string>)
    requires Finds(text, q, from, starts, spans) && starts != []
    ensures Finds(text, q, starts[0] + 2 + |spans[0]|, starts[1..], spans[1..])
  {
    var to := starts[0] + 2 + |spans[0]|;
    TailEncloses(text, q, from, starts, spans);
    assert NoneOutside(text, q, to, starts[1..], spans[1..]) by {
      TailOutside(text, q, from, starts, spans);
    }
  }

  lemma TailOutside(text: string, q: QuoteMark, from: nat, starts: seq<nat>, spans: seq<string>)
    requires |starts| == |spans| && starts != [] && NoneOutside(text, q, from, starts, spans) && from <= starts[0]
    ensures NoneOutside(text, q, starts[0] + 2 + |spans[0]|, starts[1..], spans[1..])
  {
    forall x: nat, y | starts[0] + 2 + |spans[0]| <= x && Encloses(text, q, x, y)
      ensures Inside(starts[1..], spans[1..], x)
    {
      assert Inside(starts, spans, x);
      assert starts == [starts[0]] + starts[1..] && spans == [spans[0]] + spans[1..];
      InsideNext(starts[0], spans[0], starts[1..], spans[1..], x);
    }
  }

  lemma TailEncloses(text: string, q: QuoteMark, from: nat, starts: seq<nat>, spans: seq<string>)
    requires |starts| == |spans| && starts != [] && AllEnclose(text, q, from, starts, spans) && Disjoint(starts, spans)
    ensures AllEnclose(text, q, starts[0] + 2 + |spans[0]|, starts[1..], spans[1..]) && Disjoint(starts[1..], spans[1..])
    ensures from <= starts[0]
  {
    forall k | 0 <= k < |starts| - 1 ensures starts[1..][k] == starts[k + 1] && spans[1..][k] == spans[k + 1] {
    }
  }

  /** No match starts before the first match of another list. */
  lemma NotBefore(text: string, q: QuoteMark, from: nat, a: seq<nat>, x: seq<string>, b: seq<nat>, y: seq<string>)
    requires Finds(text, q, from, a, x) && Finds(text, q, from, b, y) && a != []
    ensures b != [] && b[0] <= a[0]
  {
    assert Encloses(text, q, a[0], x[0]);
    var k :| 0 <= k < |b| && b[k] <= a[0] <= b[k] + 1 + |y[k]|;
    assert k > 0 ==> b[0] + 1 + |y[0]| < b[k];
  }

  lemma SameFirst(text: string, q: QuoteMark, from: nat, a: seq<nat>, x: seq<string>, b: seq<nat>, y: seq<string>)
    requires Finds(text, q, from, a, x) && Finds(text, q, from, b, y) && a != []
    ensures b != [] && a[0] == b[0] && x[0] == y[0]
  {
    NotBefore(text, q, from, a, x, b, y);
    NotBefore(text, q, from, b, y, a, x);
    SameSpan(text, q, a[0], x[0], y[0]);
  }

  /** And there is only one such list of matches. */
  lemma {:induction false} FindsOnce(text: string, q: QuoteMark, from: nat, a: seq<nat>, x: seq<string>, b: seq<nat>, y: seq<string>)
    requires Finds(text, q, from, a, x) && Finds(text, q, from, b, y)
    ensures a == b && x == y
    decreases |a|
  {
    if a == [] {
      if b != [] {
        SameFirst(text, q, from, b, y, a, x);
      }
    } else {
      SameFirst(text, q, from, a, x, b, y);
      FindsTail(text, q, from, a, x);
      FindsTail(text, q, from, b, y);
      FindsOnce(text, q, a[0] + 2 + |x[0]|, a[1..], x[1..], b[1..], y[1..]);
      SameHeads(a, b);
      SameHeads(x, y);
    }
  }

  lemma SameHeads<T>(a: seq<T>, b: seq<T>)
    requires a != [] && b != [] && a[0] == b[0] && a[1..] == b[1..]
    ensures a == b
  {
    assert a == [a[0]] + a[1..] && b == [b[0]] + b[1..];
  }

  /** The marks of the source: two straight ones that a letter or digit before them keeps
      from opening, and two pairs of curly ones. */
  predicate SourceMark(q: QuoteMark) {
    || (q.open == q.close == '\'' && q.notAfterAlnum)
    || (q.open == q.close == '"' && q.notAfterAlnum)
    || (q.open == '‘' && q.close == '’' && !q.notAfterAlnum)
    || (q.open == '“' && q.close == '”' && !q.notAfterAlnum)
  }

  /** The span is one of the matches of one of the marks. */
  ghost predicate QuotedIn(text: string, span: string) {
    exists q, starts, spans :: SourceMark(q) && Finds(text, q, 0, starts, spans) && span in spans
  }

  lemma {:induction false} SpansOfMarks(text: string, marks: seq<QuoteMark>, span: string)
    ensures span in QuotedSpans(text, marks) <==> exists q :: q in marks && span in FindAll(text, q, 0)
  {
    if marks != [] {
      SpansOfMarks(text, marks[1..], span);
      if span in FindAll(text, marks[0], 0) {
        assert marks[0] in marks;
      }
      if q :| q in marks[1..] && span in FindAll(text, q, 0) {
        assert q in marks;
      }
      if q :| q in marks && span in FindAll(text, q, 0) {
        assert q == marks[0] || q in marks[1..];
      }
    }
  }

  lemma MarksAre(q: QuoteMark)
    ensures q in QUOTED <==> SourceMark(q)
  {
    var marks := [QuoteMark('\'', '\'', true), QuoteMark('"', '"', true), QuoteMark('‘', '’', false), QuoteMark('“', '”', false)];
    assert QUOTED == marks;
    assert q == QuoteMark(q.open, q.close, q.notAfterAlnum);
    assert SourceMark(q) <==> q == marks[0] || q == marks[1] || q == marks[2] || q == marks[3];
    assert q in marks <==> q == marks[0] || q == marks[1] || q == marks[2] || q == marks[3];
  }

  /** The searches of all patterns give exactly the quoted spans. */
  lemma SpansAreQuoted(text: string, span: string)
    ensures span in QuotedSpans(text, QUOTED) <==> QuotedIn(text, span)
  {
    SpansOfMarks(text, QUOTED, span);
    if q :| q in QUOTED && span in FindAll(text, q, 0) {
      MarksAre(q);
      var starts := FindAllFinds(text, q, 0);
      assert Finds(text, q, 0, starts, FindAll(text, q, 0));
    }
    if QuotedIn(text, span) {
      var q, starts, spans :| SourceMark(q) && Finds(text, q, 0, starts, spans) && span in spans;
      MarksAre(q);
      var found := FindAllFinds(text, q, 0);
      FindsOnce(text, q, 0, starts, spans, found, FindAll(text, q, 0));
    }
  }

  /** A quotation in one of the marks is found unless an earlier one reaches into it. */
  lemma QuotationFound(text: string, q: QuoteMark, i: nat, span: string)
    requires SourceMark(q) && Encloses(text, q, i, span)
    requires forall j: nat, other | j < i && Encloses(text, q, j, other) :: j + 1 + |other| < i
    ensures QuotedIn(text, span)
  {
    var starts := FindAllFinds(text, q, 0);
    var spans := FindAll(text, q, 0);
    FoundAt(text, q, i, span, starts, spans);
  }

  lemma SameSpan(text: string, q: QuoteMark, i: nat, a: string, b: string)
    requires Encloses(text, q, i, a) && Encloses(text, q, i, b)
    ensures a == b
  {
    ClosesFirst(text, q, i, a);
    ClosesFirst(text, q, i, b);
  }

  lemma FoundAt(text: string, q: QuoteMark, i: nat, span: string, starts: seq<nat>, spans: seq<string>)
    requires Finds(text, q, 0, starts, spans) && Encloses(text, q, i, span)
    requires forall j: nat, other | j < i && Encloses(text, q, j, other) :: j + 1 + |other| < i
    ensures span in spans
  {
    assert Inside(starts, spans, i);
    var k :| 0 <= k < |starts| && starts[k] <= i <= starts[k] + 1 + |spans[k]|;
    assert Encloses(text, q, starts[k], spans[k]);
    assert starts[k] == i;
    SameSpan(text, q, i, span, spans[k]);
  }

  /** `a` and `b` share the block of length `n` that starts at `i` and at `j`. */
  ghost predicate SharesAt(a: string, b: string, i: nat, j: nat, n: nat) {
    i + n <= |a| && j + n <= |b| && a[i..i + n] == b[j..j + n]
  }

  ghost predicate Shares(a: string, b: string, n: nat) {
    exists i: nat, j: nat :: SharesAt(a, b, i, j, n)
  }

  /** Length of the longest common suffix of `a[..i]` and `b[..j]`. */
  function Tail(a: string, b: string, i: nat, j: nat): (n: nat)
    requires i <= |a| && j <= |b|
    ensures n <= i && n <= j
  {
    if i == 0 || j == 0 || a[i - 1] != b[j - 1] then 0 else Tail(a, b, i - 1, j - 1) + 1
  }

  /** One character more. */
  lemma SharesLonger(a: string, b: string, i: nat, j: nat, n: nat)
    requires SharesAt(a, b, i, j, n) && i + n < |a| && j + n < |b| && a[i + n] == b[j + n]
    ensures SharesAt(a, b, i, j, n + 1)
  {
    assert a[i..i + n + 1] == a[i..i + n] + [a[i + n]];
    assert b[j..j + n + 1] == b[j..j + n] + [b[j + n]];
  }

  lemma TailIsShared(a: string, b: string, i: nat, j: nat)
    requires i <= |a| && j <= |b|
    ensures var n := Tail(a, b, i, j); SharesAt(a, b, i - n, j - n, n)
  {
    if i > 0 && j > 0 && a[i - 1] == b[j - 1] {
      TailIsShared(a, b, i - 1, j - 1);
      var n := Tail(a, b, i - 1, j - 1);
      SharesLonger(a, b, i - 1 - n, j - 1 - n, n);
    }
  }

  lemma TailIsLongest(a: string, b: string, i: nat, j: nat, n: nat)
    requires SharesAt(a, b, i, j, n)
    ensures n <= Tail(a, b, i + n, j + n)
  {
    if n > 0 {
      assert a[i..i + n][n - 1] == b[j..j + n][n - 1];
      assert a[i..i + n][..n - 1] == a[i..i + n - 1];
      assert b[j..j + n][..n - 1] == b[j..j + n - 1];
      TailIsLongest(a, b, i, j, n - 1);
    }
  }

  /** No suffix pair that ends in the first `i` positions of `a` is longer than `best`. */
  ghost predicate Covers(a: string, b: string, i: nat, best: nat)
    requires i <= |a|
  {
    forall x: nat, y: nat | x <= i && y <= |b| :: Tail(a, b, x, y) <= best
  }

  /** One row of common suffix lengths from the row above it. */
  method NextRow(a: string, b: string, i: nat, row: seq<nat>, best0: nat) returns (next: seq<nat>, best: nat)
    requires i < |a| && |row| == |b| + 1
    requires forall j | 0 <= j <= |b| :: row[j] == Tail(a, b, i, j)
    requires Shares(a, b, best0)
    ensures |next| == |b| + 1
    ensures forall j | 0 <= j <= |b| :: next[j] == Tail(a, b, i + 1, j)
    ensures best0 <= best && Shares(a, b, best)
    ensures forall j | 0 <= j <= |b| :: next[j] <= best
  {
    next, best := [0], best0;
    for j := 0 to |b|
      invariant |next| == j + 1
      invariant forall y | 0 <= y <= j :: next[y] == Tail(a, b, i + 1, y)
      invariant best0 <= best && Shares(a, b, best)
      invariant forall y | 0 <= y <= j :: next[y] <= best
    {
      var k := if a[i] == b[j] then row[j] + 1 else 0;
      assert k == Tail(a, b, i + 1, j + 1);
      next := next + [k];
      if k > best {
        best := k;
        TailIsShared(a, b, i + 1, j + 1);
      }
    }
  }

  /** `find_longest_match(...).size`: one row of common suffix lengths after the
      other, keeping the largest. */
  method LongestCommonBlock(a: string, b: string) returns (best: nat)
    ensures Shares(a, b, best)
    ensures forall n: nat | Shares(a, b, n) :: n <= best
  {
    best := 0;
    assert SharesAt(a, b, 0, 0, 0);
    var row := seq(|b| + 1, _ => 0);
    for i := 0 to |a|
      invariant |row| == |b| + 1
      invariant forall j | 0 <= j <= |b| :: row[j] == Tail(a, b, i, j)
      invariant Shares(a, b, best)
      invariant Covers(a, b, i, best)
    {
      row, best := NextRow(a, b, i, row, best);
    }
    forall n: nat | Shares(a, b, n)
      ensures n <= best
    {
      var i: nat, j: nat :| SharesAt(a, b, i, j, n);
      TailIsLongest(a, b, i, j, n);
    }
  }

  /** One quoted span is followed: it is long enough and all but a short rest of
      the utterance core is a block of it. */
  ghost predicate Follows(core: string, span: string) {
    |span| >= ECHO_MIN_CORE
    && exists n: nat :: n >= ECHO_MIN_CORE && |core| - n <= ECHO_MAX_TAIL && Shares(core, span, n)
  }

  /** Ten characters in a row of a span of ten or more, and at most five besides. */
  lemma FollowsIs(core: string, span: string)
    ensures Follows(core, span) <==>
            |span| >= 10 && exists i: nat, j: nat, n: nat :: SharesAt(core, span, i, j, n) && n >= 10 && |core| <= n + 5
  {
    if Follows(core, span) {
      var n: nat :| n >= 10 && |core| - n <= 5 && Shares(core, span, n);
      var i: nat, j: nat :| SharesAt(core, span, i, j, n);
    }
    if |span| >= 10 {
      if i: nat, j: nat, n: nat :| SharesAt(core, span, i, j, n) && n >= 10 && |core| <= n + 5 {
        assert Shares(core, span, n);
      }
    }
  }

  ghost predicate QuotedEcho(rules: TextRules, core: string, teacher: string) {
    exists span :: QuotedIn(teacher, span) && Follows(core, Core(rules, span))
  }

  /** One of the spans that these patterns find is followed. */
  ghost predicate FoundEcho(rules: TextRules, core: string, teacher: string, marks: seq<QuoteMark>) {
    exists span | span in QuotedSpans(teacher, marks) :: Follows(core, Core(rules, span))
  }

  lemma FoundIsQuoted(rules: TextRules, core: string, teacher: string)
    ensures FoundEcho(rules, core, teacher, QUOTED) <==> QuotedEcho(rules, core, teacher)
  {
    forall span ensures span in QuotedSpans(teacher, QUOTED) <==> QuotedIn(teacher, span) {
      SpansAreQuoted(teacher, span);
    }
  }

  /** Each span of one pattern, tested with the longest block only. */
  method SearchPattern(rules: TextRules, core: string, spans: seq<string>) returns (echo: bool)
    ensures echo <==> exists span | span in spans :: Follows(core, Core(rules, span))
  {
    for s := 0 to |spans|
      invariant forall k | 0 <= k < s :: !Follows(core, Core(rules, spans[k]))
    {
      var span := Core(rules, spans[s]);
      if |span| < ECHO_MIN_CORE {
        continue;
      }
      var common := LongestCommonBlock(core, span);
      if common >= ECHO_MIN_CORE && |core| - common <= ECHO_MAX_TAIL {
        assert Follows(core, span);
        return true;
      }
    }
    return false;
  }

  /** Pattern after pattern. */
  method SearchSpans(rules: TextRules, core: string, teacher: string) returns (echo: bool)
    ensures echo <==> FoundEcho(rules, core, teacher, QUOTED)
  {
    var q := 0;
    assert QUOTED[0..] == QUOTED;
    while q < |QUOTED|
      invariant 0 <= q <= |QUOTED|
      invariant FoundEcho(rules, core, teacher, QUOTED) <==> FoundEcho(rules, core, teacher, QUOTED[q..])
    {
      var spans := FindAll(teacher, QUOTED[q], 0);
      assert QUOTED[q..][1..] == QUOTED[q + 1..];
      var found := SearchPattern(rules, core, spans);
      if found {
        return true;
      }
      q := q + 1;
    }
    return false;
  }

  /** `_quoted_echo`. */
  method DetectQuotedEcho(rules: TextRules, core: string, teacher: string) returns (echo: bool)
    ensures echo <==> QuotedEcho(rules, core, teacher)
  {
    FoundIsQuoted(rules, core, teacher);
    echo := SearchSpans(rules, core, teacher);
  }

  lemma WholeFollows(core: string, span: string)
    requires |span| >= ECHO_MIN_CORE && Contains(core, span) && |core| - |span| <= ECHO_MAX_TAIL
    ensures Follows(core, span)
  {
    ContainsMeaning(core, span);
    var i :| At(core, i, span);
    assert core[i..i + |span|] == span[0..0 + |span|];
    assert SharesAt(core, span, i, 0, |span|);
    assert Shares(core, span, |span|);
  }

  /** A whole quoted span inside the core with a short rest is an echo: the case
      the rule was first written for. */
  lemma WholeSpanIsEcho(rules: TextRules, core: string, teacher: string, span: string)
    requires QuotedIn(teacher, span)
    requires |Core(rules, span)| >= ECHO_MIN_CORE
    requires Contains(core, Core(rules, span))
    requires |core| - |Core(rules, span)| <= ECHO_MAX_TAIL
    ensures QuotedEcho(rules, core, teacher)
  {
    WholeFollows(core, Core(rules, span));
  }

  /** The four ways of repeating that hold the score down. */
  ghost predicate Echoes(rules: TextRules, s: Stored, teacher: string, previousArtifact: string, previousUtterance: string) {
    var core := Core(rules, s.utterance);
    var artifact := Strip(s.artifact);
    || (|core| >= ECHO_MIN_CORE && Contains(Plain(rules, teacher), core))
    || QuotedEcho(rules, core, teacher)
    || (artifact != "" && artifact == Strip(previousArtifact) && |core| <= SAME_ARTIFACT_MAX_CORE)
    || (|core| >= ECHO_MIN_CORE && Contains(Core(rules, previousUtterance), core)
        && (artifact == "" || artifact == Strip(previousArtifact)))
  }

  /** The condition of the source, with the loops of `_quoted_echo`. */
  method DetectEcho(rules: TextRules, s: Stored, teacher: string, previousArtifact: string, previousUtterance: string)
    returns (echo: bool)
    ensures echo == Echoes(rules, s, teacher, previousArtifact, previousUtterance)
  {
    var core := Core(rules, s.utterance);
    var artifact := Strip(s.artifact);
    var quoted := DetectQuotedEcho(rules, core, teacher);
    echo :=
      || (|core| >= ECHO_MIN_CORE && Contains(Plain(rules, teacher), core))
      || quoted
      || (artifact != "" && artifact == Strip(previousArtifact) && |core| <= SAME_ARTIFACT_MAX_CORE)
      || (|core| >= ECHO_MIN_CORE && Contains(Core(rules, previousUtterance), core)
          && (artifact == "" || artifact == Strip(previousArtifact)));
  }

  /** Saying one's own last words again is an echo, whatever was asked. */
  lemma RepeatIsEcho(rules: TextRules, s: Stored, teacher: string, previousArtifact: string)
    requires |Core(rules, s.utterance)| >= 10 && Strip(s.artifact) == ""
    ensures Echoes(rules, s, teacher, previousArtifact, s.utterance)
  {
    assert At(Core(rules, s.utterance), 0, Core(rules, s.utterance));
  }

  /** So is saying any part of the question, with or without an artifact. */
  lemma PartOfQuestionIsEcho(rules: TextRules, s: Stored, before: string, after: string, teacher: string, previousArtifact: string, previousUtterance: string)
    requires |Core(rules, s.utterance)| >= 10
    requires Plain(rules, teacher) == before + Core(rules, s.utterance) + after
    ensures Echoes(rules, s, teacher, previousArtifact, previousUtterance)
  {
    var core := Core(rules, s.utterance);
    ContainsMeaning(Plain(rules, teacher), core);
    assert At(Plain(rules, teacher), |before|, core);
  }

  /** And showing the old artifact once more with ten characters or fewer. */
  lemma SameArtifactIsEcho(rules: TextRules, s: Stored, teacher: string, previousArtifact: string, previousUtterance: string)
    requires Strip(s.artifact) != "" && Strip(s.artifact) == Strip(previousArtifact)
    ensures |Core(rules, s.utterance)| <= 10 ==> Echoes(rules, s, teacher, previousArtifact, previousUtterance)
  {
  }

  /** A new artifact is no echo of the student, and few words are none of anybody. */
  lemma ShortIsNoEcho(rules: TextRules, s: Stored, teacher: string, previousArtifact: string, previousUtterance: string)
    requires |Core(rules, s.utterance)| < 10
    requires Strip(s.artifact) == "" || Strip(s.artifact) != Strip(previousArtifact)
    ensures !Echoes(rules, s, teacher, previousArtifact, previousUtterance)
  {
    var core := Core(rules, s.utterance);
    forall span ensures !Follows(core, span) {
      forall n: nat | Shares(core, span, n) ensures n <= |core| {
      }
    }
  }

  // ----------------------------------------------------------- settled score

  /** What a reaction is judged against: whether it is the first of the scene, the
      student's previous valid reaction and the words that asked for it. */
  datatype Context = Context(
    first: bool, previous: Option<int>, teacher: string,
    previousArtifact: string, previousUtterance: string)

  predicate EchoesContext(rules: TextRules, s: Stored, c: Context) {
    rules.echoes(s, c.teacher, c.previousArtifact, c.previousUtterance)
  }

  /** The judgement the rules carry is the source's. */
  ghost predicate JudgesEchoes(rules: TextRules) {
    forall s, teacher, artifact, words ::
      rules.echoes(s, teacher, artifact, words) == Echoes(rules, s, teacher, artifact, words)
  }

  /** The same expressions, with the source's judgement made of them. */
  ghost function Judged(rules: TextRules): TextRules {
    rules.(echoes := (s, teacher, artifact, words) => Echoes(rules, s, teacher, artifact, words))
  }

  lemma {:induction false} PlainJudged(rules: TextRules, s: string)
    ensures Plain(Judged(rules), s) == Plain(rules, s)
  {
    if s != "" {
      PlainJudged(rules, s[1..]);
    }
  }

  /** Whatever the expressions are, there are rules that carry the source's judgement. */
  lemma JudgedJudges(rules: TextRules)
    ensures JudgesEchoes(Judged(rules))
  {
    forall s ensures Core(Judged(rules), s) == Core(rules, s) {
      PlainJudged(rules, rules.dropFiller(s));
    }
    forall s, teacher, artifact, words
      ensures Echoes(Judged(rules), s, teacher, artifact, words) == Echoes(rules, s, teacher, artifact, words)
    {
      PlainJudged(rules, teacher);
    }
  }

  /** The score that holds before any ceiling. */
  function Base(s: Stored, previous: Option<int>): int
    requires s.understanding.Some?
  {
    if !s.onTask && previous.Some? && s.misconception == "" then previous.value else s.understanding.value
  }

  /** The lowest of the ceilings that apply. */
  function Ceiling(previous: Option<int>, echo: bool, first: bool): int {
    var rise := if previous.Some? then previous.value + UNDERSTANDING_MAX_RISE else 100;
    var hold := if previous.Some? && echo then previous.value else 100;
    var entry := if first then 79 else 100;
    Min(rise, Min(hold, entry))
  }

  /** The score a student row is stored with. */
  function Settled(s: Stored, previous: Option<int>, echo: bool, first: bool): int
    requires s.understanding.Some?
  {
    Min(Base(s, previous), Ceiling(previous, echo, first))
  }

  /** The score a reaction ends with: the one given, or the one before if the reaction holds,
      lowered by no more than its ceilings ask for. */
  predicate Settles(given: int, holds: bool, previous: Option<int>, echo: bool, first: bool, v: int) {
    var base := if holds && previous.Some? then previous.value else given;
    && v <= base
    && (previous.Some? ==> v <= previous.value + 20)
    && (previous.Some? && echo ==> v <= previous.value)
    && (first ==> v <= 79)
    && (|| v == base
        || (previous.Some? && v == previous.value + 20)
        || (previous.Some? && echo && v == previous.value)
        || (first && v == 79))
  }

  lemma SettledIs(s: Stored, previous: Option<int>, echo: bool, first: bool, v: int)
    requires ScoreOk(s) && InRange(previous)
    ensures v == Settled(s, previous, echo, first)
            <==> Settles(s.understanding.value, !s.onTask && s.misconception == "", previous, echo, first, v)
  {
  }

  /** A score the protocol may hold: in range, below the bar with a misconception. */
  predicate ScoreOk(s: Stored) {
    s.understanding.Some? && 0 <= s.understanding.value <= 100
    && (s.misconception != "" ==> s.understanding.value < AGREE_THRESHOLD)
  }

  predicate InRange(v: Option<int>) { v.Some? ==> 0 <= v.value <= 100 }

  /** The structured part of the row written for a model call. */
  function SettledRow(rules: TextRules, result: LlmResult, c: Context): Option<Stored> {
    match result
    case Unparsed(_) => None
    case Parsed(raw) =>
      var s := Validated(rules, raw);
      Some(s.(understanding := Some(Settled(s, c.previous, EchoesContext(rules, s, c), c.first))))
  }

  /** The visible words of the row. */
  function RowWords(result: LlmResult): string {
    match result
    case Unparsed(text) => text
    case Parsed(raw) => if raw.utterance != "" then raw.utterance else "(" + raw.action + ")"
  }

  /** The score of the `structured` dictionary, rewritten step by step in the
      source's order: hold, echo ceiling, rise ceiling, entry ceiling. */
  method Settle(s: Stored, previous: Option<int>, echo: bool, first: bool) returns (score: int)
    requires ScoreOk(s) && InRange(previous)
    ensures score == Settled(s, previous, echo, first)
  {
    score := s.understanding.value;
    if !s.onTask && previous.Some? && s.misconception == "" {
      score := previous.value;
    }
    if previous.Some? {
      if echo {
        score := Min(score, previous.value);
      }
    }
    if previous.Some? {
      score := Min(score, previous.value + UNDERSTANDING_MAX_RISE);
    }
    if first {
      score := Min(score, 79);
    }
  }

  /** `student_utterance`: validate the reply, look for an echo, settle the score. */
  method StudentUtterance(rules: TextRules, result: LlmResult, c: Context)
    returns (structured: Option<Stored>, words: string)
    requires InRange(c.previous) && JudgesEchoes(rules)
    ensures structured == SettledRow(rules, result, c)
    ensures words == RowWords(result)
  {
    words := RowWords(result);
    if result.Unparsed? {
      return None, words;
    }
    var s := Parse(rules, result.raw);
    var echo := DetectEcho(rules, s, c.teacher, c.previousArtifact, c.previousUtterance);
    var score := Settle(s, c.previous, echo, c.first);
    structured := Some(s.(understanding := Some(score)));
  }

  lemma SettledBounds(s: Stored, previous: Option<int>, echo: bool, first: bool)
    requires ScoreOk(s) && InRange(previous)
    ensures var v := Settled(s, previous, echo, first);
      && 0 <= v <= 100
      && (s.misconception != "" ==> v < AGREE_THRESHOLD)
      && (previous.Some? ==> v <= previous.value + UNDERSTANDING_MAX_RISE)
      && (previous.Some? && echo ==> v <= previous.value)
      && (first ==> v < AGREE_THRESHOLD)
  {
  }

  /** Whatever the model answers, the stored score is in range, never more than 20
      above the previous one, below the agreement bar on a first reaction and with
      a misconception, and no higher than before on an echo. */
  lemma SettledRowBounds(rules: TextRules, raw: RawReaction, c: Context)
    requires InRange(c.previous)
    ensures SettledRow(rules, Parsed(raw), c).Some?
    ensures ScoreOk(SettledRow(rules, Parsed(raw), c).value)
    ensures c.previous.Some? ==> SettledRow(rules, Parsed(raw), c).value.understanding.value <= c.previous.value + UNDERSTANDING_MAX_RISE
    ensures c.first ==> SettledRow(rules, Parsed(raw), c).value.understanding.value < AGREE_THRESHOLD
    ensures c.previous.Some? && EchoesContext(rules, Validated(rules, raw), c)
            ==> SettledRow(rules, Parsed(raw), c).value.understanding.value <= c.previous.value
  {
    var s := Validated(rules, raw);
    SettledBounds(s, c.previous, EchoesContext(rules, s, c), c.first);
  }

  /** An off-task reaction without a misconception leaves the score exactly where it was. */
  lemma OffTaskHolds(rules: TextRules, raw: RawReaction, c: Context)
    requires InRange(c.previous) && c.previous.Some? && !c.first
    requires !raw.onTask && ValidatedMisconception(rules, raw) == ""
    ensures SettledRow(rules, Parsed(raw), c).value.understanding == c.previous
  {
  }
}
