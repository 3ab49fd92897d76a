/** What each commit achieves for its caller, whatever the model answered. */
module SessionCommits {
  import opened Wrappers
  import opened Reaction
  import opened Transcript
  import opened Agreement
  import opened SessionProtocol
  import opened SessionGrammar
  import opened SessionInvariant
  import opened SessionTheorems
  import opened SessionRegenerate

  // ------------------------------------------------------------- what waits

  /** The student's last row among these is a reply that failed to parse. */
  predicate FailedLast(rows: seq<Row>, p: nat) {
    exists i | 0 <= i < |rows| :: SpokeLast(rows, p, i) && rows[i].speaker.structured.None?
  }

  predicate SpokeLast(rows: seq<Row>, p: nat, i: nat)
    requires i < |rows|
  {
    Spoke(rows[i], p) && forall j | i < j < |rows| :: !Spoke(rows[j], p)
  }

  lemma {:induction false} LastFailedIs(rows: seq<Row>, p: nat)
    ensures LastFailed(rows, p) <==> FailedLast(rows, p)
  {
    if rows != [] {
      var n := |rows| - 1;
      if Spoke(rows[n], p) {
        assert Select(rows, OfPersona(p)) == Select(rows[..n], OfPersona(p)) + [rows[n]];
        assert SpokeLast(rows, p, n);
      } else {
        LastFailedIs(rows[..n], p);
        assert Select(rows, OfPersona(p)) == Select(rows[..n], OfPersona(p));
        if i: nat :| i < n && SpokeLast(rows[..n], p, i) && rows[..n][i].speaker.structured.None? {
          assert SpokeLast(rows, p, i);
        }
        if i: nat :| i < |rows| && SpokeLast(rows, p, i) && rows[i].speaker.structured.None? {
          assert SpokeLast(rows[..n], p, i);
        }
      }
    }
  }

  /** The call a request waits with: it fits the running session's current scene, and holds
      what the request said and the scene as it stands. */
  predicate WaitsWith(cfg: Config, s: Session, req: Request, call: Pending) {
    var scene := Scene(s.log, s.current);
    && s.running
    && match req
       case Enter(idx) => idx == s.current && scene == [] && call == EnterCall(idx)
       case Say(target, words) =>
         && scene != [] && (target == None || target.value in cfg.personas) && Count(s.log, UserTurn) < cfg.maxTurns
         && call == SayCall(s.current, scene, target, words)
       case Advance(agree) => call == AdvanceCall(s.current, agree)
       case Finish => call == FinishCall(s.current)
       case Regenerate(p) => p in cfg.personas && FailedLast(scene, p) && call == RegenerateCall(s.current, scene, p)
  }

  /** A request waits exactly with that call; entering an entered scene alone is answered at
      once. */
  lemma ReadMeans(cfg: Config, s: Session, req: Request)
    ensures forall call :: Read(cfg, s, req) == Ok(Some(call)) <==> WaitsWith(cfg, s, req, call)
    ensures Read(cfg, s, req) == Ok(None) <==> s.running && req == Enter(s.current) && Scene(s.log, s.current) != []
  {
    if req.Regenerate? {
      LastFailedIs(Scene(s.log, s.current), req.persona);
    }
  }

  // ------------------------------------------------------------ whose answer

  /** What the row keeps of a reply that parsed: everything but the score, and a misconception
      only if the student shows one. */
  predicate KeepsReply(rules: TextRules, s: Stored, raw: RawReaction) {
    && s.action == raw.action && s.utterance == raw.utterance && s.artifact == raw.artifact
    && s.ready == raw.ready && s.onTask == raw.onTask
    && s.misconception == (if rules.isStuckSummary(raw.misconception) || rules.isStuckOnly(raw.utterance, raw.artifact)
                           then "" else raw.misconception)
  }

  /** Its score is the one the reply gives, settled against the student's last reaction. */
  predicate ScoredAgainst(rules: TextRules, s: Stored, raw: RawReaction, first: bool, last: Option<Stored>, teacher: string) {
    var given := ValidatedScore(raw);
    var previous := if last.Some? then last.value.understanding else None;
    var echo := last.Some? && rules.echoes(s.(understanding := Some(given)), teacher, last.value.artifact, last.value.utterance);
    s.understanding.Some? && Settles(given, !s.onTask && s.misconception == "", previous, echo, first, s.understanding.value)
  }

  /** An answer of the student made of this reply: the raw text if it does not parse, and
      otherwise the reply with its score settled. */
  predicate Carries(rules: TextRules, r: Row, p: nat, result: LlmResult, first: bool, last: Option<Stored>, teacher: string) {
    && Spoke(r, p)
    && match result
       case Unparsed(text) => r.speaker.structured == None && r.speaker.words == text
       case Parsed(raw) =>
         && r.speaker.words == (if raw.utterance != "" then raw.utterance else "(" + raw.action + ")")
         && r.speaker.structured.Some?
         && KeepsReply(rules, r.speaker.structured.value, raw)
         && ScoredAgainst(rules, r.speaker.structured.value, raw, first, last, teacher)
  }

  /** The same, judged against the student's own last reaction among the rows read. */
  ghost predicate Answered(rules: TextRules, read: seq<Row>, r: Row, p: nat, result: LlmResult, first: bool, teacher: string) {
    exists last :: LastParsed(read, p, last) && Carries(rules, r, p, result, first, last, teacher)
  }

  lemma RowCarries(rules: TextRules, no: nat, idx: nat, p: nat, result: LlmResult, first: bool, read: seq<Row>, teacher: string)
    requires Scored(read)
    ensures Carries(rules, ReactionRow(rules, no, idx, p, result, ContextOf(read, p, first, teacher)), p, result, first,
                    LastValid(read, p), teacher)
  {
    PreviousInRange(read, p);
    if result.Parsed? {
      var c := ContextOf(read, p, first, teacher);
      var s := Validated(rules, result.raw);
      SettledIs(s, c.previous, EchoesContext(rules, s, c), first, Settled(s, c.previous, EchoesContext(rules, s, c), first));
    }
  }

  lemma RowAnswers(rules: TextRules, no: nat, idx: nat, p: nat, result: LlmResult, first: bool, read: seq<Row>, teacher: string)
    requires Scored(read)
    ensures Answered(rules, read, ReactionRow(rules, no, idx, p, result, ContextOf(read, p, first, teacher)), p, result, first, teacher)
  {
    LastValidIs(read, p);
    RowCarries(rules, no, idx, p, result, first, read, teacher);
  }

  // ------------------------------------------------------------------ enter

  /** Behind `n` rows stand the enter row, the planned question and the seats' answers, each
      made of the reply to its own seat. */
  predicate EntryWritten(cfg: Config, log: seq<Row>, n: nat, idx: nat, results: seq<LlmResult>)
    requires |results| == |cfg.personas| && idx < |cfg.prompts|
  {
    && |log| == n + 2 + |cfg.personas| && (forall i | n <= i < |log| :: log[i].phase == idx)
    && log[n].speaker == System(PhaseEnter) && log[n + 1].speaker == Teacher(Plan, None, cfg.prompts[idx])
    && forall k | 0 <= k < |results| :: Carries(cfg.rules, log[n + 2 + k], cfg.personas[k], results[k], true, None, "")
  }

  /** After an enter every seat has answered in the scene; entering again changes nothing. */
  ghost predicate SceneEntered(cfg: Config, s: Session, t: Session, idx: nat, results: seq<LlmResult>)
    requires |results| == |cfg.personas|
  {
    && t.running && t.current == idx < |cfg.prompts| && s.log <= t.log
    && HeardAll(t.log, idx, cfg.personas)
    && (if Scene(s.log, idx) != [] then t == s else EntryWritten(cfg, t.log, |s.log|, idx, results))
  }

  lemma EnterMeans(cfg: Config, s: Session, idx: nat, results: seq<LlmResult>)
    requires ValidConfig(cfg) && SessionInv(cfg, s) && |results| == |cfg.personas|
    requires CommitEnter(cfg, s, idx, results).Ok?
    ensures SceneEntered(cfg, s, CommitEnter(cfg, s, idx, results).value, idx, results)
  {
    var t := CommitEnter(cfg, s, idx, results).value;
    EnterKeeps(cfg, s, idx, results);
    EnteredMeansRows(cfg, t);
    if Scene(s.log, idx) == [] {
      var rows := EnterRows(cfg, idx, NextNo(s.log), results);
      assert t.log == s.log + rows && rows[0] in t.log;
      SelectMembers(t.log, InScene(idx), rows[0]);
      EntryIs(cfg, s.log, idx, results);
    }
  }

  lemma EntryIs(cfg: Config, log: seq<Row>, idx: nat, results: seq<LlmResult>)
    requires |results| == |cfg.personas| && idx < |cfg.prompts|
    ensures EntryWritten(cfg, log + EnterRows(cfg, idx, NextNo(log), results), |log|, idx, results)
  {
    var no := NextNo(log);
    var all := log + EnterRows(cfg, idx, no, results);
    forall k | 0 <= k < |results|
      ensures Carries(cfg.rules, all[|log| + 2 + k], cfg.personas[k], results[k], true, None, "")
    {
      assert all[|log| + 2 + k] == EntryReactions(cfg, idx, no + 2, results)[k];
      RowCarries(cfg.rules, no + 2 + k, idx, cfg.personas[k], results[k], true, [], "");
    }
  }

  // -------------------------------------------------------------------- say

  /** Who answers: everybody in seat order, or the student who was asked. */
  lemma {:induction false} RespondersAre(personas: seq<nat>, target: Option<nat>)
    ensures target.None? ==> Responders(personas, target) == personas
    ensures target.Some? && target.value !in personas ==> Responders(personas, target) == []
    ensures target.Some? && target.value in personas && Distinct(personas) ==> Responders(personas, target) == [target.value]
  {
    if personas != [] {
      var n := |personas| - 1;
      RespondersAre(personas[..n], target);
      assert personas == personas[..n] + [personas[n]];
    }
  }

  /** The rows from `n` on are made of these replies, one to each of these students. */
  ghost predicate AllAnswered(cfg: Config, call: Pending, log: seq<Row>, n: nat, responders: seq<nat>, results: seq<LlmResult>)
    requires call.SayCall? && |results| == |responders| && n + |results| <= |log|
  {
    forall k | 0 <= k < |results| ::
      Answered(cfg.rules, call.stored, log[n + k], responders[k], results[k], false, call.words)
  }

  /** One user turn more, within the limit, and after it one answer of each of these students
      in this order, made of the reply to that student and judged against what was read of
      that student; nothing before it is touched. */
  ghost predicate SaidBy(cfg: Config, s: Session, t: Session, call: Pending, responders: seq<nat>, results: seq<LlmResult>)
    requires call.SayCall? && |results| == |responders|
  {
    && t.running && t.current == s.current == call.idx && s.log <= t.log
    && |t.log| == |s.log| + 1 + |responders|
    && Count(t.log, UserTurn) == Count(s.log, UserTurn) + 1 <= cfg.maxTurns
    && t.log[|s.log|].phase == call.idx && t.log[|s.log|].speaker == Teacher(User, call.target, call.words)
    && AnswersAt(t.log, |s.log| + 1, call.idx, responders)
    && AllAnswered(cfg, call, t.log, |s.log| + 1, responders, results)
  }

  ghost predicate Said(cfg: Config, s: Session, t: Session, call: Pending, results: seq<LlmResult>)
    requires call.SayCall?
  {
    var responders := if call.target.Some? then [call.target.value] else cfg.personas;
    |results| == |responders| && SaidBy(cfg, s, t, call, responders, results)
  }

  lemma SayMeans(cfg: Config, s: Session, call: Pending, results: seq<LlmResult>)
    requires ValidConfig(cfg) && call.SayCall? && PendingInv(cfg, s, call) && |results| == Calls(cfg, call)
    requires CommitSay(cfg, s, call, results).Ok?
    ensures Said(cfg, s, CommitSay(cfg, s, call, results).value, call, results)
  {
    var responders := Responders(cfg.personas, call.target);
    RespondersAre(cfg.personas, call.target);
    SayMeansBy(cfg, s, call, responders, results);
  }

  lemma SayMeansBy(cfg: Config, s: Session, call: Pending, responders: seq<nat>, results: seq<LlmResult>)
    requires call.SayCall? && Scored(call.stored)
    requires responders == Responders(cfg.personas, call.target) && |results| == |responders|
    requires CommitSay(cfg, s, call, results).Ok?
    ensures SaidBy(cfg, s, CommitSay(cfg, s, call, results).value, call, responders, results)
  {
    var head := Row(NextNo(s.log), call.idx, Teacher(User, call.target, call.words));
    var answers := Reactions(cfg, call, NextNo(s.log) + 1, responders, results);
    var t := CommitSay(cfg, s, call, results).value;
    WritesSay(cfg, s, call, responders, results, head, answers);
    AnswersAre(cfg, s.log + [head], call, NextNo(s.log) + 1, responders, results, answers);
    BlockCounts(s.log, head, answers);
    SaidIs(cfg, s, t, call, responders, results, head, answers);
  }

  lemma WritesSay(cfg: Config, s: Session, call: Pending, responders: seq<nat>, results: seq<LlmResult>, head: Row, answers: seq<Row>)
    requires call.SayCall? && responders == Responders(cfg.personas, call.target) && |results| == |responders|
    requires CommitSay(cfg, s, call, results).Ok?
    requires head == Row(NextNo(s.log), call.idx, Teacher(User, call.target, call.words))
    requires answers == Reactions(cfg, call, NextNo(s.log) + 1, responders, results)
    ensures s.running && s.current == call.idx && Count(s.log, UserTurn) < cfg.maxTurns
    ensures CommitSay(cfg, s, call, results).value == s.(log := s.log + ([head] + answers))
  {
  }

  lemma SaidIs(cfg: Config, s: Session, t: Session, call: Pending, responders: seq<nat>, results: seq<LlmResult>, head: Row, answers: seq<Row>)
    requires call.SayCall? && |results| == |responders| == |answers|
    requires t == s.(log := s.log + ([head] + answers)) && s.running && s.current == call.idx
    requires head.phase == call.idx && head.speaker == Teacher(User, call.target, call.words)
    requires Count(s.log + ([head] + answers), UserTurn) == Count(s.log, UserTurn) + 1 <= cfg.maxTurns
    requires AnswersAt(s.log + [head] + answers, |s.log + [head]|, call.idx, responders)
    requires AllAnswered(cfg, call, s.log + [head] + answers, |s.log + [head]|, responders, results)
    ensures SaidBy(cfg, s, t, call, responders, results)
  {
    assert s.log + ([head] + answers) == s.log + [head] + answers;
  }

  lemma AnswersAre(cfg: Config, log: seq<Row>, call: Pending, no: nat, responders: seq<nat>, results: seq<LlmResult>, answers: seq<Row>)
    requires call.SayCall? && |results| == |responders| && Scored(call.stored)
    requires answers == Reactions(cfg, call, no, responders, results)
    ensures |answers| == |results|
    ensures AnswersAt(log + answers, |log|, call.idx, responders)
    ensures AllAnswered(cfg, call, log + answers, |log|, responders, results)
  {
    forall k | 0 <= k < |results|
      ensures Answered(cfg.rules, call.stored, answers[k], responders[k], results[k], false, call.words)
    {
      RowAnswers(cfg.rules, no + k, call.idx, responders[k], results[k], false, call.stored, call.words);
    }
    AnswersMoved(cfg, log, call, answers, responders, results);
  }

  lemma AnswersOnly(cfg: Config, call: Pending, no: nat, responders: seq<nat>, results: seq<LlmResult>, answers: seq<Row>)
    requires call.SayCall? && |results| == |responders| && Scored(call.stored)
    requires answers == Reactions(cfg, call, no, responders, results)
    ensures |answers| == |results| && AllAnswered(cfg, call, answers, 0, responders, results)
  {
    AnswersAre(cfg, [], call, no, responders, results, answers);
    assert [] + answers == answers;
  }

  lemma AnswersMoved(cfg: Config, log: seq<Row>, call: Pending, answers: seq<Row>, responders: seq<nat>, results: seq<LlmResult>)
    requires call.SayCall? && |results| == |responders| == |answers|
    requires forall k | 0 <= k < |answers| :: answers[k].phase == call.idx && Spoke(answers[k], responders[k])
    requires forall k | 0 <= k < |answers| ::
               Answered(cfg.rules, call.stored, answers[k], responders[k], results[k], false, call.words)
    ensures AnswersAt(log + answers, |log|, call.idx, responders)
    ensures AllAnswered(cfg, call, log + answers, |log|, responders, results)
  {
  }

  // ---------------------------------------------------------------- advance

  /** One transition more, written as what it was, to the next scene or, with the end row
      behind it, past the last; by agreement only when every student has agreed in the scene
      and the user has asked in it. */
  ghost predicate Left(cfg: Config, s: Session, t: Session, idx: nat, agree: bool) {
    && s.current == idx && s.log <= t.log
    && Count(t.log, Transition) == Count(s.log, Transition) + 1
    && |s.log| < |t.log| && t.log[|s.log|].phase == idx
    && t.log[|s.log|].speaker == System(if agree then AgreeAdvance else SkipScene)
    && (if idx + 1 < |cfg.prompts| then t.running && t.current == idx + 1 && |t.log| == |s.log| + 1
        else !t.running && t.current == idx && |t.log| == |s.log| + 2
             && t.log[|s.log| + 1].phase == idx && t.log[|s.log| + 1].speaker == System(End(LastPhase)))
    && (agree ==> Asked(s.log, idx) && forall p | p in cfg.personas :: HasAgreed(s.log, idx, p))
  }

  lemma AdvanceMeans(cfg: Config, s: Session, idx: nat, agree: bool)
    requires ValidConfig(cfg) && SessionInv(cfg, s)
    requires CommitAdvance(cfg, s, idx, agree).Ok?
    ensures Left(cfg, s, CommitAdvance(cfg, s, idx, agree).value, idx, agree)
  {
    var t := CommitAdvance(cfg, s, idx, agree).value;
    var rows := LeaveRows(cfg, NextNo(s.log), idx, agree);
    assert t.log == s.log + rows;
    SelectAppend(s.log, rows, Transition);
    LeaveCounts(cfg, NextNo(s.log), idx, agree);
    if agree {
      GateMeans(cfg, s);
      PositionDescribes(cfg, s.log);
    }
  }

  lemma LeaveCounts(cfg: Config, no: nat, idx: nat, agree: bool)
    ensures Count(LeaveRows(cfg, no, idx, agree), Transition) == 1
  {
    var rows := LeaveRows(cfg, no, idx, agree);
    assert rows == [rows[0]] + rows[1..];
    SelectAppend([rows[0]], rows[1..], Transition);
    SelectOne(rows[0], Transition);
    SelectNone(rows[1..], Transition);
  }

  /** The gate refuses exactly an agreement that some student of a current scene withholds. */
  lemma GateRefuses(cfg: Config, s: Session, idx: nat, agree: bool)
    ensures CommitAdvance(cfg, s, idx, agree) == Err(NotAllAgreed)
            <==> s.running && s.current == idx && agree && exists p :: p in cfg.personas && !HasAgreed(s.log, idx, p)
  {
    AllAgreedMeaning(Scene(s.log, idx), idx, cfg.personas);
    forall p | p in cfg.personas ensures HasAgreed(Scene(s.log, idx), idx, p) <==> HasAgreed(s.log, idx, p) {
      AgreementLocal(s.log, idx, p);
    }
  }

  // ----------------------------------------------------------------- finish

  /** The running session is over in its scene, its one end row the only row added. */
  ghost predicate Ended(s: Session, t: Session) {
    s.running && !t.running && t.current == s.current && s.log <= t.log
    && |t.log| == |s.log| + 1 && Count(t.log, EndRow) == 1
    && t.log[|s.log|].phase == s.current && t.log[|s.log|].speaker == System(End(FinishButton))
  }

  lemma FinishMeans(cfg: Config, s: Session, idx: nat)
    requires ValidConfig(cfg) && SessionInv(cfg, s) && CommitFinish(s, idx).Ok?
    ensures Ended(s, CommitFinish(s, idx).value)
  {
    FinishKeeps(cfg, s, idx);
    TransitionsCounted(cfg, CommitFinish(s, idx).value.log);
  }

  // ------------------------------------------------------------- regenerate

  /** The answer made of the reply to the retry: judged against what the student had said
      before the failed row, on the question that heads its block, and as a first reaction
      exactly if the failed row was the student's only one. */
  ghost predicate Retried(rules: TextRules, log: seq<Row>, call: Pending, result: LlmResult, answer: Row)
    requires LoadedFailed(call) && 1 <= LoadedRow(call).no <= |log|
  {
    var mine := Select(call.stored, OfPersona(call.persona));
    exists a: nat ::
      && Heads(log, a, LoadedRow(call).no - 1)
      && Answered(rules, mine[..|mine| - 1], answer, call.persona, result, |mine| == 1, log[a].speaker.words)
  }

  /** The row shows the answer, except that columns set to what was loaded may not be sent. */
  predicate Overwritten(was: Row, now: Row, loaded: Row, answer: Row, sends: bool)
    requires was.speaker.Student? && loaded.speaker.Student? && answer.speaker.Student?
  {
    now == was.(speaker := Student(
      was.speaker.persona,
      if sends || answer.speaker.structured.Some? then answer.speaker.structured else was.speaker.structured,
      if sends || answer.speaker.words != loaded.speaker.words then answer.speaker.words else was.speaker.words))
  }

  /** At most the row that was loaded is another, and it is the student's new answer in the
      same place. */
  ghost predicate Rewrote(cfg: Config, s: Session, t: Session, call: Pending, result: LlmResult, sends: bool)
    requires LoadedFailed(call)
  {
    var k := LoadedRow(call).no - 1;
    && t.running && t.current == s.current == call.idx && |t.log| == |s.log|
    && 0 <= k < |s.log| && Spoke(s.log[k], call.persona) && s.log[k].phase == call.idx
    && (forall i | 0 <= i < |s.log| && i != k :: t.log[i] == s.log[i])
    && exists answer :: Spoke(answer, call.persona) && Retried(cfg.rules, s.log, call, result, answer)
                        && Overwritten(s.log[k], t.log[k], LoadedRow(call), answer, sends)
  }

  /** The answer a retry gets. */
  function Fresh(cfg: Config, call: Pending, result: LlmResult): Row
    requires LoadedFailed(call)
  {
    ReactionRow(cfg.rules, LoadedRow(call).no, call.idx, call.persona, result, RegenerateContext(call))
  }

  lemma FreshIsRetry(cfg: Config, s: Session, call: Pending, result: LlmResult)
    requires ValidConfig(cfg) && SessionInv(cfg, s) && LoadedFailed(call) && PendingInv(cfg, s, call)
    ensures 1 <= LoadedRow(call).no <= |s.log| && Retried(cfg.rules, s.log, call, result, Fresh(cfg, call, result))
  {
    var a := AskedFoundIn(cfg, s, call);
    var mine := Select(call.stored, OfPersona(call.persona));
    SelectScored(call.stored, OfPersona(call.persona));
    assert Scored(mine[..|mine| - 1]);
    RowAnswers(cfg.rules, LoadedRow(call).no, call.idx, call.persona, result, |mine| == 1, mine[..|mine| - 1], s.log[a].speaker.words);
  }

  lemma FreshOverwrites(cfg: Config, s: Session, call: Pending, result: LlmResult, sends: bool)
    requires Numbered(s.log) && LoadedFailed(call) && 1 <= LoadedRow(call).no <= |s.log|
    requires Spoke(s.log[LoadedRow(call).no - 1], call.persona)
    ensures var k := LoadedRow(call).no - 1;
      Overwritten(s.log[k], Amend(s.log, RegeneratePatch(cfg, call, result, sends))[k], LoadedRow(call), Fresh(cfg, call, result), sends)
  {
    assert s.log[LoadedRow(call).no - 1].no == LoadedRow(call).no;
  }

  lemma RegenerateMeans(cfg: Config, s: Session, call: Pending, result: LlmResult, sends: bool)
    requires ValidConfig(cfg) && SessionInv(cfg, s) && LoadedFailed(call) && PendingInv(cfg, s, call)
    requires CommitRegenerate(cfg, s, call, result, sends).Ok?
    ensures Rewrote(cfg, s, CommitRegenerate(cfg, s, call, result, sends).value, call, result, sends)
  {
    LoadedInLog(cfg, s, call);
    OneRewritten(s.log, RegeneratePatch(cfg, call, result, sends));
    FreshIsRetry(cfg, s, call, result);
    assert Shape(s.log[LoadedRow(call).no - 1]) == Shape(LoadedRow(call));
    FreshOverwrites(cfg, s, call, result, sends);
    assert Spoke(Fresh(cfg, call, result), call.persona);
  }

  lemma OneRewritten(log: seq<Row>, p: Patch)
    requires Numbered(log) && 1 <= p.no <= |log|
    ensures forall i | 0 <= i < |log| && i != p.no - 1 :: Amend(log, p)[i] == log[i]
  {
    forall i | 0 <= i < |log| && i != p.no - 1 ensures Amend(log, p)[i] == log[i] {
      assert log[i].no == i + 1;
    }
  }
}
