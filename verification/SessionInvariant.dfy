/** What every step of the session protocol keeps, in every interleaving. */
module SessionInvariant {
  import opened Wrappers
  import opened Reaction
  import opened Transcript
  import opened Agreement
  import opened SessionProtocol
  import opened SessionGrammar

  predicate Valid(r: Row) { r.speaker.Student? && r.speaker.structured.Some? }

  predicate Scored(rows: seq<Row>) {
    forall i | 0 <= i < |rows| && Valid(rows[i]) :: ScoreOk(rows[i].speaker.structured.value)
  }

  predicate Low(r: Row) {
    Valid(r) ==> r.speaker.structured.value.understanding.Some?
                 && r.speaker.structured.value.understanding.value < AGREE_THRESHOLD
  }

  /** The student has not spoken in the scene before row `i`. */
  predicate FirstOfScene(log: seq<Row>, i: nat)
    requires i < |log|
  {
    log[i].speaker.Student? && !Heard(log[..i], log[i].phase, log[i].speaker.persona)
  }

  predicate EntryCapped(log: seq<Row>) {
    forall i | 0 <= i < |log| && FirstOfScene(log, i) :: Low(log[i])
  }

  predicate IsAgree(r: Row) { Matches(AgreedTransition, r) }

  /** Every transition by agreement had an agreeing row of every student before it. */
  predicate AgreeBacked(cfg: Config, log: seq<Row>) {
    forall j | 0 <= j < |log| && IsAgree(log[j]) ::
      forall p | p in cfg.personas :: HasAgreed(log[..j], log[j].phase, p)
  }

  /** The log stands where the session row says. */
  predicate Placed(cfg: Config, s: Session) {
    var p := Position(cfg, s.log);
    if s.running then (p.Fresh? || p.Entered?) && p.scene == s.current
    else p.Done? && p.scene == s.current
  }

  predicate SessionInv(cfg: Config, s: Session) {
    && s.current < |cfg.prompts|
    && Numbered(s.log)
    && Placed(cfg, s)
    && Scored(s.log)
    && EntryCapped(s.log)
    && AgreeBacked(cfg, s.log)
    && Count(s.log, UserTurn) <= cfg.maxTurns
  }

  /** `stored` is a scene as it once was: since then rows were added and answers
      of students rewritten, nothing else. */
  predicate SnapshotOf(stored: seq<Row>, log: seq<Row>, idx: nat) {
    var now := Scene(log, idx);
    Scored(stored) && |stored| <= |now| && SameShape(stored, now[..|stored|])
  }

  predicate PendingInv(cfg: Config, s: Session, p: Pending) {
    match p
    case EnterCall(idx) => idx < |cfg.prompts|
    case SayCall(idx, stored, target, _) =>
      SnapshotOf(stored, s.log, idx) && stored != [] && (target.Some? ==> target.value in cfg.personas)
    case AdvanceCall(_, _) => true
    case FinishCall(_) => true
    case RegenerateCall(idx, stored, persona) =>
      SnapshotOf(stored, s.log, idx) && LoadedFailed(p) && persona in cfg.personas
  }

  predicate Inv(cfg: Config, w: World) {
    SessionInv(cfg, w.session) && forall id | id in w.pending :: PendingInv(cfg, w.session, w.pending[id])
  }

  // --------------------------------------------------------------- growth

  /** The log only grows; of an old row only a student's answer can change. */
  predicate Grown(old': seq<Row>, new': seq<Row>) {
    |old'| <= |new'| && SameShape(old', new'[..|old'|])
  }

  lemma GrownAppend(log: seq<Row>, rows: seq<Row>)
    ensures Grown(log, log + rows)
  {
    assert (log + rows)[..|log|] == log;
  }

  lemma GrownAmend(log: seq<Row>, p: Patch)
    ensures Grown(log, Amend(log, p))
  {
    assert Amend(log, p)[..|log|] == Amend(log, p);
  }

  lemma GrownSelect(xs: seq<Row>, ys: seq<Row>, q: Query)
    requires Grown(xs, ys)
    ensures Grown(Select(xs, q), Select(ys, q))
  {
    assert ys == ys[..|xs|] + ys[|xs|..];
    SelectAppend(ys[..|xs|], ys[|xs|..], q);
    SelectShape(xs, ys[..|xs|], q);
    assert Select(ys, q)[..|Select(xs, q)|] == Select(ys[..|xs|], q);
  }

  lemma SnapshotKept(stored: seq<Row>, xs: seq<Row>, ys: seq<Row>, idx: nat)
    requires SnapshotOf(stored, xs, idx) && Grown(xs, ys)
    ensures SnapshotOf(stored, ys, idx)
  {
    GrownSelect(xs, ys, InScene(idx));
    var a, b := Scene(xs, idx), Scene(ys, idx);
    forall i | 0 <= i < |stored| ensures Shape(stored[i]) == Shape(b[i]) {
      assert Shape(stored[i]) == Shape(a[..|stored|][i]);
      assert Shape(a[i]) == Shape(b[..|a|][i]);
    }
  }

  lemma PendingKept(cfg: Config, s: Session, t: Session, p: Pending)
    requires PendingInv(cfg, s, p) && Grown(s.log, t.log)
    ensures PendingInv(cfg, t, p)
  {
    if p.SayCall? || p.RegenerateCall? {
      SnapshotKept(p.stored, s.log, t.log, p.idx);
    }
  }

  // -------------------------------------------------------------- appends

  lemma MineAppend(xs: seq<Row>, ys: seq<Row>, idx: nat, persona: nat)
    ensures Mine(xs + ys, idx, persona) == Mine(xs, idx, persona) + Mine(ys, idx, persona)
  {
    SelectAppend(xs, ys, InScene(idx));
    SelectAppend(Scene(xs, idx), Scene(ys, idx), OfPersona(persona));
  }

  lemma EntryCappedAppend(log: seq<Row>, rows: seq<Row>)
    requires EntryCapped(log)
    requires forall k | 0 <= k < |rows| && rows[k].speaker.Student? ::
               Low(rows[k]) || Heard(log, rows[k].phase, rows[k].speaker.persona)
    ensures EntryCapped(log + rows)
  {
    var all := log + rows;
    forall i | 0 <= i < |all| && FirstOfScene(all, i) ensures Low(all[i]) {
      if i < |log| {
        assert all[..i] == log[..i];
        assert FirstOfScene(log, i);
      } else {
        var k := i - |log|;
        assert all[..i] == log + rows[..k];
        MineAppend(log, rows[..k], all[i].phase, all[i].speaker.persona);
      }
    }
  }

  lemma AgreeBackedAppend(cfg: Config, log: seq<Row>, rows: seq<Row>)
    requires AgreeBacked(cfg, log)
    requires forall k | 0 <= k < |rows| && IsAgree(rows[k]) ::
               k == 0 && forall p | p in cfg.personas :: HasAgreed(log, rows[k].phase, p)
    ensures AgreeBacked(cfg, log + rows)
  {
    var all := log + rows;
    forall j, p | 0 <= j < |all| && IsAgree(all[j]) && p in cfg.personas
      ensures HasAgreed(all[..j], all[j].phase, p)
    {
      if j < |log| {
        assert all[..j] == log[..j];
        assert IsAgree(log[j]);
      } else {
        assert rows[j - |log|] == all[j];
        assert all[..j] == log;
      }
    }
  }

  lemma ScoredAppend(xs: seq<Row>, ys: seq<Row>)
    requires Scored(xs) && Scored(ys)
    ensures Scored(xs + ys)
  {
  }

  lemma NumberedAppend(log: seq<Row>, rows: seq<Row>)
    requires Numbered(log)
    requires forall k | 0 <= k < |rows| :: rows[k].no == |log| + 1 + k
    ensures Numbered(log + rows)
  {
  }

  /** Entered scenes have rows, fresh ones do not. */
  lemma EnteredMeansRows(cfg: Config, s: Session)
    requires ValidConfig(cfg) && SessionInv(cfg, s) && s.running
    ensures Position(cfg, s.log).Entered? <==> Scene(s.log, s.current) != []
    ensures Position(cfg, s.log).Entered? ==> HeardAll(s.log, s.current, cfg.personas)
  {
    PositionDescribes(cfg, s.log);
    if Position(cfg, s.log).Entered? {
      assert cfg.personas[0] in cfg.personas;
      assert Mine(s.log, s.current, cfg.personas[0]) == Select(Scene(s.log, s.current), OfPersona(cfg.personas[0]));
    }
  }

  /** A previous understanding read from scored rows is in range. */
  lemma {:induction false} PreviousInRange(rows: seq<Row>, persona: nat)
    requires Scored(rows)
    ensures InRange(PreviousUnderstanding(rows, persona))
  {
    if rows != [] {
      PreviousInRange(rows[..|rows| - 1], persona);
    }
  }

  lemma ReactionRowScored(rules: TextRules, no: nat, idx: nat, persona: nat, result: LlmResult, c: Context)
    requires InRange(c.previous)
    ensures var r := ReactionRow(rules, no, idx, persona, result, c);
      (Valid(r) ==> ScoreOk(r.speaker.structured.value)) && (c.first ==> Low(r))
  {
    if result.Parsed? {
      SettledRowBounds(rules, result.raw, c);
    }
  }

  // -------------------------------------------------------------- commits

  /** What may be appended without a user turn: system rows, planned questions and
      answers below the bar. */
  ghost predicate Quiet(cfg: Config, log: seq<Row>, rows: seq<Row>) {
    && Scored(rows)
    && forall k | 0 <= k < |rows| ::
         && rows[k].no == |log| + 1 + k
         && !Matches(UserTurn, rows[k])
         && Low(rows[k])
         && (IsAgree(rows[k]) ==> k == 0 && forall p | p in cfg.personas :: HasAgreed(log, rows[k].phase, p))
  }

  lemma QuietKeeps(cfg: Config, s: Session, rows: seq<Row>, t: Session)
    requires ValidConfig(cfg) && SessionInv(cfg, s) && Quiet(cfg, s.log, rows)
    requires t.log == s.log + rows && t.current < |cfg.prompts| && Placed(cfg, t)
    ensures SessionInv(cfg, t) && Grown(s.log, t.log)
  {
    NumberedAppend(s.log, rows);
    ScoredAppend(s.log, rows);
    EntryCappedAppend(s.log, rows);
    AgreeBackedAppend(cfg, s.log, rows);
    SelectAppend(s.log, rows, UserTurn);
    SelectNone(rows, UserTurn);
    GrownAppend(s.log, rows);
  }

  lemma EnterRowsQuiet(cfg: Config, log: seq<Row>, idx: nat, results: seq<LlmResult>)
    requires |results| == |cfg.personas| && idx < |cfg.prompts| && Numbered(log)
    ensures Quiet(cfg, log, EnterRows(cfg, idx, |log| + 1, results))
  {
    var no := |log| + 1;
    var rows := EnterRows(cfg, idx, no, results);
    var answers := EntryReactions(cfg, idx, no + 2, results);
    forall i | 0 <= i < |answers|
      ensures (Valid(answers[i]) ==> ScoreOk(answers[i].speaker.structured.value)) && Low(answers[i])
    {
      ReactionRowScored(cfg.rules, no + 2 + i, idx, cfg.personas[i], results[i], EntryContext);
    }
    assert forall k | 2 <= k < |rows| :: rows[k] == answers[k - 2];
  }

  lemma EnterKeeps(cfg: Config, s: Session, idx: nat, results: seq<LlmResult>)
    requires ValidConfig(cfg) && SessionInv(cfg, s) && |results| == |cfg.personas|
    requires CommitEnter(cfg, s, idx, results).Ok?
    ensures var t := CommitEnter(cfg, s, idx, results).value; SessionInv(cfg, t) && Grown(s.log, t.log)
  {
    if Scene(s.log, idx) != [] {
      GrownAppend(s.log, []);
      assert s.log + [] == s.log;
    } else {
      EnteredMeansRows(cfg, s);
      NumberedNext(s.log);
      EnterRowsQuiet(cfg, s.log, idx, results);
      EnterRead(cfg, s.log, idx, NextNo(s.log), results);
      QuietKeeps(cfg, s, EnterRows(cfg, idx, NextNo(s.log), results), CommitEnter(cfg, s, idx, results).value);
    }
  }

  lemma SayAnswersScored(cfg: Config, call: Pending, no: nat, responders: seq<nat>, results: seq<LlmResult>)
    requires call.SayCall? && |results| == |responders| && Scored(call.stored)
    ensures Scored(Reactions(cfg, call, no, responders, results))
  {
    var answers := Reactions(cfg, call, no, responders, results);
    forall i | 0 <= i < |answers| && Valid(answers[i])
      ensures ScoreOk(answers[i].speaker.structured.value)
    {
      var c := ContextOf(call.stored, responders[i], false, call.words);
      PreviousInRange(call.stored, responders[i]);
      ReactionRowScored(cfg.rules, no + i, call.idx, responders[i], results[i], c);
    }
  }

  /** Answers numbered on from a user turn, all from students already heard. */
  ghost predicate FollowUps(log: seq<Row>, answers: seq<Row>) {
    forall i | 0 <= i < |answers| ::
      answers[i].speaker.Student? && answers[i].no == |log| + 2 + i
      && Heard(log, answers[i].phase, answers[i].speaker.persona)
  }

  lemma BlockKeeps(cfg: Config, s: Session, head: Row, answers: seq<Row>, t: Session)
    requires SessionInv(cfg, s) && Scored(answers) && FollowUps(s.log, answers)
    requires Matches(UserTurn, head) && head.no == |s.log| + 1
    requires Count(s.log, UserTurn) < cfg.maxTurns
    requires t.log == s.log + ([head] + answers) && t.current < |cfg.prompts| && Placed(cfg, t)
    ensures SessionInv(cfg, t) && Grown(s.log, t.log)
  {
    var rows := [head] + answers;
    ScoredAppend([head], answers);
    ScoredAppend(s.log, rows);
    NumberedAppend(s.log, rows);
    EntryCappedAppend(s.log, rows);
    AgreeBackedAppend(cfg, s.log, rows);
    BlockCounts(s.log, head, answers);
    GrownAppend(s.log, rows);
  }

  lemma BlockCounts(log: seq<Row>, head: Row, answers: seq<Row>)
    requires Matches(UserTurn, head) && forall i | 0 <= i < |answers| :: answers[i].speaker.Student?
    ensures Count(log + ([head] + answers), UserTurn) == Count(log, UserTurn) + 1
  {
    SelectAppend(log, [head] + answers, UserTurn);
    SelectAppend([head], answers, UserTurn);
    SelectOne(head, UserTurn);
    SelectNone(answers, UserTurn);
  }

  lemma SayFollowsUp(cfg: Config, log: seq<Row>, call: Pending, responders: seq<nat>, results: seq<LlmResult>)
    requires call.SayCall? && |results| == |responders|
    requires HeardAll(log, call.idx, responders)
    ensures FollowUps(log, Reactions(cfg, call, |log| + 2, responders, results))
  {
    var answers := Reactions(cfg, call, |log| + 2, responders, results);
    forall i | 0 <= i < |answers|
      ensures answers[i].speaker.Student? && answers[i].no == |log| + 2 + i
              && Heard(log, answers[i].phase, answers[i].speaker.persona)
    {
      ReactionAt(cfg, call, |log| + 2, responders, results, i);
    }
  }

  lemma SayKeeps(cfg: Config, s: Session, call: Pending, results: seq<LlmResult>)
    requires ValidConfig(cfg) && SessionInv(cfg, s) && call.SayCall? && PendingInv(cfg, s, call)
    requires |results| == Calls(cfg, call)
    requires CommitSay(cfg, s, call, results).Ok?
    ensures var t := CommitSay(cfg, s, call, results).value; SessionInv(cfg, t) && Grown(s.log, t.log)
  {
    NumberedNext(s.log);
    var no := |s.log| + 1;
    var responders := Responders(cfg.personas, call.target);
    SayEntered(cfg, s, call);
    SayAnswersScored(cfg, call, no + 1, responders, results);
    SayFollowsUp(cfg, s.log, call, responders, results);
    SayRead(cfg, s.log, call, no, results, Position(cfg, s.log).asked);
    BlockKeeps(cfg, s, Row(no, call.idx, Teacher(User, call.target, call.words)),
               Reactions(cfg, call, no + 1, responders, results), CommitSay(cfg, s, call, results).value);
  }

  /** A say that passes the lock finds its scene entered and its responders heard. */
  lemma SayEntered(cfg: Config, s: Session, call: Pending)
    requires ValidConfig(cfg) && SessionInv(cfg, s) && call.SayCall? && PendingInv(cfg, s, call)
    requires s.running && s.current == call.idx
    ensures Position(cfg, s.log).Entered? && Position(cfg, s.log).scene == call.idx
    ensures HeardAll(s.log, call.idx, Responders(cfg.personas, call.target))
  {
    RespondersOf(cfg.personas, call.target);
    EnteredMeansRows(cfg, s);
  }

  /** An agreeing row of the scene is never an entry row, so somebody was asked. */
  lemma AgreementMeansAsked(cfg: Config, s: Session, persona: nat)
    requires ValidConfig(cfg) && SessionInv(cfg, s) && s.running
    requires HasAgreed(s.log, s.current, persona)
    ensures Position(cfg, s.log).Entered? && Position(cfg, s.log).asked
  {
    var log := s.log;
    var i :| 0 <= i < |log| && AgreeingRow(log[i], s.current, persona);
    SelectMembers(log, InScene(s.current), log[i]);
    assert log[i] in Scene(log, s.current);
    EnteredMeansRows(cfg, s);
    assert ScoreOk(log[i].speaker.structured.value);
    assert !FirstOfScene(log, i);
    NonEntryAsked(cfg, log, i);
    PositionDescribes(cfg, log);
  }

  /** A student row that is not the student's first of the scene follows a user turn. */
  lemma NonEntryAsked(cfg: Config, log: seq<Row>, i: nat)
    requires ValidConfig(cfg) && Position(cfg, log) != Broken
    requires i < |log| && log[i].speaker.Student? && !FirstOfScene(log, i)
    ensures Asked(log[..i], log[i].phase)
    ensures Asked(log, log[i].phase)
  {
    PrefixRead(cfg, log, i);
    PrefixRead(cfg, log, i + 1);
    assert log[..i + 1][..i] == log[..i];
    PositionDescribes(cfg, log[..i]);
    var p := Position(cfg, log[..i]);
    assert p.Answering? && p.rest[0] == log[i].speaker.persona;
    AskedStays(log, i, log[i].phase);
  }

  lemma AskedStays(log: seq<Row>, i: nat, idx: nat)
    requires i <= |log| && Asked(log[..i], idx)
    ensures Asked(log, idx)
  {
    assert log == log[..i] + log[i..];
    SelectAppend(log[..i], log[i..], InScene(idx));
    SelectAppend(Scene(log[..i], idx), Scene(log[i..], idx), UserTurn);
  }

  /** The gate: all agreed means every student has an agreeing row in this scene,
      and a teacher turn of the user came before. */
  lemma GateMeans(cfg: Config, s: Session)
    requires ValidConfig(cfg) && SessionInv(cfg, s) && s.running
    requires AllAgreed(Scene(s.log, s.current), s.current, cfg.personas)
    ensures forall p | p in cfg.personas :: HasAgreed(s.log, s.current, p)
    ensures Position(cfg, s.log).Entered? && Position(cfg, s.log).asked
  {
    AllAgreedMeaning(Scene(s.log, s.current), s.current, cfg.personas);
    forall p | p in cfg.personas ensures HasAgreed(s.log, s.current, p) {
      AgreementLocal(s.log, s.current, p);
    }
    AgreementMeansAsked(cfg, s, cfg.personas[0]);
  }

  lemma AdvanceKeeps(cfg: Config, s: Session, idx: nat, agree: bool)
    requires ValidConfig(cfg) && SessionInv(cfg, s)
    requires CommitAdvance(cfg, s, idx, agree).Ok?
    ensures var t := CommitAdvance(cfg, s, idx, agree).value; SessionInv(cfg, t) && Grown(s.log, t.log)
  {
    NumberedNext(s.log);
    if agree {
      GateMeans(cfg, s);
    }
    LeaveRead(cfg, s.log, NextNo(s.log), idx, agree);
    var rows := LeaveRows(cfg, NextNo(s.log), idx, agree);
    LeaveQuiet(cfg, s.log, idx, agree);
    QuietKeeps(cfg, s, rows, CommitAdvance(cfg, s, idx, agree).value);
  }

  function LeaveRows(cfg: Config, no: nat, idx: nat, agree: bool): seq<Row> {
    var leave := Row(no, idx, System(if agree then AgreeAdvance else SkipScene));
    if idx + 1 < |cfg.prompts| then [leave] else [leave, Row(no + 1, idx, System(End(LastPhase)))]
  }

  lemma LeaveQuiet(cfg: Config, log: seq<Row>, idx: nat, agree: bool)
    requires agree ==> forall p | p in cfg.personas :: HasAgreed(log, idx, p)
    ensures Quiet(cfg, log, LeaveRows(cfg, |log| + 1, idx, agree))
  {
  }

  lemma FinishKeeps(cfg: Config, s: Session, idx: nat)
    requires ValidConfig(cfg) && SessionInv(cfg, s)
    requires CommitFinish(s, idx).Ok?
    ensures var t := CommitFinish(s, idx).value; SessionInv(cfg, t) && Grown(s.log, t.log)
  {
    NumberedNext(s.log);
    var end := Row(NextNo(s.log), idx, System(End(FinishButton)));
    PositionStep(cfg, s.log, end);
    QuietKeeps(cfg, s, [end], CommitFinish(s, idx).value);
  }

  // ----------------------------------------------------------- regenerate

  predicate Increasing(rows: seq<Row>) {
    forall i, j | 0 <= i < j < |rows| :: rows[i].no < rows[j].no
  }

  lemma {:induction false} SelectIncreasing(rows: seq<Row>, q: Query)
    requires Increasing(rows)
    ensures Increasing(Select(rows, q))
  {
    if rows != [] {
      var n := |rows| - 1;
      SelectIncreasing(rows[..n], q);
      forall r | r in Select(rows[..n], q) ensures r.no < rows[n].no {
        SelectMembers(rows[..n], q, r);
      }
      var out := Select(rows, q);
      forall i, j | 0 <= i < j < |out| ensures out[i].no < out[j].no {
        assert out[i] in Select(rows[..n], q);
      }
    }
  }

  /** A row read into a snapshot is still the row of that number, up to its answer. */
  lemma SnapshotRow(stored: seq<Row>, log: seq<Row>, idx: nat, r: Row)
    requires Numbered(log) && SnapshotOf(stored, log, idx) && r in stored
    ensures 1 <= r.no <= |log| && Shape(log[r.no - 1]) == Shape(r) && r.phase == idx
  {
    var k :| 0 <= k < |stored| && stored[k] == r;
    var now := Scene(log, idx);
    assert Shape(stored[k]) == Shape(now[..|stored|][k]);
    SelectMembers(log, InScene(idx), now[k]);
    var j :| 0 <= j < |log| && log[j] == now[k];
  }

  /** The loaded row is in the log, and it is the student's first of the scene
      exactly as the request saw it. */
  lemma LoadedInLog(cfg: Config, s: Session, call: Pending)
    requires SessionInv(cfg, s) && LoadedFailed(call) && PendingInv(cfg, s, call)
    ensures var row := LoadedRow(call);
      && 1 <= row.no <= |s.log| && Shape(s.log[row.no - 1]) == Shape(row)
      && row.phase == call.idx && Matches(OfPersona(call.persona), row)
      && (FirstOfScene(s.log, row.no - 1) ==> RegenerateContext(call).first)
  {
    var q := OfPersona(call.persona);
    var mine := Select(call.stored, q);
    var row := LoadedRow(call);
    SelectMembers(call.stored, q, row);
    SnapshotRow(call.stored, s.log, call.idx, row);
    if |mine| > 1 {
      var first := mine[0];
      SelectMembers(call.stored, q, first);
      SnapshotRow(call.stored, s.log, call.idx, first);
      SnapshotIncreasing(call.stored, s.log, call.idx);
      SelectIncreasing(call.stored, q);
      var before := s.log[..row.no - 1];
      assert before[first.no - 1] == s.log[first.no - 1];
      SelectMembers(before, InScene(call.idx), s.log[first.no - 1]);
      SelectMembers(Scene(before, call.idx), q, s.log[first.no - 1]);
      assert !FirstOfScene(s.log, row.no - 1);
    }
  }

  lemma SnapshotIncreasing(stored: seq<Row>, log: seq<Row>, idx: nat)
    requires Numbered(log) && SnapshotOf(stored, log, idx)
    ensures Increasing(stored)
  {
    SelectIncreasing(log, InScene(idx));
    var now := Scene(log, idx);
    forall i, j | 0 <= i < j < |stored| ensures stored[i].no < stored[j].no {
      assert Shape(stored[i]) == Shape(now[..|stored|][i]);
      assert Shape(stored[j]) == Shape(now[..|stored|][j]);
    }
  }

  lemma {:induction false} SelectScored(rows: seq<Row>, q: Query)
    requires Scored(rows)
    ensures Scored(Select(rows, q))
  {
    var out := Select(rows, q);
    forall i | 0 <= i < |out| && Valid(out[i]) ensures ScoreOk(out[i].speaker.structured.value) {
      SelectMembers(rows, q, out[i]);
    }
  }

  /** The fresh answer of a regenerate, whatever the model said. */
  lemma PatchScored(cfg: Config, call: Pending, result: LlmResult, sends: bool)
    requires LoadedFailed(call) && Scored(call.stored)
    ensures var p := RegeneratePatch(cfg, call, result, sends);
      p.structured.Some? ==>
        && ScoreOk(p.structured.value)
        && (RegenerateContext(call).first ==> p.structured.value.understanding.value < AGREE_THRESHOLD)
  {
    var mine := Select(call.stored, OfPersona(call.persona));
    SelectScored(call.stored, OfPersona(call.persona));
    assert Scored(mine[..|mine| - 1]);
    PreviousInRange(mine[..|mine| - 1], call.persona);
    if result.Parsed? {
      SettledRowBounds(cfg.rules, result.raw, RegenerateContext(call));
    }
  }

  lemma AmendFirst(log: seq<Row>, p: Patch, i: nat)
    requires i < |log|
    ensures FirstOfScene(Amend(log, p), i) == FirstOfScene(log, i)
  {
    assert Amend(log, p)[..i] == Amend(log[..i], p);
    if log[i].speaker.Student? {
      SelectAmend(log[..i], p, InScene(log[i].phase));
      SelectAmend(Scene(log[..i], log[i].phase), p, OfPersona(log[i].speaker.persona));
    }
  }

  /** Rewriting a row of scene `idx` leaves what is agreed in any other scene. */
  lemma AmendElsewhere(rows: seq<Row>, p: Patch, idx: nat, scene: nat, q: nat)
    requires forall i | 0 <= i < |rows| && rows[i].no == p.no :: rows[i].phase == idx
    requires scene != idx && HasAgreed(rows, scene, q)
    ensures HasAgreed(Amend(rows, p), scene, q)
  {
    var i :| 0 <= i < |rows| && AgreeingRow(rows[i], scene, q);
    assert Amend(rows, p)[i] == rows[i];
  }

  lemma AmendBacked(cfg: Config, log: seq<Row>, p: Patch, idx: nat)
    requires AgreeBacked(cfg, log)
    requires forall i | 0 <= i < |log| && log[i].no == p.no :: log[i].phase == idx
    requires forall j | 0 <= j < |log| && IsAgree(log[j]) :: log[j].phase != idx
    ensures AgreeBacked(cfg, Amend(log, p))
  {
    var out := Amend(log, p);
    forall j, q | 0 <= j < |out| && IsAgree(out[j]) && q in cfg.personas
      ensures HasAgreed(out[..j], out[j].phase, q)
    {
      assert IsAgree(log[j]) && out[j] == log[j];
      assert out[..j] == Amend(log[..j], p);
      AmendElsewhere(log[..j], p, idx, log[j].phase, q);
    }
  }

  /** In an open scene no transition has been written yet. */
  lemma NoTransitionYet(cfg: Config, log: seq<Row>, j: nat)
    requires ValidConfig(cfg) && Position(cfg, log) != Broken && j < |log| && Matches(Transition, log[j])
    ensures Position(cfg, log).EndDue? || Position(cfg, log).Done? || log[j].phase < Position(cfg, log).scene
    decreases |log| - j
  {
    var n := |log| - 1;
    PrefixRead(cfg, log, n);
    if j < n {
      NoTransitionYet(cfg, log[..n], j);
    }
  }

  lemma AmendScored(log: seq<Row>, p: Patch)
    requires Scored(log) && (p.structured.Some? ==> ScoreOk(p.structured.value))
    ensures Scored(Amend(log, p))
  {
  }

  lemma AmendCapped(log: seq<Row>, p: Patch)
    requires EntryCapped(log)
    requires forall i | 0 <= i < |log| && log[i].no == p.no && FirstOfScene(log, i) && p.structured.Some? ::
               p.structured.value.understanding.Some? && p.structured.value.understanding.value < AGREE_THRESHOLD
    ensures EntryCapped(Amend(log, p))
  {
    var out := Amend(log, p);
    forall i | 0 <= i < |out| && FirstOfScene(out, i) ensures Low(out[i]) {
      AmendFirst(log, p, i);
      assert Low(log[i]);
    }
  }

  lemma AmendRunningBacked(cfg: Config, s: Session, p: Patch)
    requires ValidConfig(cfg) && SessionInv(cfg, s) && s.running
    requires 1 <= p.no <= |s.log| && s.log[p.no - 1].phase == s.current
    ensures AgreeBacked(cfg, Amend(s.log, p))
  {
    forall j | 0 <= j < |s.log| && IsAgree(s.log[j]) ensures s.log[j].phase != s.current {
      NoTransitionYet(cfg, s.log, j);
    }
    AmendBacked(cfg, s.log, p, s.current);
  }

  /** Rewriting one answer of the open scene with a settled one keeps everything. */
  lemma AmendKeeps(cfg: Config, s: Session, p: Patch)
    requires ValidConfig(cfg) && SessionInv(cfg, s) && s.running
    requires 1 <= p.no <= |s.log| && s.log[p.no - 1].phase == s.current
    requires p.structured.Some? ==> ScoreOk(p.structured.value)
    requires p.structured.Some? && FirstOfScene(s.log, p.no - 1) ==> p.structured.value.understanding.value < AGREE_THRESHOLD
    ensures SessionInv(cfg, s.(log := Amend(s.log, p))) && Grown(s.log, Amend(s.log, p))
  {
    AmendShape(s.log, p);
    PositionShape(cfg, s.log, Amend(s.log, p));
    SelectShape(s.log, Amend(s.log, p), UserTurn);
    AmendScored(s.log, p);
    AmendCapped(s.log, p);
    AmendRunningBacked(cfg, s, p);
    GrownAmend(s.log, p);
  }

  lemma RegenerateKeeps(cfg: Config, s: Session, call: Pending, result: LlmResult, sends: bool)
    requires ValidConfig(cfg) && SessionInv(cfg, s) && LoadedFailed(call) && PendingInv(cfg, s, call)
    requires CommitRegenerate(cfg, s, call, result, sends).Ok?
    ensures var t := CommitRegenerate(cfg, s, call, result, sends).value; SessionInv(cfg, t) && Grown(s.log, t.log)
  {
    LoadedInLog(cfg, s, call);
    PatchScored(cfg, call, result, sends);
    AmendKeeps(cfg, s, RegeneratePatch(cfg, call, result, sends));
  }

  // ----------------------------------------------------------------- steps

  lemma CommitKeeps(cfg: Config, s: Session, p: Pending, results: seq<LlmResult>, sends: bool)
    requires ValidConfig(cfg) && SessionInv(cfg, s) && PendingInv(cfg, s, p)
    requires |results| == Calls(cfg, p) && CommitCall(cfg, s, p, results, sends).Ok?
    ensures var t := CommitCall(cfg, s, p, results, sends).value; SessionInv(cfg, t) && Grown(s.log, t.log)
  {
    match p
    case EnterCall(idx) => EnterKeeps(cfg, s, idx, results);
    case SayCall(_, _, _, _) => SayKeeps(cfg, s, p, results);
    case AdvanceCall(idx, agree) => AdvanceKeeps(cfg, s, idx, agree);
    case FinishCall(idx) => FinishKeeps(cfg, s, idx);
    case RegenerateCall(_, _, _) => RegenerateKeeps(cfg, s, p, results[0], sends);
  }

  lemma ReadKeeps(cfg: Config, s: Session, req: Request)
    requires ValidConfig(cfg) && SessionInv(cfg, s)
    ensures var r := Read(cfg, s, req); r.Ok? && r.value.Some? ==> PendingInv(cfg, s, r.value.value)
  {
    SelectScored(s.log, InScene(s.current));
    var stored := Scene(s.log, s.current);
    assert stored[..|stored|] == stored;
  }

  /** One step of anything keeps the invariant and only grows the log. */
  lemma StepKeeps(cfg: Config, w: World, a: Act)
    requires ValidConfig(cfg) && Inv(cfg, w)
    ensures Inv(cfg, Step(cfg, w, a))
    ensures Grown(w.session.log, Step(cfg, w, a).session.log)
  {
    GrownAppend(w.session.log, []);
    assert w.session.log + [] == w.session.log;
    if Enabled(cfg, w, a) {
      match a
      case Start(id, request) => ReadKeeps(cfg, w.session, request);
      case Commit(id, results, sends) =>
        var r := CommitCall(cfg, w.session, w.pending[id], results, sends);
        if r.Ok? {
          CommitKeeps(cfg, w.session, w.pending[id], results, sends);
          forall k | k in w.pending ensures PendingInv(cfg, r.value, w.pending[k]) {
            PendingKept(cfg, w.session, r.value, w.pending[k]);
          }
        }
      case Abandon(id) =>
    }
  }

  lemma CreatedInv(cfg: Config)
    requires ValidConfig(cfg)
    ensures Inv(cfg, Created)
  {
  }

  lemma {:induction false} ExecKeeps(cfg: Config, w: World, acts: seq<Act>)
    requires ValidConfig(cfg) && Inv(cfg, w)
    ensures Inv(cfg, Exec(cfg, w, acts))
  {
    if acts != [] {
      var n := |acts| - 1;
      ExecKeeps(cfg, w, acts[..n]);
      StepKeeps(cfg, Exec(cfg, w, acts[..n]), acts[n]);
    }
  }

  /** Every world any run reaches satisfies the invariant. */
  lemma Reachable(cfg: Config, acts: seq<Act>)
    requires ValidConfig(cfg)
    ensures Inv(cfg, Exec(cfg, Created, acts))
  {
    CreatedInv(cfg);
    ExecKeeps(cfg, Created, acts);
  }

  // ------------------------------------------------------- waiting and stale

  /** In every reachable world a waiting call can commit, whatever the model answered: no
      guard of the model stands in the way of one. */
  lemma WaitingCanCommit(cfg: Config, acts: seq<Act>, id: nat, results: seq<LlmResult>, sends: bool)
    requires ValidConfig(cfg) && id in Exec(cfg, Created, acts).pending
    requires |results| == Calls(cfg, Exec(cfg, Created, acts).pending[id])
    ensures Enabled(cfg, Exec(cfg, Created, acts), Commit(id, results, sends))
  {
    Reachable(cfg, acts);
    assert PendingInv(cfg, Exec(cfg, Created, acts).session, Exec(cfg, Created, acts).pending[id]);
  }

  /** And what it has read is scored, so every score it measures against is in range. */
  lemma WaitingIsScored(cfg: Config, acts: seq<Act>, id: nat, persona: nat)
    requires ValidConfig(cfg) && id in Exec(cfg, Created, acts).pending
    requires var call := Exec(cfg, Created, acts).pending[id]; call.SayCall? || call.RegenerateCall?
    ensures InRange(PreviousUnderstanding(Exec(cfg, Created, acts).pending[id].stored, persona))
  {
    Reachable(cfg, acts);
    var w := Exec(cfg, Created, acts);
    assert PendingInv(cfg, w.session, w.pending[id]);
    PreviousInRange(w.pending[id].stored, persona);
  }

  /** A commit that finds the session finished or in another scene than it has read writes
      nothing and is told which; a commit that writes has found neither. */
  lemma StaleWritesNothing(cfg: Config, s: Session, call: Pending, results: seq<LlmResult>, sends: bool)
    requires SessionInv(cfg, s) && PendingInv(cfg, s, call) && |results| == Calls(cfg, call)
    ensures var step := CommitCall(cfg, s, call, results, sends);
      && (step.Ok? ==> s.running && s.current == call.idx)
      && (!s.running ==> step == Err(SessionFinished))
      && (s.running && s.current != call.idx ==> step == Err(if call.EnterCall? then PhaseNotCurrent else ConflictRetry))
  {
  }
}
