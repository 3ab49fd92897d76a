/** The session service on its stored state: the session row and the utterance table,
    changed in place by the five commits. Each method is shown to do exactly what the
    protocol's step says, errors included. */
module SessionStore {
  import opened Wrappers
  import opened Reaction
  import opened Transcript
  import opened Agreement
  import opened SessionProtocol
  import opened SessionInvariant
  import opened SessionRegenerate
  import opened SessionCommits

  /** `_last_valid`: from the latest row back. */
  method FindLastValid(rows: seq<Row>, persona: nat) returns (s: Option<Stored>)
    ensures s == LastValid(rows, persona)
  {
    var i := |rows|;
    assert rows[..i] == rows;
    while i > 0
      invariant 0 <= i <= |rows|
      invariant LastValid(rows, persona) == LastValid(rows[..i], persona)
    {
      i := i - 1;
      var u := rows[i];
      assert rows[..i + 1][..i] == rows[..i];
      if u.speaker.Student? && u.speaker.persona == persona && u.speaker.structured.Some? {
        return u.speaker.structured;
      }
    }
    s := None;
  }

  /** The context of one reaction, looked up in the rows that were read. */
  method LookUpContext(stored: seq<Row>, persona: nat, first: bool, teacher: string) returns (c: Context)
    ensures c == ContextOf(stored, persona, first, teacher)
  {
    var s := FindLastValid(stored, persona);
    c := if s.None? then Context(first, None, teacher, "", "")
         else Context(first, s.value.understanding, teacher, s.value.artifact, s.value.utterance);
  }

  /** `asked`: the largest teacher number before the failed row. */
  method FindAsked(stored: seq<Row>, no: nat) returns (asked: Option<nat>)
    ensures asked == AskedNo(stored, no)
  {
    asked := None;
    for i := 0 to |stored|
      invariant asked == AskedNo(stored[..i], no)
    {
      var u := stored[i];
      assert stored[..i + 1][..i] == stored[..i];
      if u.speaker.Teacher? && u.no < no && (asked.None? || asked.value < u.no) {
        asked := Some(u.no);
      }
    }
    assert stored[..|stored|] == stored;
  }

  /** The student rows of an entry block, one per seat. */
  method AnswerEntry(cfg: Config, idx: nat, no: nat, results: seq<LlmResult>) returns (answers: seq<Row>)
    requires |results| == |cfg.personas| && JudgesEchoes(cfg.rules)
    ensures answers == EntryReactions(cfg, idx, no, results)
    ensures forall k | 0 <= k < |results| :: Carries(cfg.rules, answers[k], cfg.personas[k], results[k], true, None, "")
  {
    forall k | 0 <= k < |results|
      ensures Carries(cfg.rules, EntryReactions(cfg, idx, no, results)[k], cfg.personas[k], results[k], true, None, "")
    {
      RowCarries(cfg.rules, no + k, idx, cfg.personas[k], results[k], true, [], "");
    }
    answers := [];
    for i := 0 to |results|
      invariant answers == EntryReactions(cfg, idx, no, results)[..i]
    {
      var structured, words := StudentUtterance(cfg.rules, results[i], EntryContext);
      answers := answers + [Row(no + i, idx, Student(cfg.personas[i], structured, words))];
    }
  }

  /** The student rows of a say, judged against what the request had read. */
  method AnswerSay(cfg: Config, call: Pending, no: nat, responders: seq<nat>, results: seq<LlmResult>)
    returns (answers: seq<Row>)
    requires call.SayCall? && |results| == |responders| && JudgesEchoes(cfg.rules) && Scored(call.stored)
    ensures answers == Reactions(cfg, call, no, responders, results)
    ensures |answers| == |results| && AllAnswered(cfg, call, answers, 0, responders, results)
  {
    answers := [];
    for i := 0 to |results|
      invariant answers == Reactions(cfg, call, no, responders, results)[..i]
    {
      PreviousInRange(call.stored, responders[i]);
      var c := LookUpContext(call.stored, responders[i], false, call.words);
      var structured, words := StudentUtterance(cfg.rules, results[i], c);
      answers := answers + [Row(no + i, call.idx, Student(responders[i], structured, words))];
    }
    AnswersOnly(cfg, call, no, responders, results, answers);
  }

  /** The rows of a say: the question and its answers. */
  method BuildSay(cfg: Config, call: Pending, no: nat, results: seq<LlmResult>) returns (rows: seq<Row>)
    requires call.SayCall? && |results| == Calls(cfg, call) && JudgesEchoes(cfg.rules) && Scored(call.stored)
    ensures rows == SayRows(cfg, call, no, results)
  {
    var answers := AnswerSay(cfg, call, no + 1, Responders(cfg.personas, call.target), results);
    rows := [Row(no, call.idx, Teacher(User, call.target, call.words))] + answers;
  }

  /** What a regenerate has loaded: the failed row and what its retry is judged against. The
      question it looks for is always there. */
  method LoadRetry(ghost cfg: Config, ghost s: Session, call: Pending) returns (row: Row, c: Context)
    requires ValidConfig(cfg) && SessionInv(cfg, s) && call.RegenerateCall? && PendingInv(cfg, s, call)
    ensures row == LoadedRow(call) && c == RegenerateContext(call) && InRange(c.previous)
  {
    var mine := Select(call.stored, OfPersona(call.persona));
    row := mine[|mine| - 1];
    var asked := FindAsked(call.stored, row.no);
    ghost var head := AskedFoundIn(cfg, s, call);
    var teacher := WordsAt(call.stored, asked.value);
    SnapshotInRange(call);
    c := LookUpContext(mine[..|mine| - 1], call.persona, |mine| == 1, teacher);
  }

  /** The score a regenerate measures against comes from scored rows. */
  lemma SnapshotInRange(call: Pending)
    requires LoadedFailed(call) && Scored(call.stored)
    ensures InRange(RegenerateContext(call).previous)
  {
    var mine := Select(call.stored, OfPersona(call.persona));
    SelectScored(call.stored, OfPersona(call.persona));
    assert Scored(mine[..|mine| - 1]);
    PreviousInRange(mine[..|mine| - 1], call.persona);
  }

  /** The update of the one row, everywhere else nothing. */
  method Rewrite(log: seq<Row>, p: Patch) returns (rows: seq<Row>)
    ensures rows == Amend(log, p)
  {
    rows := log;
    for i := 0 to |rows|
      invariant |rows| == |log|
      invariant forall k | 0 <= k < i :: rows[k] == PatchRow(log[k], p)
      invariant forall k | i <= k < |rows| :: rows[k] == log[k]
    {
      if rows[i].no == p.no && rows[i].speaker.Student? {
        rows := rows[i := PatchRow(log[i], p)];
      }
    }
  }

  /** A commit did what the protocol's step says: the new state, or an error and nothing. */
  ghost predicate Did(step: Result<Session, Error>, before: Session, error: Option<Error>, after: Session) {
    match step
    case Ok(s) => error == None && after == s
    case Err(e) => error == Some(e) && after == before
  }

  lemma SaidSo(cfg: Config, s: Session, t: Session, call: Pending, results: seq<LlmResult>)
    requires ValidConfig(cfg) && call.SayCall? && PendingInv(cfg, s, call) && |results| == Calls(cfg, call)
    requires SessionProtocol.CommitSay(cfg, s, call, results) == Ok(t)
    ensures Said(cfg, s, t, call, results)
  {
    SayMeans(cfg, s, call, results);
  }

  lemma EnteredSo(cfg: Config, s: Session, t: Session, idx: nat, results: seq<LlmResult>)
    requires ValidConfig(cfg) && SessionInv(cfg, s) && |results| == |cfg.personas|
    requires SessionProtocol.CommitEnter(cfg, s, idx, results) == Ok(t)
    ensures SceneEntered(cfg, s, t, idx, results)
  {
    EnterMeans(cfg, s, idx, results);
  }

  /** What a step leaves, if it does anything, satisfies the invariant and has only grown. */
  ghost predicate Safe(cfg: Config, before: Session, step: Result<Session, Error>) {
    step.Ok? ==> SessionInv(cfg, step.value) && Grown(before.log, step.value.log)
  }

  lemma CommitSafe(cfg: Config, s: Session, call: Pending, results: seq<LlmResult>, sends: bool)
    requires ValidConfig(cfg) && SessionInv(cfg, s) && PendingInv(cfg, s, call) && |results| == Calls(cfg, call)
    ensures Safe(cfg, s, CommitCall(cfg, s, call, results, sends))
  {
    if CommitCall(cfg, s, call, results, sends).Ok? {
      CommitKeeps(cfg, s, call, results, sends);
    }
  }

  lemma DidSafely(cfg: Config, before: Session, step: Result<Session, Error>, error: Option<Error>, after: Session)
    requires Safe(cfg, before, step) && Did(step, before, error, after) && SessionInv(cfg, before)
    ensures SessionInv(cfg, after) && Grown(before.log, after.log)
  {
    GrownAppend(before.log, []);
    assert before.log + [] == before.log;
  }

  class SessionTable {
    const cfg: Config
    var running: bool
    var current: nat
    var log: seq<Row>

    ghost function Snapshot(): Session
      reads this
    {
      Session(running, current, log)
    }

    /** What every reachable session satisfies, the configuration included. */
    ghost predicate Valid()
      reads this
    {
      ValidConfig(cfg) && JudgesEchoes(cfg.rules) && SessionInv(cfg, Snapshot())
    }

    /** `create_session`. */
    constructor (cfg: Config)
      requires ValidConfig(cfg) && JudgesEchoes(cfg.rules)
      ensures this.cfg == cfg && Snapshot() == Created.session && Valid()
    {
      this.cfg := cfg;
      running, current, log := true, 0, [];
      new;
      CreatedInv(cfg);
    }

    /** `_teacher_turns_used`. */
    method TeacherTurnsUsed() returns (n: nat)
      ensures n == Count(log, UserTurn)
    {
      n := 0;
      for i := 0 to |log|
        invariant n == Count(log[..i], UserTurn)
      {
        assert log[..i + 1][..i] == log[..i];
        if log[i].speaker.Teacher? && log[i].speaker.source == User {
          n := n + 1;
        }
      }
      assert log[..|log|] == log;
    }

    /** `next_seq`. */
    method NextSeq() returns (no: nat)
      ensures no == NextNo(log)
    {
      no := 0;
      for i := 0 to |log|
        invariant no == MaxNo(log[..i])
      {
        assert log[..i + 1][..i] == log[..i];
        if log[i].no > no {
          no := log[i].no;
        }
      }
      assert log[..|log|] == log;
      no := no + 1;
    }

    /** `_lock_running`: the conditional no-op UPDATE, then the reason if it hit no row. */
    method LockRunning(idx: nat, moved: Error) returns (error: Option<Error>)
      ensures error == LockError(Snapshot(), idx, moved)
    {
      var rowcount := if running && current == idx then 1 else 0;
      if rowcount > 0 {
        return None;
      }
      if !running {
        return Some(SessionFinished);
      }
      return Some(moved);
    }

    /** The second half of `enter_phase`. */
    method CommitEnter(idx: nat, results: seq<LlmResult>) returns (error: Option<Error>)
      requires Valid() && |results| == |cfg.personas|
      modifies this
      ensures Did(SessionProtocol.CommitEnter(cfg, old(Snapshot()), idx, results), old(Snapshot()), error, Snapshot())
      ensures error.None? ==> SceneEntered(cfg, old(Snapshot()), Snapshot(), idx, results)
    {
      error := LockRunning(idx, PhaseNotCurrent);
      if error.Some? {
        return;
      }
      if Scene(log, idx) != [] {
        EnteredSo(cfg, Snapshot(), Snapshot(), idx, results);
        return;
      }
      var no := NextSeq();
      var answers := AnswerEntry(cfg, idx, no + 2, results);
      log := log + ([Row(no, idx, System(PhaseEnter)), Row(no + 1, idx, Teacher(Plan, None, cfg.prompts[idx]))] + answers);
      EnteredSo(cfg, old(Snapshot()), Snapshot(), idx, results);
    }

    /** The second half of `say`. */
    method CommitSay(call: Pending, results: seq<LlmResult>) returns (error: Option<Error>)
      requires Valid() && call.SayCall? && PendingInv(cfg, Snapshot(), call) && |results| == Calls(cfg, call)
      modifies this
      ensures Did(SessionProtocol.CommitSay(cfg, old(Snapshot()), call, results), old(Snapshot()), error, Snapshot())
      ensures error.None? ==> Said(cfg, old(Snapshot()), Snapshot(), call, results)
    {
      error := LockRunning(call.idx, ConflictRetry);
      if error.Some? {
        return;
      }
      var used := TeacherTurnsUsed();
      if used >= cfg.maxTurns {
        return Some(TurnLimit);
      }
      var no := NextSeq();
      var rows := BuildSay(cfg, call, no, results);
      log := log + rows;
      SaidSo(cfg, old(Snapshot()), Snapshot(), call, results);
    }

    /** `advance`, after its snapshot. */
    method CommitAdvance(idx: nat, agree: bool) returns (error: Option<Error>)
      requires Valid()
      modifies this
      ensures Did(SessionProtocol.CommitAdvance(cfg, old(Snapshot()), idx, agree), old(Snapshot()), error, Snapshot())
      ensures error == Some(NotAllAgreed) <==>
              old(running) && old(current) == idx && agree && exists p :: p in cfg.personas && !HasAgreed(old(log), idx, p)
      ensures error.None? ==> Left(cfg, old(Snapshot()), Snapshot(), idx, agree)
    {
      if SessionProtocol.CommitAdvance(cfg, Snapshot(), idx, agree).Ok? {
        AdvanceMeans(cfg, Snapshot(), idx, agree);
      }
      GateRefuses(cfg, Snapshot(), idx, agree);
      error := LockRunning(idx, ConflictRetry);
      if error.Some? {
        return;
      }
      if agree {
        var verdict := ComputeAgreement(current, cfg.personas, Scene(log, current));
        if !verdict.allAgreed {
          return Some(NotAllAgreed);
        }
      }
      var no := NextSeq();
      var rows := [Row(no, current, System(if agree then AgreeAdvance else SkipScene))];
      if current + 1 < |cfg.prompts| {
        current := current + 1;
      } else {
        rows := rows + [Row(no + 1, current, System(End(LastPhase)))];
        running := false;
      }
      log := log + rows;
    }

    /** `finish`, after its snapshot. */
    method CommitFinish(idx: nat) returns (error: Option<Error>)
      requires Valid()
      modifies this
      ensures Did(SessionProtocol.CommitFinish(old(Snapshot()), idx), old(Snapshot()), error, Snapshot())
      ensures error.None? ==> Ended(old(Snapshot()), Snapshot())
    {
      if SessionProtocol.CommitFinish(Snapshot(), idx).Ok? {
        FinishMeans(cfg, Snapshot(), idx);
      }
      error := LockRunning(idx, ConflictRetry);
      if error.Some? {
        return;
      }
      var no := NextSeq();
      log := log + [Row(no, current, System(End(FinishButton)))];
      running := false;
    }

    /** The second half of `regenerate`: the row is rewritten in place, whatever it
        holds by now. */
    method CommitRegenerate(call: Pending, result: LlmResult, sends: bool) returns (error: Option<Error>)
      requires Valid() && call.RegenerateCall? && PendingInv(cfg, Snapshot(), call)
      modifies this
      ensures Did(SessionProtocol.CommitRegenerate(cfg, old(Snapshot()), call, result, sends), old(Snapshot()), error, Snapshot())
      ensures error.None? ==> Rewrote(cfg, old(Snapshot()), Snapshot(), call, result, sends)
    {
      if SessionProtocol.CommitRegenerate(cfg, Snapshot(), call, result, sends).Ok? {
        RegenerateMeans(cfg, Snapshot(), call, result, sends);
      }
      var row, c := LoadRetry(cfg, Snapshot(), call);
      error := LockRunning(call.idx, ConflictRetry);
      if error.Some? {
        return;
      }
      var structured, words := StudentUtterance(cfg.rules, result, c);
      var p := Patch(row.no, row.speaker.words, structured, words, sends);
      log := Rewrite(log, p);
    }

    // ------------------------------------------------------------------- runs

    /** The commit of a waiting call does what the protocol's step says, and keeps the
        session valid and its log append-only. */
    method Commit(call: Pending, results: seq<LlmResult>, sends: bool) returns (error: Option<Error>)
      requires Valid() && PendingInv(cfg, Snapshot(), call) && |results| == Calls(cfg, call)
      modifies this
      ensures Valid() && Grown(old(log), log)
      ensures Did(CommitCall(cfg, old(Snapshot()), call, results, sends), old(Snapshot()), error, Snapshot())
    {
      CommitSafe(cfg, Snapshot(), call, results, sends);
      match call
      case EnterCall(idx) => error := CommitEnter(idx, results);
      case SayCall(_, _, _, _) => error := CommitSay(call, results);
      case AdvanceCall(idx, agree) => error := CommitAdvance(idx, agree);
      case FinishCall(idx) => error := CommitFinish(idx);
      case RegenerateCall(_, _, _) => error := CommitRegenerate(call, results[0], sends);
      DidSafely(cfg, old(Snapshot()), CommitCall(cfg, old(Snapshot()), call, results, sends), error, Snapshot());
    }

    /** One step of the system on the stored session and the calls that wait. */
    method Perform(pending: map<nat, Pending>, a: Act) returns (waiting: map<nat, Pending>)
      requires Valid() && Inv(cfg, World(Snapshot(), pending))
      modifies this
      ensures Valid() && World(Snapshot(), waiting) == Step(cfg, World(old(Snapshot()), pending), a)
      ensures Inv(cfg, World(Snapshot(), waiting))
    {
      ghost var before := World(Snapshot(), pending);
      StepKeeps(cfg, before, a);
      waiting := pending;
      if Enabled(cfg, World(Session(running, current, log), pending), a) {
        match a
        case Start(id, request) =>
          var r := Read(cfg, Session(running, current, log), request);
          if r.Ok? && r.value.Some? {
            waiting := pending[id := r.value.value];
          }
        case Commit(id, results, sends) =>
          var error := Commit(pending[id], results, sends);
          waiting := pending - {id};
        case Abandon(id) =>
          waiting := pending - {id};
      }
    }

    /** The service run on any acts from a fresh session: its fields and waiting calls are,
        after every run, those the protocol says. No precondition of a commit is ever in
        the way of a waiting call. */
    method Serve(acts: seq<Act>) returns (waiting: map<nat, Pending>)
      requires Valid() && Snapshot() == Created.session
      modifies this
      ensures Valid() && World(Snapshot(), waiting) == Exec(cfg, Created, acts)
    {
      waiting := map[];
      CreatedInv(cfg);
      for i := 0 to |acts|
        invariant Valid() && World(Snapshot(), waiting) == Exec(cfg, Created, acts[..i])
        invariant Inv(cfg, World(Snapshot(), waiting))
      {
        assert acts[..i + 1][..i] == acts[..i];
        waiting := Perform(waiting, acts[i]);
      }
      assert acts[..|acts|] == acts;
    }
  }
}
