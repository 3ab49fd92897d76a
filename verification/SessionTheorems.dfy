/** What holds of a session after every run of overlapping requests. */
module SessionTheorems {
  import opened Wrappers
  import opened Reaction
  import opened Transcript
  import opened Agreement
  import opened SessionProtocol
  import opened SessionGrammar
  import opened SessionInvariant

  function After(cfg: Config, acts: seq<Act>): Session { Exec(cfg, Created, acts).session }

  /** The log ends here with no block half written. */
  predicate Whole(p: Pos) { p.Fresh? || p.Entered? || p.Done? }

  predicate IsEnter(r: Row) { r.speaker == System(PhaseEnter) }

  predicate IsTransition(r: Row) { Matches(Transition, r) }

  predicate IsEnd(r: Row) { Matches(EndRow, r) }

  // --------------------------------------------------------------- grammar

  /** In every interleaving the log is numbered from 1 without gaps, is a word of
      the grammar with no block half written, and stands where the session row says;
      in a running session the scene has a row exactly when it was entered. */
  lemma LogIsWord(cfg: Config, acts: seq<Act>)
    requires ValidConfig(cfg)
    ensures var s := After(cfg, acts);
      && Numbered(s.log)
      && Placed(cfg, s) && Whole(Position(cfg, s.log))
      && (s.running ==> (Scene(s.log, s.current) != [] <==>
                         exists i :: 0 <= i < |s.log| && IsEnter(s.log[i]) && s.log[i].phase == s.current))
  {
    Reachable(cfg, acts);
    var s := After(cfg, acts);
    if s.running {
      EnteredMeansRows(cfg, s);
      if Scene(s.log, s.current) != [] {
        EnteredHasEnter(cfg, s.log);
      }
      if i :| 0 <= i < |s.log| && IsEnter(s.log[i]) && s.log[i].phase == s.current {
        SelectMembers(s.log, InScene(s.current), s.log[i]);
      }
    }
  }

  /** A scene that is being answered or entered has its enter row. */
  lemma {:induction false} EnteredHasEnter(cfg: Config, log: seq<Row>)
    requires var p := Position(cfg, log); p.PlanDue? || p.Answering? || p.Entered?
    ensures exists i :: 0 <= i < |log| && IsEnter(log[i]) && log[i].phase == Position(cfg, log).scene
  {
    var n := |log| - 1;
    if IsEnter(log[n]) {
    } else {
      EnteredHasEnter(cfg, log[..n]);
      var i :| 0 <= i < n && IsEnter(log[..n][i]) && log[..n][i].phase == Position(cfg, log[..n]).scene;
      assert IsEnter(log[i]);
    }
  }

  /** Scenes come in index order. */
  lemma {:induction false} ScenesInOrder(cfg: Config, log: seq<Row>, i: nat, j: nat)
    requires ValidConfig(cfg) && Position(cfg, log) != Broken
    requires i <= j < |log|
    ensures log[i].phase <= log[j].phase
  {
    ReadAt(cfg, log, j);
    PositionDescribes(cfg, log[..j]);
    if i < j {
      assert log[..j][i] == log[i];
    }
  }

  /** No scene is entered twice. */
  lemma EnteredOnce(cfg: Config, log: seq<Row>, i: nat, j: nat)
    requires ValidConfig(cfg) && Position(cfg, log) != Broken
    requires i < j < |log| && IsEnter(log[i]) && IsEnter(log[j])
    ensures log[i].phase < log[j].phase
  {
    ReadAt(cfg, log, j);
    PositionDescribes(cfg, log[..j]);
    ScenesInOrder(cfg, log, i, j);
    assert log[..j][i] == log[i];
    if log[i].phase == log[j].phase {
      SelectMembers(log[..j], InScene(log[j].phase), log[i]);
    }
  }

  /** After a transition row comes a later scene, or the end row as the last row. */
  lemma TransitionCloses(cfg: Config, log: seq<Row>, i: nat, j: nat)
    requires ValidConfig(cfg) && Position(cfg, log) != Broken
    requires i < j < |log| && IsTransition(log[i])
    ensures log[i].phase < log[j].phase || (IsEnd(log[j]) && j == i + 1)
  {
    ReadAt(cfg, log, j);
    assert log[..j][i] == log[i];
    NoTransitionYet(cfg, log[..j], i);
    var p := Position(cfg, log[..j]);
    if p.EndDue? {
      EndDueAfter(cfg, log[..j], i);
    }
  }

  lemma EndDueAfter(cfg: Config, log: seq<Row>, i: nat)
    requires ValidConfig(cfg) && Position(cfg, log).EndDue? && i < |log| && IsTransition(log[i])
    ensures log[i].phase < Position(cfg, log).scene || i == |log| - 1
  {
    var n := |log| - 1;
    if i < n {
      NoTransitionYet(cfg, log[..n], i);
    }
  }

  /** Nothing follows an end row. */
  lemma EndIsLast(cfg: Config, log: seq<Row>, i: nat)
    requires Position(cfg, log) != Broken && i < |log| && IsEnd(log[i])
    ensures i == |log| - 1
  {
    if i < |log| - 1 {
      ReadAt(cfg, log, i);
      ReadAt(cfg, log, i + 1);
      assert false;
    }
  }

  /** The rows from `n` on are one answer of each of `rest`, in that order. */
  predicate AnswersAt(log: seq<Row>, n: nat, scene: nat, rest: seq<nat>) {
    n + |rest| <= |log|
    && forall k | n <= k < n + |rest| :: log[k].phase == scene && Matches(OfPersona(rest[k - n]), log[k])
  }

  /** The next answer is the one that is due. */
  lemma AnswerNext(cfg: Config, log: seq<Row>, n: nat)
    requires n < |log| && Position(cfg, log) != Broken
    requires Position(cfg, log[..n]).Answering? && Position(cfg, log[..n]).rest != []
    ensures var p := Position(cfg, log[..n]); var q := Position(cfg, log[..n + 1]);
      && log[n].phase == p.scene && Matches(OfPersona(p.rest[0]), log[n])
      && (|p.rest| > 1 ==> q.Answering? && q.scene == p.scene && q.rest == p.rest[1..])
  {
    ReadAt(cfg, log, n);
  }

  lemma AnswersCons(log: seq<Row>, n: nat, scene: nat, rest: seq<nat>)
    requires n < |log| && rest != [] && log[n].phase == scene && Matches(OfPersona(rest[0]), log[n])
    requires |rest| > 1 ==> AnswersAt(log, n + 1, scene, rest[1..])
    ensures AnswersAt(log, n, scene, rest)
  {
    forall k | n < k < n + |rest| ensures log[k].phase == scene && Matches(OfPersona(rest[k - n]), log[k]) {
      assert rest[k - n] == rest[1..][k - (n + 1)];
    }
  }

  /** From an answering position the responders follow in order, one row each. */
  lemma {:induction false} AnswersFollow(cfg: Config, log: seq<Row>, n: nat)
    requires n <= |log| && Position(cfg, log[..n]).Answering? && Position(cfg, log[..n]).rest != []
    requires Whole(Position(cfg, log))
    ensures AnswersAt(log, n, Position(cfg, log[..n]).scene, Position(cfg, log[..n]).rest)
    decreases |log| - n
  {
    assert log[..|log|] == log;
    if n == |log| {
      assert false;
    } else {
      var p := Position(cfg, log[..n]);
      AnswerNext(cfg, log, n);
      if |p.rest| > 1 {
        AnswersFollow(cfg, log, n + 1);
      }
      AnswersCons(log, n, p.scene, p.rest);
    }
  }

  /** After an enter row the planned question is due. */
  lemma AfterEnter(cfg: Config, log: seq<Row>, i: nat)
    requires Position(cfg, log) != Broken && i < |log| && IsEnter(log[i])
    ensures Position(cfg, log[..i + 1]) == PlanDue(log[i].phase)
  {
    ReadAt(cfg, log, i);
  }

  /** What is read when the planned question is due. */
  lemma AfterPlan(cfg: Config, log: seq<Row>, i: nat, scene: nat)
    requires Position(cfg, log) != Broken && i < |log| && Position(cfg, log[..i]) == PlanDue(scene)
    ensures log[i].phase == scene < |cfg.prompts| && log[i].speaker == Teacher(Plan, None, cfg.prompts[scene])
    ensures Position(cfg, log[..i + 1]) == Answering(scene, cfg.personas, false)
  {
    ReadAt(cfg, log, i);
  }

  /** An enter row is followed by the planned question and one answer per seat in
      seat order. */
  lemma EntryBlock(cfg: Config, log: seq<Row>, i: nat)
    requires ValidConfig(cfg) && Whole(Position(cfg, log))
    requires i < |log| && IsEnter(log[i])
    ensures i + 1 < |log| && log[i].phase < |cfg.prompts|
    ensures log[i + 1].phase == log[i].phase
    ensures log[i + 1].speaker == Teacher(Plan, None, cfg.prompts[log[i].phase])
    ensures AnswersAt(log, i + 2, log[i].phase, cfg.personas)
  {
    AfterEnter(cfg, log, i);
    assert log[..|log|] == log;
    assert i + 1 < |log|;
    AfterPlan(cfg, log, i + 1, log[i].phase);
    AnswersFollow(cfg, log, i + 2);
  }

  /** A user turn comes only after the entry block of its scene and is followed by
      one answer per responder in seat order. */
  lemma SayBlock(cfg: Config, log: seq<Row>, i: nat)
    requires ValidConfig(cfg) && Whole(Position(cfg, log))
    requires i < |log| && Matches(UserTurn, log[i])
    ensures HeardAll(log[..i], log[i].phase, cfg.personas)
    ensures AnswersAt(log, i + 1, log[i].phase, Responders(cfg.personas, log[i].speaker.target))
  {
    ReadAt(cfg, log, i);
    PositionDescribes(cfg, log[..i]);
    AnswersFollow(cfg, log, i + 1);
  }

  // ------------------------------------------------------------- agreement

  /** Every transition by agreement has, before it and in its scene, an agreeing
      reaction of every student and a teacher turn of the user. */
  lemma AgreementWasEarned(cfg: Config, acts: seq<Act>, j: nat, persona: nat)
    requires ValidConfig(cfg) && j < |After(cfg, acts).log| && IsAgree(After(cfg, acts).log[j])
    requires persona in cfg.personas
    ensures var log := After(cfg, acts).log;
      HasAgreed(log[..j], log[j].phase, persona) && Asked(log[..j], log[j].phase)
  {
    Reachable(cfg, acts);
    AgreementAsked(cfg, After(cfg, acts).log, j);
  }

  lemma AgreementAsked(cfg: Config, log: seq<Row>, j: nat)
    requires ValidConfig(cfg) && Position(cfg, log) != Broken
    requires j < |log| && IsAgree(log[j])
    ensures Asked(log[..j], log[j].phase)
  {
    ReadAt(cfg, log, j);
    PositionDescribes(cfg, log[..j]);
  }

  /** A log has never more agreements than user turns, and one fewer while a scene
      somebody was asked in is open. */
  lemma {:induction false} AgreementsCounted(cfg: Config, log: seq<Row>)
    requires Position(cfg, log) != Broken
    ensures var p := Position(cfg, log);
      Count(log, AgreedTransition) + (if (p.Answering? || p.Entered?) && p.asked then 1 else 0) <= Count(log, UserTurn)
  {
    if log != [] {
      var n := |log| - 1;
      AgreementsCounted(cfg, log[..n]);
    }
  }

  /** Agreements never outnumber the teacher turns of the user, and those never
      exceed the limit, however requests overlap. */
  lemma TurnsBounded(cfg: Config, acts: seq<Act>)
    requires ValidConfig(cfg)
    ensures Count(After(cfg, acts).log, AgreedTransition) <= Count(After(cfg, acts).log, UserTurn) <= cfg.maxTurns
  {
    Reachable(cfg, acts);
    AgreementsCounted(cfg, After(cfg, acts).log);
  }

  /** Every stored score is in range and below the bar with a misconception; a student's
      first reaction of a scene is below the bar however often it was regenerated. */
  lemma StoredScores(cfg: Config, acts: seq<Act>, i: nat)
    requires ValidConfig(cfg) && i < |After(cfg, acts).log|
    ensures var log := After(cfg, acts).log;
      && (Valid(log[i]) ==> ScoreOk(log[i].speaker.structured.value))
      && (FirstOfScene(log, i) ==> Low(log[i]))
  {
    Reachable(cfg, acts);
    assert SessionInv(cfg, After(cfg, acts));
  }

  // ------------------------------------------------------------------ end

  lemma CountLast(log: seq<Row>, q: Query)
    requires log != []
    ensures Count(log, q) == Count(log[..|log| - 1], q) + (if Matches(q, log[|log| - 1]) then 1 else 0)
  {
  }

  /** Transitions a log at this place has seen. */
  function ScenesLeft(p: Pos): nat
    requires p != Broken
  {
    p.scene + (if p.EndDue? || (p.Done? && p.full) then 1 else 0)
  }

  /** Each scene left has one transition; only a finished log has its one end row. */
  lemma {:induction false} TransitionsCounted(cfg: Config, log: seq<Row>)
    requires Position(cfg, log) != Broken
    ensures Count(log, Transition) == ScenesLeft(Position(cfg, log))
    ensures Count(log, EndRow) == (if Position(cfg, log).Done? then 1 else 0)
  {
    if log != [] {
      TransitionsCounted(cfg, log[..|log| - 1]);
      CountLast(log, Transition);
      CountLast(log, EndRow);
    }
  }

  lemma DoneEndsWith(cfg: Config, log: seq<Row>)
    requires Position(cfg, log).Done?
    ensures log != []
    ensures log[|log| - 1].speaker == System(End(if Position(cfg, log).full then LastPhase else FinishButton))
  {
  }

  /** A session is finished exactly when it has an end row, that row is its last and
      only one, and the transitions tell the scene: as many as `current_phase_idx`,
      one more when the last scene was left. */
  lemma FinishedMeansEnded(cfg: Config, acts: seq<Act>)
    requires ValidConfig(cfg)
    ensures var s := After(cfg, acts);
      && Count(s.log, EndRow) == (if s.running then 0 else 1)
      && (!s.running ==> s.log != [] && s.log[|s.log| - 1].speaker.System? && s.log[|s.log| - 1].speaker.event.End?)
      && Count(s.log, Transition) ==
           s.current + (if !s.running && s.log[|s.log| - 1].speaker == System(End(LastPhase)) then 1 else 0)
  {
    Reachable(cfg, acts);
    TransitionsCounted(cfg, After(cfg, acts).log);
    if !After(cfg, acts).running {
      DoneEndsWith(cfg, After(cfg, acts).log);
    }
  }

  /** Finished is terminal: no request, whatever it has read before, changes anything. */
  lemma {:induction false} FinishedIsTerminal(cfg: Config, w: World, acts: seq<Act>)
    requires !w.session.running
    ensures Exec(cfg, w, acts).session == w.session
  {
    if acts != [] {
      FinishedIsTerminal(cfg, w, acts[..|acts| - 1]);
    }
  }

  /** The log is append-only up to the answers a regenerate rewrites. */
  lemma {:induction false} LogOnlyGrows(cfg: Config, w: World, acts: seq<Act>)
    requires ValidConfig(cfg) && Inv(cfg, w)
    ensures Grown(w.session.log, Exec(cfg, w, acts).session.log)
  {
    if acts == [] {
      GrownAppend(w.session.log, []);
      assert w.session.log + [] == w.session.log;
    } else {
      var n := |acts| - 1;
      var mid := Exec(cfg, w, acts[..n]);
      LogOnlyGrows(cfg, w, acts[..n]);
      ExecKeeps(cfg, w, acts[..n]);
      StepKeeps(cfg, mid, acts[n]);
      GrownTrans(w.session.log, mid.session.log, Exec(cfg, w, acts).session.log);
    }
  }

  /** Scenes go forward and a finished session never runs again. */
  lemma StepAdvances(cfg: Config, w: World, a: Act)
    requires ValidConfig(cfg) && Inv(cfg, w)
    ensures var t := Step(cfg, w, a).session; w.session.current <= t.current && (t.running ==> w.session.running)
  {
  }

  lemma {:induction false} SceneAdvances(cfg: Config, w: World, acts: seq<Act>)
    requires ValidConfig(cfg) && Inv(cfg, w)
    ensures var t := Exec(cfg, w, acts).session; w.session.current <= t.current && (t.running ==> w.session.running)
  {
    if acts != [] {
      var n := |acts| - 1;
      SceneAdvances(cfg, w, acts[..n]);
      ExecKeeps(cfg, w, acts[..n]);
      StepAdvances(cfg, Exec(cfg, w, acts[..n]), acts[n]);
    }
  }

  /** Once the session has finished or left the scene a waiting call has read, that call can
      write nothing ever after, whatever else happens first, and is told which it was. */
  lemma LeftForGood(cfg: Config, before: seq<Act>, id: nat, after: seq<Act>, results: seq<LlmResult>, sends: bool)
    requires ValidConfig(cfg) && id in Exec(cfg, Created, before).pending
    requires var w := Exec(cfg, Created, before); !w.session.running || w.pending[id].idx < w.session.current
    requires |results| == Calls(cfg, Exec(cfg, Created, before).pending[id])
    ensures var w := Exec(cfg, Created, before); var call := w.pending[id]; var s := Exec(cfg, w, after).session;
      && SessionInv(cfg, s) && PendingInv(cfg, s, call)
      && CommitCall(cfg, s, call, results, sends)
         == Err(if !s.running then SessionFinished else if call.EnterCall? then PhaseNotCurrent else ConflictRetry)
  {
    var w := Exec(cfg, Created, before);
    Reachable(cfg, before);
    SceneAdvances(cfg, w, after);
    LogOnlyGrows(cfg, w, after);
    ExecKeeps(cfg, w, after);
    PendingKept(cfg, w.session, Exec(cfg, w, after).session, w.pending[id]);
    StaleWritesNothing(cfg, Exec(cfg, w, after).session, w.pending[id], results, sends);
  }

  lemma GrownTrans(a: seq<Row>, b: seq<Row>, c: seq<Row>)
    requires Grown(a, b) && Grown(b, c)
    ensures Grown(a, c)
  {
    forall i | 0 <= i < |a| ensures Shape(a[i]) == Shape(c[..|a|][i]) {
      assert Shape(a[i]) == Shape(b[..|a|][i]);
      assert Shape(b[i]) == Shape(c[..|b|][i]);
    }
  }
}
