/** How fast a student's understanding can rise within a scene, in every
    interleaving: shared snapshots and overlapping regenerates included. */
module SessionScores {
  import opened Wrappers
  import opened Reaction
  import opened Transcript
  import opened Agreement
  import opened SessionProtocol
  import opened SessionGrammar
  import opened SessionInvariant

  function Score(r: Row): int
    requires Valid(r) && r.speaker.structured.value.understanding.Some?
  {
    r.speaker.structured.value.understanding.value
  }

  predicate AtMost(r: Row, bound: int) {
    Valid(r) ==> r.speaker.structured.value.understanding.Some? && Score(r) <= bound
  }

  /** The `i`-th row of the student is at most 20 points per step above `e`. */
  predicate Rising(mine: seq<Row>, e: int) {
    forall i | 0 <= i < |mine| :: AtMost(mine[i], e + UNDERSTANDING_MAX_RISE * i)
  }

  /** The student's entry row parsed, with value `e`. */
  predicate Anchored(mine: seq<Row>, e: int) {
    mine != [] && Valid(mine[0]) && mine[0].speaker.structured.value.understanding == Some(e)
  }

  predicate RisingFrom(mine: seq<Row>, e: int) { Anchored(mine, e) && Rising(mine, e) }

  predicate PendingRises(call: Pending, c: nat, p: nat, e: int) {
    (call.SayCall? || (call.RegenerateCall? && call.persona == p)) && call.idx == c
    ==> RisingFrom(Select(call.stored, OfPersona(p)), e)
  }

  predicate RiseInv(w: World, c: nat, p: nat, e: int) {
    RisingFrom(Mine(w.session.log, c, p), e)
    && forall id | id in w.pending :: PendingRises(w.pending[id], c, p, e)
  }

  // ------------------------------------------------------ previous reaction

  /** The previous understanding comes from a row of the student that was read. */
  lemma {:induction false} PreviousFrom(rows: seq<Row>, p: nat, e: int)
    requires RisingFrom(Select(rows, OfPersona(p)), e)
    ensures PreviousUnderstanding(rows, p).Some?
    ensures PreviousUnderstanding(rows, p).value <= e + UNDERSTANDING_MAX_RISE * (|Select(rows, OfPersona(p))| - 1)
  {
    var q := OfPersona(p);
    var n := |rows| - 1;
    var mine := Select(rows, q);
    if Matches(q, rows[n]) {
      assert mine == Select(rows[..n], q) + [rows[n]];
      var k := |mine| - 1;
      if rows[n].speaker.structured.Some? {
        assert AtMost(mine[k], e + UNDERSTANDING_MAX_RISE * k);
      } else {
        RisingPrefix(mine, e, k);
        assert mine[..k] == Select(rows[..n], q);
        PreviousFrom(rows[..n], p, e);
      }
    } else {
      assert mine == Select(rows[..n], q);
      PreviousFrom(rows[..n], p, e);
    }
  }

  lemma RisingPrefix(mine: seq<Row>, e: int, k: nat)
    requires RisingFrom(mine, e) && k < |mine| && !Valid(mine[k])
    ensures RisingFrom(mine[..k], e)
  {
    assert k > 0;
    assert mine[..k][0] == mine[0];
  }

  lemma RisingAppend(mine: seq<Row>, more: seq<Row>, e: int)
    requires RisingFrom(mine, e)
    requires forall r | r in more :: AtMost(r, e + UNDERSTANDING_MAX_RISE * |mine|)
    ensures RisingFrom(mine + more, e)
  {
    var all := mine + more;
    assert all[0] == mine[0];
    forall i | 0 <= i < |all| ensures AtMost(all[i], e + UNDERSTANDING_MAX_RISE * i) {
      if i < |mine| {
        assert AtMost(mine[i], e + UNDERSTANDING_MAX_RISE * i);
      } else {
        assert all[i] in more;
        assert UNDERSTANDING_MAX_RISE * |mine| <= UNDERSTANDING_MAX_RISE * i;
      }
    }
  }

  // --------------------------------------------------------------- appends

  lemma RowsOfNobody(rows: seq<Row>, c: nat, p: nat)
    requires forall r | r in rows :: r.phase != c || !Matches(OfPersona(p), r)
    ensures Mine(rows, c, p) == []
  {
    forall r | r in Scene(rows, c) ensures !Matches(OfPersona(p), r) {
      SelectMembers(rows, InScene(c), r);
    }
    SelectNone(Scene(rows, c), OfPersona(p));
  }

  lemma MineMembers(rows: seq<Row>, c: nat, p: nat, r: Row)
    ensures r in Mine(rows, c, p) <==> r in rows && r.phase == c && Matches(OfPersona(p), r)
  {
    SelectMembers(rows, InScene(c), r);
    SelectMembers(Scene(rows, c), OfPersona(p), r);
  }

  /** The rows of the student in the scene show at most `bound`. */
  ghost predicate UnderLine(rows: seq<Row>, c: nat, p: nat, bound: int) {
    forall i | 0 <= i < |rows| && rows[i].phase == c && Matches(OfPersona(p), rows[i]) :: AtMost(rows[i], bound)
  }

  lemma AppendRises(log: seq<Row>, rows: seq<Row>, c: nat, p: nat, e: int)
    requires RisingFrom(Mine(log, c, p), e)
    requires UnderLine(rows, c, p, e + UNDERSTANDING_MAX_RISE * |Mine(log, c, p)|)
    ensures RisingFrom(Mine(log + rows, c, p), e)
  {
    MineAppend(log, rows, c, p);
    forall r | r in Mine(rows, c, p) ensures AtMost(r, e + UNDERSTANDING_MAX_RISE * |Mine(log, c, p)|) {
      MineMembers(rows, c, p, r);
    }
    RisingAppend(Mine(log, c, p), Mine(rows, c, p), e);
  }

  /** What was read of the student is no longer than what the log holds now. */
  lemma SnapshotShorter(stored: seq<Row>, log: seq<Row>, c: nat, p: nat)
    requires SnapshotOf(stored, log, c)
    ensures |Select(stored, OfPersona(p))| <= |Mine(log, c, p)|
  {
    var now := Scene(log, c);
    SelectShape(stored, now[..|stored|], OfPersona(p));
    assert now == now[..|stored|] + now[|stored|..];
    SelectAppend(now[..|stored|], now[|stored|..], OfPersona(p));
  }

  /** An answer of a say, even on an old snapshot, stays under the line. */
  lemma SayAnswerRises(cfg: Config, s: Session, call: Pending, no: nat, result: LlmResult, p: nat, e: int)
    requires call.SayCall? && PendingInv(cfg, s, call) && PendingRises(call, call.idx, p, e)
    ensures AtMost(ReactionRow(cfg.rules, no, call.idx, p, result, ContextOf(call.stored, p, false, call.words)),
                   e + UNDERSTANDING_MAX_RISE * |Mine(s.log, call.idx, p)|)
  {
    PreviousFrom(call.stored, p, e);
    PreviousInRange(call.stored, p);
    SnapshotShorter(call.stored, s.log, call.idx, p);
    if result.Parsed? {
      SettledRowBounds(cfg.rules, result.raw, ContextOf(call.stored, p, false, call.words));
    }
  }

  lemma SayAnswersRise(cfg: Config, s: Session, call: Pending, no: nat, responders: seq<nat>, results: seq<LlmResult>, p: nat, e: int)
    requires call.SayCall? && PendingInv(cfg, s, call) && PendingRises(call, call.idx, p, e)
    requires |results| == |responders|
    ensures UnderLine(Reactions(cfg, call, no, responders, results), call.idx, p,
                      e + UNDERSTANDING_MAX_RISE * |Mine(s.log, call.idx, p)|)
  {
    var answers := Reactions(cfg, call, no, responders, results);
    forall i | 0 <= i < |answers| && answers[i].phase == call.idx && Matches(OfPersona(p), answers[i])
      ensures AtMost(answers[i], e + UNDERSTANDING_MAX_RISE * |Mine(s.log, call.idx, p)|)
    {
      ReactionAt(cfg, call, no, responders, results, i);
      SayAnswerRises(cfg, s, call, no + i, results[i], p, e);
    }
  }

  lemma SayUnderLine(cfg: Config, s: Session, call: Pending, no: nat, responders: seq<nat>, results: seq<LlmResult>, c: nat, p: nat, e: int)
    requires call.SayCall? && PendingInv(cfg, s, call) && PendingRises(call, c, p, e)
    requires |results| == |responders|
    ensures UnderLine(Reactions(cfg, call, no, responders, results), c, p, e + UNDERSTANDING_MAX_RISE * |Mine(s.log, c, p)|)
  {
    if call.idx == c {
      SayAnswersRise(cfg, s, call, no, responders, results, p, e);
    } else {
      var answers := Reactions(cfg, call, no, responders, results);
      forall i | 0 <= i < |answers| ensures answers[i].phase != c {
        ReactionAt(cfg, call, no, responders, results, i);
      }
    }
  }

  lemma BlockRises(log: seq<Row>, head: Row, answers: seq<Row>, c: nat, p: nat, e: int)
    requires RisingFrom(Mine(log, c, p), e) && !head.speaker.Student?
    requires UnderLine(answers, c, p, e + UNDERSTANDING_MAX_RISE * |Mine(log, c, p)|)
    ensures RisingFrom(Mine(log + ([head] + answers), c, p), e)
  {
    UnderLineCons(head, answers, c, p, e + UNDERSTANDING_MAX_RISE * |Mine(log, c, p)|);
    AppendRises(log, [head] + answers, c, p, e);
  }

  lemma SayRises(cfg: Config, s: Session, call: Pending, results: seq<LlmResult>, c: nat, p: nat, e: int)
    requires call.SayCall? && PendingInv(cfg, s, call) && |results| == Calls(cfg, call)
    requires RisingFrom(Mine(s.log, c, p), e) && PendingRises(call, c, p, e)
    requires CommitSay(cfg, s, call, results).Ok?
    ensures RisingFrom(Mine(CommitSay(cfg, s, call, results).value.log, c, p), e)
  {
    var responders := Responders(cfg.personas, call.target);
    var head := Row(NextNo(s.log), call.idx, Teacher(User, call.target, call.words));
    var answers := Reactions(cfg, call, NextNo(s.log) + 1, responders, results);
    assert CommitSay(cfg, s, call, results).value.log == s.log + ([head] + answers);
    assert UnderLine(answers, c, p, e + UNDERSTANDING_MAX_RISE * |Mine(s.log, c, p)|) by {
      SayUnderLine(cfg, s, call, NextNo(s.log) + 1, responders, results, c, p, e);
    }
    BlockRises(s.log, head, answers, c, p, e);
  }

  lemma UnderLineCons(head: Row, rows: seq<Row>, c: nat, p: nat, bound: int)
    requires !head.speaker.Student? && UnderLine(rows, c, p, bound)
    ensures UnderLine([head] + rows, c, p, bound)
  {
  }

  // ----------------------------------------------------------- regenerate

  /** The fresh answer stays under the line of the row it replaces. */
  lemma FreshRises(cfg: Config, call: Pending, result: LlmResult, sends: bool, e: int)
    requires LoadedFailed(call) && Scored(call.stored) && PendingRises(call, call.idx, call.persona, e)
    ensures var p := RegeneratePatch(cfg, call, result, sends);
      var k := |Select(call.stored, OfPersona(call.persona))| - 1;
      k > 0 && (p.structured.Some? ==>
                  && p.structured.value.understanding.Some?
                  && p.structured.value.understanding.value <= e + UNDERSTANDING_MAX_RISE * k)
  {
    PreviousOfLoaded(call, e);
    if result.Parsed? {
      SettledRowBounds(cfg.rules, result.raw, RegenerateContext(call));
    }
  }

  lemma PreviousOfLoaded(call: Pending, e: int)
    requires LoadedFailed(call) && Scored(call.stored) && PendingRises(call, call.idx, call.persona, e)
    ensures var k := |Select(call.stored, OfPersona(call.persona))| - 1; var previous := RegenerateContext(call).previous;
      && k > 0 && previous.Some? && InRange(previous)
      && previous.value <= e + UNDERSTANDING_MAX_RISE * (k - 1)
  {
    var q := OfPersona(call.persona);
    var mine := Select(call.stored, q);
    var k := |mine| - 1;
    RisingPrefix(mine, e, k);
    SelectScored(call.stored, q);
    assert Scored(mine[..k]);
    forall r | r in mine[..k] ensures Matches(q, r) {
      SelectMembers(call.stored, q, r);
    }
    SelectAll(mine[..k], q);
    PreviousFrom(mine[..k], call.persona, e);
    PreviousInRange(mine[..k], call.persona);
  }

  lemma AmendRises(mine: seq<Row>, p: Patch, e: int, k: nat)
    requires RisingFrom(mine, e) && Increasing(mine)
    requires 0 < k < |mine| && mine[k].no == p.no
    requires p.structured.Some? ==>
               && p.structured.value.understanding.Some?
               && p.structured.value.understanding.value <= e + UNDERSTANDING_MAX_RISE * k
    ensures RisingFrom(Amend(mine, p), e)
  {
    var out := Amend(mine, p);
    assert mine[0].no < mine[k].no;
    forall i | 0 <= i < |out| ensures AtMost(out[i], e + UNDERSTANDING_MAX_RISE * i) {
      assert AtMost(mine[i], e + UNDERSTANDING_MAX_RISE * i);
      if i < k {
        assert mine[i].no < mine[k].no;
      } else if k < i {
        assert mine[k].no < mine[i].no;
      }
    }
  }

  lemma RegenerateRises(cfg: Config, s: Session, call: Pending, result: LlmResult, sends: bool, c: nat, p: nat, e: int)
    requires ValidConfig(cfg) && SessionInv(cfg, s) && LoadedFailed(call) && PendingInv(cfg, s, call)
    requires RisingFrom(Mine(s.log, c, p), e) && PendingRises(call, c, p, e)
    requires CommitRegenerate(cfg, s, call, result, sends).Ok?
    ensures RisingFrom(Mine(CommitRegenerate(cfg, s, call, result, sends).value.log, c, p), e)
  {
    MineAmended(s.log, RegeneratePatch(cfg, call, result, sends), c, p);
    if call.idx == c && call.persona == p {
      OwnRises(cfg, s, call, result, sends, e);
    } else {
      OtherRises(cfg, s, call, result, sends, c, p);
    }
  }

  /** The student whose row is rewritten. */
  lemma OwnRises(cfg: Config, s: Session, call: Pending, result: LlmResult, sends: bool, e: int)
    requires Numbered(s.log) && LoadedFailed(call) && SnapshotOf(call.stored, s.log, call.idx)
    requires RisingFrom(Mine(s.log, call.idx, call.persona), e) && PendingRises(call, call.idx, call.persona, e)
    ensures RisingFrom(Amend(Mine(s.log, call.idx, call.persona), RegeneratePatch(cfg, call, result, sends)), e)
  {
    MineIncreasing(s.log, call.idx, call.persona);
    FreshRises(cfg, call, result, sends, e);
    LoadedIndex(call.stored, s.log, call.idx, call.persona);
    AmendRises(Mine(s.log, call.idx, call.persona), RegeneratePatch(cfg, call, result, sends), e,
               |Select(call.stored, OfPersona(call.persona))| - 1);
  }

  /** Everybody else, and every other scene. */
  lemma OtherRises(cfg: Config, s: Session, call: Pending, result: LlmResult, sends: bool, c: nat, p: nat)
    requires SessionInv(cfg, s) && LoadedFailed(call) && PendingInv(cfg, s, call)
    requires call.idx != c || call.persona != p
    ensures Amend(Mine(s.log, c, p), RegeneratePatch(cfg, call, result, sends)) == Mine(s.log, c, p)
  {
    LoadedInLog(cfg, s, call);
    assert Shape(s.log[LoadedRow(call).no - 1]) == Shape(LoadedRow(call));
    AmendOfOther(s.log, RegeneratePatch(cfg, call, result, sends), c, p);
  }

  lemma MineAmended(log: seq<Row>, patch: Patch, c: nat, p: nat)
    ensures Mine(Amend(log, patch), c, p) == Amend(Mine(log, c, p), patch)
  {
    SelectAmend(log, patch, InScene(c));
    SelectAmend(Scene(log, c), patch, OfPersona(p));
  }

  lemma MineIncreasing(log: seq<Row>, c: nat, p: nat)
    requires Numbered(log)
    ensures Increasing(Mine(log, c, p))
  {
    SelectIncreasing(log, InScene(c));
    SelectIncreasing(Scene(log, c), OfPersona(p));
  }

  /** The `k`-th row read of the student is the `k`-th row of the student now. */
  lemma LoadedIndex(stored: seq<Row>, log: seq<Row>, c: nat, p: nat)
    requires SnapshotOf(stored, log, c)
    ensures var read := Select(stored, OfPersona(p)); var now := Mine(log, c, p);
      |read| <= |now| && forall k | 0 <= k < |read| :: now[k].no == read[k].no
  {
    var scene := Scene(log, c);
    SelectShape(stored, scene[..|stored|], OfPersona(p));
    assert scene == scene[..|stored|] + scene[|stored|..];
    SelectAppend(scene[..|stored|], scene[|stored|..], OfPersona(p));
    var read := Select(stored, OfPersona(p));
    forall k | 0 <= k < |read| ensures Mine(log, c, p)[k].no == read[k].no {
      assert Shape(read[k]) == Shape(Select(scene[..|stored|], OfPersona(p))[k]);
    }
  }

  lemma AmendOfOther(log: seq<Row>, patch: Patch, c: nat, p: nat)
    requires Numbered(log) && 1 <= patch.no <= |log|
    requires log[patch.no - 1].phase != c || !Matches(OfPersona(p), log[patch.no - 1])
    ensures Amend(Mine(log, c, p), patch) == Mine(log, c, p)
  {
    var mine := Mine(log, c, p);
    forall i | 0 <= i < |mine| ensures PatchRow(mine[i], patch) == mine[i] {
      MineMembers(log, c, p, mine[i]);
      var j :| 0 <= j < |log| && log[j] == mine[i];
    }
  }

  // ------------------------------------------------------------------ runs

  lemma CommitRises(cfg: Config, s: Session, call: Pending, results: seq<LlmResult>, sends: bool, c: nat, p: nat, e: int)
    requires ValidConfig(cfg) && SessionInv(cfg, s) && PendingInv(cfg, s, call)
    requires |results| == Calls(cfg, call) && CommitCall(cfg, s, call, results, sends).Ok?
    requires RisingFrom(Mine(s.log, c, p), e) && PendingRises(call, c, p, e)
    ensures RisingFrom(Mine(CommitCall(cfg, s, call, results, sends).value.log, c, p), e)
  {
    match call
    case EnterCall(idx) =>
      if Scene(s.log, idx) == [] {
        assert idx != c;
        EnterElsewhere(cfg, idx, NextNo(s.log), results, c, p, e + UNDERSTANDING_MAX_RISE * |Mine(s.log, c, p)|);
        AppendRises(s.log, EnterRows(cfg, idx, NextNo(s.log), results), c, p, e);
      }
    case SayCall(_, _, _, _) => SayRises(cfg, s, call, results, c, p, e);
    case AdvanceCall(idx, agree) => AppendRises(s.log, LeaveRows(cfg, NextNo(s.log), idx, agree), c, p, e);
    case FinishCall(idx) =>
      AppendRises(s.log, [Row(NextNo(s.log), idx, System(End(FinishButton)))], c, p, e);
    case RegenerateCall(_, _, _) => RegenerateRises(cfg, s, call, results[0], sends, c, p, e);
  }

  lemma EnterElsewhere(cfg: Config, idx: nat, no: nat, results: seq<LlmResult>, c: nat, p: nat, bound: int)
    requires |results| == |cfg.personas| && idx < |cfg.prompts| && idx != c
    ensures UnderLine(EnterRows(cfg, idx, no, results), c, p, bound)
  {
  }

  lemma StepRises(cfg: Config, w: World, a: Act, c: nat, p: nat, e: int)
    requires ValidConfig(cfg) && Inv(cfg, w) && RiseInv(w, c, p, e)
    ensures RiseInv(Step(cfg, w, a), c, p, e)
  {
    if Enabled(cfg, w, a) && a.Commit? {
      var call := w.pending[a.id];
      if CommitCall(cfg, w.session, call, a.results, a.sends).Ok? {
        CommitRises(cfg, w.session, call, a.results, a.sends, c, p, e);
      }
    }
  }

  lemma {:induction false} ExecRises(cfg: Config, w: World, acts: seq<Act>, c: nat, p: nat, e: int)
    requires ValidConfig(cfg) && Inv(cfg, w) && RiseInv(w, c, p, e)
    ensures RiseInv(Exec(cfg, w, acts), c, p, e)
  {
    if acts != [] {
      var n := |acts| - 1;
      ExecRises(cfg, w, acts[..n], c, p, e);
      ExecKeeps(cfg, w, acts[..n]);
      StepRises(cfg, Exec(cfg, w, acts[..n]), acts[n], c, p, e);
    }
  }

  // ----------------------------------------------------------------- entry

  /** A seat answers once in a block. */
  lemma {:induction false} SeatOnce(personas: seq<nat>, rows: seq<Row>, p: nat)
    requires Distinct(personas) && |rows| == |personas|
    requires forall i | 0 <= i < |rows| :: Matches(OfPersona(personas[i]), rows[i])
    ensures |Select(rows, OfPersona(p))| <= 1
    ensures p !in personas ==> Select(rows, OfPersona(p)) == []
  {
    if rows != [] {
      var n := |rows| - 1;
      SeatOnce(personas[..n], rows[..n], p);
    }
  }

  /** The step that enters scene `c`. */
  predicate Enters(cfg: Config, w: World, a: Act, c: nat) {
    Enabled(cfg, w, a) && a.Commit? && w.pending[a.id] == EnterCall(c)
    && w.session.running && w.session.current == c && Scene(w.session.log, c) == []
  }

  lemma BlockOnce(personas: seq<nat>, head: seq<Row>, answers: seq<Row>, c: nat, p: nat)
    requires Distinct(personas) && |answers| == |personas|
    requires forall r | r in head :: !r.speaker.Student?
    requires forall i | 0 <= i < |answers| :: answers[i].phase == c && Matches(OfPersona(personas[i]), answers[i])
    ensures |Mine(head + answers, c, p)| <= 1
  {
    MineAppend(head, answers, c, p);
    RowsOfNobody(head, c, p);
    SelectAll(answers, InScene(c));
    SeatOnce(personas, answers, p);
  }

  /** The entry block holds at most one row of a student. */
  lemma EntryOnce(cfg: Config, c: nat, no: nat, results: seq<LlmResult>, p: nat)
    requires ValidConfig(cfg) && |results| == |cfg.personas| && c < |cfg.prompts|
    ensures |Mine(EnterRows(cfg, c, no, results), c, p)| <= 1
  {
    var answers := EntryReactions(cfg, c, no + 2, results);
    var head := [Row(no, c, System(PhaseEnter)), Row(no + 1, c, Teacher(Plan, None, cfg.prompts[c]))];
    BlockOnce(cfg.personas, head, answers, c, p);
  }

  lemma EntryStarts(cfg: Config, w: World, a: Act, c: nat, p: nat, e: int)
    requires ValidConfig(cfg) && Inv(cfg, w) && Enters(cfg, w, a, c)
    requires Anchored(Mine(Step(cfg, w, a).session.log, c, p), e)
    ensures RiseInv(Step(cfg, w, a), c, p, e)
  {
    var log := w.session.log;
    var rows := EnterRows(cfg, c, NextNo(log), a.results);
    EntryOnce(cfg, c, NextNo(log), a.results, p);
    MineAppend(log, rows, c, p);
    assert Step(cfg, w, a).session.log == log + rows;
    assert RisingFrom(Mine(log + rows, c, p), e);
    forall id | id in w.pending ensures PendingRises(w.pending[id], c, p, e) {
      assert PendingInv(cfg, w.session, w.pending[id]);
      NothingRead(cfg, w.session, w.pending[id], c);
    }
  }

  /** No request can have read rows of a scene nobody has entered. */
  lemma NothingRead(cfg: Config, s: Session, call: Pending, c: nat)
    requires PendingInv(cfg, s, call) && Scene(s.log, c) == []
    ensures !((call.SayCall? || call.RegenerateCall?) && call.idx == c)
  {
  }

  /** If a student's entry reaction parsed with value `e`, then after any further run
      the student's `i`-th row of that scene shows at most `e + 20 i`, and at most 100. */
  lemma RiseBound(cfg: Config, before: seq<Act>, entry: Act, after: seq<Act>, c: nat, p: nat, e: int, i: nat)
    requires ValidConfig(cfg)
    requires Enters(cfg, Exec(cfg, Created, before), entry, c)
    requires Anchored(Mine(Step(cfg, Exec(cfg, Created, before), entry).session.log, c, p), e)
    requires var mine := Mine(Exec(cfg, Step(cfg, Exec(cfg, Created, before), entry), after).session.log, c, p);
      i < |mine| && Valid(mine[i])
    ensures var mine := Mine(Exec(cfg, Step(cfg, Exec(cfg, Created, before), entry), after).session.log, c, p);
      mine[i].speaker.structured.value.understanding.Some?
      && 0 <= Score(mine[i]) <= Min(100, e + UNDERSTANDING_MAX_RISE * i)
  {
    var w0 := Exec(cfg, Created, before);
    var w1 := Step(cfg, w0, entry);
    var w2 := Exec(cfg, w1, after);
    Reachable(cfg, before);
    StepKeeps(cfg, w0, entry);
    EntryStarts(cfg, w0, entry, c, p, e);
    ExecRises(cfg, w1, after, c, p, e);
    ExecKeeps(cfg, w1, after);
    SelectScored(w2.session.log, InScene(c));
    SelectScored(Scene(w2.session.log, c), OfPersona(p));
    assert AtMost(Mine(w2.session.log, c, p)[i], e + UNDERSTANDING_MAX_RISE * i);
    assert ScoreOk(Mine(w2.session.log, c, p)[i].speaker.structured.value);
  }

  // ------------------------------------------------------- failed entry row

  /** While none of the student's rows has parsed there is no previous score, and the
      next answer is stored as the model gave it, whatever its height: the bound above
      needs the entry row to have parsed. */
  lemma {:induction false} UncappedAfterFailure(rules: TextRules, stored: seq<Row>, p: nat, teacher: string, raw: RawReaction)
    requires forall r | r in Select(stored, OfPersona(p)) :: !Valid(r)
    ensures SettledRow(rules, Parsed(raw), ContextOf(stored, p, false, teacher)).value.understanding
            == Some(ValidatedScore(raw))
  {
    NothingValid(stored, p);
  }

  lemma {:induction false} NothingValid(rows: seq<Row>, p: nat)
    requires forall r | r in Select(rows, OfPersona(p)) :: !Valid(r)
    ensures LastValid(rows, p) == None
  {
    if rows != [] {
      var n := |rows| - 1;
      assert Matches(OfPersona(p), rows[n]) ==> rows[n] in Select(rows, OfPersona(p));
      NothingValid(rows[..n], p);
    }
  }

  lemma {:induction false} SomethingValid(rows: seq<Row>, p: nat)
    requires Scored(rows) && exists r :: r in Select(rows, OfPersona(p)) && Valid(r)
    ensures PreviousUnderstanding(rows, p).Some? && InRange(PreviousUnderstanding(rows, p))
  {
    PreviousInRange(rows, p);
    var n := |rows| - 1;
    if !(Matches(OfPersona(p), rows[n]) && Valid(rows[n])) {
      SomethingValid(rows[..n], p);
    }
  }

  /** The student has a previous score: one of the rows that were read has parsed. */
  predicate Measured(stored: seq<Row>, p: nat) {
    exists r :: r in Select(stored, OfPersona(p)) && Valid(r)
  }

  predicate StoredAsGiven(rules: TextRules, stored: seq<Row>, p: nat, teacher: string, raw: RawReaction) {
    SettledRow(rules, Parsed(raw), ContextOf(stored, p, false, teacher)).value.understanding == Some(ValidatedScore(raw))
  }

  /** Every answer is stored as the model gave it exactly while none of the student's rows
      has parsed. */
  lemma UncappedExactly(rules: TextRules, stored: seq<Row>, p: nat, teacher: string)
    requires Scored(stored)
    ensures (forall raw :: StoredAsGiven(rules, stored, p, teacher, raw)) <==> !Measured(stored, p)
  {
    if Measured(stored, p) {
      SomethingValid(stored, p);
      var c := ContextOf(stored, p, false, teacher);
      var raw := RawReaction("", "", "", "", false, if c.previous == Some(0) then 1 else 0, false);
      OffTaskHolds(rules, raw, c);
      assert !StoredAsGiven(rules, stored, p, teacher, raw);
    } else {
      forall raw ensures StoredAsGiven(rules, stored, p, teacher, raw) {
        UncappedAfterFailure(rules, stored, p, teacher, raw);
      }
    }
  }
}
