/** The session as a state machine. Every request first reads a snapshot, may then
    wait for the model with no lock held, and at last takes the write lock, checks
    again and commits. Requests interleave freely between those two steps. */
module SessionProtocol {
  import opened Wrappers
  import opened Reaction
  import opened Transcript
  import opened Agreement

  /** What is fixed when the session is created: the persona ids in seat order, the
      planned question of each scene and the limit on teacher turns. */
  datatype Config = Config(rules: TextRules, personas: seq<nat>, prompts: seq<string>, maxTurns: nat)

  predicate Distinct(s: seq<nat>) {
    forall i, j | 0 <= i < j < |s| :: s[i] != s[j]
  }

  predicate ValidConfig(cfg: Config) {
    |cfg.personas| > 0 && Distinct(cfg.personas) && |cfg.prompts| > 0
  }

  /** The session row together with its utterances in `seq` order. */
  datatype Session = Session(running: bool, current: nat, log: seq<Row>)

  datatype Error =
    | SessionFinished | PhaseNotCurrent | PhaseNotEntered | UnknownPersona
    | TurnLimit | NotAllAgreed | NothingToRegenerate | ConflictRetry

  datatype Request =
    | Enter(idx: nat)
    | Say(target: Option<nat>, words: string)
    | Advance(agree: bool)
    | Finish
    | Regenerate(persona: nat)

  /** A request between its snapshot and its commit, with what it has read. */
  datatype Pending =
    | EnterCall(idx: nat)
    | SayCall(idx: nat, stored: seq<Row>, target: Option<nat>, words: string)
    | AdvanceCall(idx: nat, agree: bool)
    | FinishCall(idx: nat)
    | RegenerateCall(idx: nat, stored: seq<Row>, persona: nat)

  /** The student's last row among those read is a reply that failed to parse. */
  predicate LastFailed(stored: seq<Row>, persona: nat) {
    var mine := Select(stored, OfPersona(persona));
    mine != [] && mine[|mine| - 1].speaker.Student? && mine[|mine| - 1].speaker.structured.None?
  }

  // ------------------------------------------------------------ first step

  /** The snapshot step: an error, an answer from what is stored already (`None`),
      or a call that now waits. */
  function Read(cfg: Config, s: Session, req: Request): Result<Option<Pending>, Error> {
    if !s.running then Err(SessionFinished)
    else
      var stored := Scene(s.log, s.current);
      match req
      case Enter(idx) =>
        if idx != s.current then Err(PhaseNotCurrent)
        else if stored != [] then Ok(None)
        else Ok(Some(EnterCall(idx)))
      case Say(target, words) =>
        if stored == [] then Err(PhaseNotEntered)
        else if target.Some? && target.value !in cfg.personas then Err(UnknownPersona)
        else if Count(s.log, UserTurn) >= cfg.maxTurns then Err(TurnLimit)
        else Ok(Some(SayCall(s.current, stored, target, words)))
      case Advance(agree) => Ok(Some(AdvanceCall(s.current, agree)))
      case Finish => Ok(Some(FinishCall(s.current)))
      case Regenerate(persona) =>
        if persona !in cfg.personas then Err(UnknownPersona)
        else if !LastFailed(stored, persona) then Err(NothingToRegenerate)
        else Ok(Some(RegenerateCall(s.current, stored, persona)))
  }

  /** `asked` in the source: the largest `seq` of a teacher row before row `no`; `None` where the
      source's `max` would be over nothing. */
  function AskedNo(stored: seq<Row>, no: nat): Option<nat> {
    if stored == [] then None
    else
      var n := |stored| - 1;
      var before := AskedNo(stored[..n], no);
      if stored[n].speaker.Teacher? && stored[n].no < no && (before.None? || before.value < stored[n].no)
      then Some(stored[n].no) else before
  }

  /** The words of the first row numbered `no`. */
  function WordsAt(stored: seq<Row>, no: nat): string {
    if stored == [] then ""
    else if stored[0].no == no && stored[0].speaker.Teacher? then stored[0].speaker.words
    else WordsAt(stored[1..], no)
  }

  // ----------------------------------------------------------- second step

  /** `_lock_running`: the error of a session that has finished or moved on. */
  function LockError(s: Session, idx: nat, moved: Error): Option<Error> {
    if s.running && s.current == idx then None
    else if !s.running then Some(SessionFinished)
    else Some(moved)
  }

  function Responders(personas: seq<nat>, target: Option<nat>): seq<nat> {
    if personas == [] then []
    else
      var n := |personas| - 1;
      Responders(personas[..n], target)
      + (if target.None? || target.value == personas[n] then [personas[n]] else [])
  }

  /** How many model calls a request makes. */
  function Calls(cfg: Config, p: Pending): nat {
    match p
    case EnterCall(_) => |cfg.personas|
    case SayCall(_, _, target, _) => |Responders(cfg.personas, target)|
    case AdvanceCall(_, _) => 0
    case FinishCall(_) => 0
    case RegenerateCall(_, _, _) => 1
  }

  function ReactionRow(rules: TextRules, no: nat, idx: nat, persona: nat, result: LlmResult, c: Context): Row {
    Row(no, idx, Student(persona, SettledRow(rules, result, c), RowWords(result)))
  }

  const EntryContext := Context(true, None, "", "", "")

  function EntryReactions(cfg: Config, idx: nat, no: nat, results: seq<LlmResult>): seq<Row>
    requires |results| == |cfg.personas|
  {
    seq(|results|, i requires 0 <= i < |results| =>
      ReactionRow(cfg.rules, no + i, idx, cfg.personas[i], results[i], EntryContext))
  }

  function EnterRows(cfg: Config, idx: nat, no: nat, results: seq<LlmResult>): seq<Row>
    requires |results| == |cfg.personas| && idx < |cfg.prompts|
  {
    [Row(no, idx, System(PhaseEnter)), Row(no + 1, idx, Teacher(Plan, None, cfg.prompts[idx]))]
    + EntryReactions(cfg, idx, no + 2, results)
  }

  function Reactions(cfg: Config, call: Pending, no: nat, responders: seq<nat>, results: seq<LlmResult>): seq<Row>
    requires call.SayCall? && |results| == |responders|
  {
    seq(|results|, i requires 0 <= i < |results| =>
      ReactionRow(cfg.rules, no + i, call.idx, responders[i], results[i],
                  ContextOf(call.stored, responders[i], false, call.words)))
  }

  function SayRows(cfg: Config, call: Pending, no: nat, results: seq<LlmResult>): seq<Row>
    requires call.SayCall? && |results| == Calls(cfg, call)
  {
    [Row(no, call.idx, Teacher(User, call.target, call.words))]
    + Reactions(cfg, call, no + 1, Responders(cfg.personas, call.target), results)
  }

  function CommitEnter(cfg: Config, s: Session, idx: nat, results: seq<LlmResult>): Result<Session, Error>
    requires |results| == |cfg.personas| && s.current < |cfg.prompts|
  {
    var lock := LockError(s, idx, PhaseNotCurrent);
    if lock.Some? then Err(lock.value)
    else if Scene(s.log, idx) != [] then Ok(s)
    else Ok(s.(log := s.log + EnterRows(cfg, idx, NextNo(s.log), results)))
  }

  function CommitSay(cfg: Config, s: Session, call: Pending, results: seq<LlmResult>): Result<Session, Error>
    requires call.SayCall? && |results| == Calls(cfg, call)
  {
    var lock := LockError(s, call.idx, ConflictRetry);
    if lock.Some? then Err(lock.value)
    else if Count(s.log, UserTurn) >= cfg.maxTurns then Err(TurnLimit)
    else Ok(s.(log := s.log + SayRows(cfg, call, NextNo(s.log), results)))
  }

  function CommitAdvance(cfg: Config, s: Session, idx: nat, agree: bool): Result<Session, Error> {
    var lock := LockError(s, idx, ConflictRetry);
    if lock.Some? then Err(lock.value)
    else if agree && !AllAgreed(Scene(s.log, idx), idx, cfg.personas) then Err(NotAllAgreed)
    else
      var no := NextNo(s.log);
      var leave := Row(no, idx, System(if agree then AgreeAdvance else SkipScene));
      if idx + 1 < |cfg.prompts| then Ok(Session(true, idx + 1, s.log + [leave]))
      else Ok(Session(false, idx, s.log + [leave, Row(no + 1, idx, System(End(LastPhase)))]))
  }

  function CommitFinish(s: Session, idx: nat): Result<Session, Error> {
    var lock := LockError(s, idx, ConflictRetry);
    if lock.Some? then Err(lock.value)
    else Ok(Session(false, idx, s.log + [Row(NextNo(s.log), idx, System(End(FinishButton)))]))
  }

  /** The failed row the request has loaded. */
  predicate LoadedFailed(call: Pending) {
    call.RegenerateCall? && LastFailed(call.stored, call.persona)
  }

  function LoadedRow(call: Pending): Row
    requires LoadedFailed(call)
  {
    var mine := Select(call.stored, OfPersona(call.persona));
    mine[|mine| - 1]
  }

  /** What the fresh reaction is judged against: the rows of the student before the
      failed one, and the teacher words that asked for it. */
  function RegenerateContext(call: Pending): Context
    requires LoadedFailed(call)
  {
    var mine := Select(call.stored, OfPersona(call.persona));
    var asked := AskedNo(call.stored, LoadedRow(call).no);
    ContextOf(mine[..|mine| - 1], call.persona, |mine| == 1,
              if asked.Some? then WordsAt(call.stored, asked.value) else "")
  }

  function RegeneratePatch(cfg: Config, call: Pending, result: LlmResult, sends: bool): Patch
    requires LoadedFailed(call)
  {
    var row := LoadedRow(call);
    Patch(row.no, row.speaker.words, SettledRow(cfg.rules, result, RegenerateContext(call)), RowWords(result), sends)
  }

  function CommitRegenerate(cfg: Config, s: Session, call: Pending, result: LlmResult, sends: bool): Result<Session, Error>
    requires LoadedFailed(call)
  {
    var lock := LockError(s, call.idx, ConflictRetry);
    if lock.Some? then Err(lock.value)
    else Ok(s.(log := Amend(s.log, RegeneratePatch(cfg, call, result, sends))))
  }

  // ------------------------------------------------------------------- runs

  datatype World = World(session: Session, pending: map<nat, Pending>)

  /** One atomic step of the system: a request reads its snapshot, a waiting request
      commits with whatever the model answered, or a waiting request dies. */
  datatype Act =
    | Start(id: nat, request: Request)
    | Commit(id: nat, results: seq<LlmResult>, sends: bool)
    | Abandon(id: nat)

  function CommitCall(cfg: Config, s: Session, p: Pending, results: seq<LlmResult>, sends: bool): Result<Session, Error>
    requires s.current < |cfg.prompts| && |results| == Calls(cfg, p)
    requires p.RegenerateCall? ==> LoadedFailed(p)
  {
    match p
    case EnterCall(idx) => CommitEnter(cfg, s, idx, results)
    case SayCall(_, _, _, _) => CommitSay(cfg, s, p, results)
    case AdvanceCall(idx, agree) => CommitAdvance(cfg, s, idx, agree)
    case FinishCall(idx) => CommitFinish(s, idx)
    case RegenerateCall(_, _, _) => CommitRegenerate(cfg, s, p, results[0], sends)
  }

  /** The act can happen: ids are not reused while waiting, and a commit carries one
      result per model call. */
  predicate Enabled(cfg: Config, w: World, a: Act) {
    match a
    case Start(id, _) => id !in w.pending
    case Commit(id, results, _) =>
      id in w.pending && |results| == Calls(cfg, w.pending[id]) && w.session.current < |cfg.prompts|
      && (w.pending[id].RegenerateCall? ==> LoadedFailed(w.pending[id]))
    case Abandon(id) => id in w.pending
  }

  function Step(cfg: Config, w: World, a: Act): World {
    if !Enabled(cfg, w, a) then w
    else
      match a
      case Start(id, request) =>
        var r := Read(cfg, w.session, request);
        if r.Ok? && r.value.Some? then World(w.session, w.pending[id := r.value.value]) else w
      case Commit(id, results, sends) =>
        var r := CommitCall(cfg, w.session, w.pending[id], results, sends);
        World(if r.Ok? then r.value else w.session, w.pending - {id})
      case Abandon(id) => World(w.session, w.pending - {id})
  }

  function Exec(cfg: Config, w: World, acts: seq<Act>): World {
    if acts == [] then w
    else
      var n := |acts| - 1;
      Step(cfg, Exec(cfg, w, acts[..n]), acts[n])
  }

  /** `create_session`: running, first scene, nothing said. */
  const Created := World(Session(true, 0, []), map[])

  lemma {:induction false} ExecAppend(cfg: Config, w: World, xs: seq<Act>, ys: seq<Act>)
    ensures Exec(cfg, w, xs + ys) == Exec(cfg, Exec(cfg, w, xs), ys)
    decreases |ys|
  {
    if ys == [] {
      assert xs + ys == xs;
    } else {
      var n := |ys| - 1;
      assert (xs + ys)[..|xs| + n] == xs + ys[..n];
      ExecAppend(cfg, w, xs, ys[..n]);
    }
  }
}
