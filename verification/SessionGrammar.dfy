/** The language of session logs, as an automaton that reads a log row by row and
    looks at everything but what a student answered. */
module SessionGrammar {
  import opened Wrappers
  import opened Reaction
  import opened Transcript
  import opened Agreement
  import opened SessionProtocol

  /** Where a log stands. `asked` says that a teacher turn of the user has been
      spoken in the scene. */
  datatype Pos =
    | Fresh(scene: nat)
    | PlanDue(scene: nat)
    | Answering(scene: nat, rest: seq<nat>, asked: bool)
    | Entered(scene: nat, asked: bool)
    | EndDue(scene: nat)
    | Done(scene: nat, full: bool)
    | Broken

  function Leave(cfg: Config, scene: nat): Pos {
    if scene + 1 < |cfg.prompts| then Fresh(scene + 1) else EndDue(scene)
  }

  function Read1(cfg: Config, p: Pos, r: Row): Pos {
    if p.Broken? || p.Done? || r.phase != p.scene then Broken
    else
      match r.speaker
      case System(PhaseEnter) => if p.Fresh? then PlanDue(p.scene) else Broken
      case System(SkipScene) => if p.Fresh? || p.Entered? then Leave(cfg, p.scene) else Broken
      case System(AgreeAdvance) => if p.Entered? && p.asked then Leave(cfg, p.scene) else Broken
      case System(End(FinishButton)) => if p.Fresh? || p.Entered? then Done(p.scene, false) else Broken
      case System(End(LastPhase)) => if p.EndDue? then Done(p.scene, true) else Broken
      case Teacher(Plan, target, words) =>
        if p.PlanDue? && target.None? && p.scene < |cfg.prompts| && words == cfg.prompts[p.scene]
        then Answering(p.scene, cfg.personas, false) else Broken
      case Teacher(User, target, _) =>
        var rest := Responders(cfg.personas, target);
        if p.Entered? && rest != [] then Answering(p.scene, rest, true) else Broken
      case Student(persona, _, _) =>
        if p.Answering? && p.rest != [] && p.rest[0] == persona then
          if |p.rest| == 1 then Entered(p.scene, p.asked) else Answering(p.scene, p.rest[1..], p.asked)
        else Broken
  }

  function Position(cfg: Config, log: seq<Row>): Pos {
    if log == [] then Fresh(0)
    else
      var n := |log| - 1;
      Read1(cfg, Position(cfg, log[..n]), log[n])
  }

  lemma PositionStep(cfg: Config, log: seq<Row>, r: Row)
    ensures Position(cfg, log + [r]) == Read1(cfg, Position(cfg, log), r)
  {
    assert (log + [r])[..|log|] == log;
  }

  /** Every prefix of a log that is read is read as well. */
  lemma {:induction false} PrefixRead(cfg: Config, log: seq<Row>, n: nat)
    requires n <= |log| && Position(cfg, log) != Broken
    ensures Position(cfg, log[..n]) != Broken
    decreases |log| - n
  {
    if n < |log| {
      PrefixRead(cfg, log, n + 1);
      assert log[..n + 1][..n] == log[..n];
    } else {
      assert log[..n] == log;
    }
  }

  /** Every row of a log that is read was read at its place. */
  lemma ReadAt(cfg: Config, log: seq<Row>, i: nat)
    requires Position(cfg, log) != Broken && i < |log|
    ensures Position(cfg, log[..i]) != Broken
    ensures Position(cfg, log[..i + 1]) == Read1(cfg, Position(cfg, log[..i]), log[i]) != Broken
  {
    PrefixRead(cfg, log, i);
    PrefixRead(cfg, log, i + 1);
    assert log[..i + 1][..i] == log[..i];
  }

  /** Answers do not matter: logs of the same shape stand at the same place. */
  lemma {:induction false} PositionShape(cfg: Config, xs: seq<Row>, ys: seq<Row>)
    requires SameShape(xs, ys)
    ensures Position(cfg, xs) == Position(cfg, ys)
  {
    if xs != [] {
      var n := |xs| - 1;
      PositionShape(cfg, xs[..n], ys[..n]);
      assert Shape(xs[n]) == Shape(ys[n]);
    }
  }

  /** The responders answer one after the other in seat order and close the block. */
  lemma {:induction false} AnswersRead(cfg: Config, log: seq<Row>, rows: seq<Row>, scene: nat, rest: seq<nat>, asked: bool)
    requires rest != [] && |rows| == |rest|
    requires Position(cfg, log) == Answering(scene, rest, asked)
    requires forall i | 0 <= i < |rows| :: rows[i].phase == scene && Matches(OfPersona(rest[i]), rows[i])
    ensures Position(cfg, log + rows) == Entered(scene, asked)
    decreases |rest|
  {
    PositionStep(cfg, log, rows[0]);
    assert log + [rows[0]] + rows[1..] == log + rows;
    if |rest| == 1 {
      assert rows[1..] == [];
    } else {
      assert forall i | 0 <= i < |rows[1..]| :: rows[1..][i] == rows[i + 1];
      AnswersRead(cfg, log + [rows[0]], rows[1..], scene, rest[1..], asked);
    }
  }

  lemma {:induction false} RespondersOf(personas: seq<nat>, target: Option<nat>)
    ensures target.None? ==> Responders(personas, target) == personas
    ensures target.Some? && target.value in personas ==> Responders(personas, target) != []
    ensures forall p | p in Responders(personas, target) :: p in personas && (target.Some? ==> p == target.value)
  {
    if personas != [] {
      var n := |personas| - 1;
      assert personas == personas[..n] + [personas[n]];
      RespondersOf(personas[..n], target);
    }
  }

  lemma EntryBlockRead(cfg: Config, log: seq<Row>, head: Row, plan: Row, answers: seq<Row>)
    requires ValidConfig(cfg) && head.phase == plan.phase < |cfg.prompts|
    requires head.speaker == System(PhaseEnter) && plan.speaker == Teacher(Plan, None, cfg.prompts[plan.phase])
    requires |answers| == |cfg.personas|
    requires forall i | 0 <= i < |answers| ::
               answers[i].phase == head.phase && Matches(OfPersona(cfg.personas[i]), answers[i])
    requires Position(cfg, log) == Fresh(head.phase)
    ensures Position(cfg, log + ([head, plan] + answers)) == Entered(head.phase, false)
  {
    HeadRead(cfg, log, head, plan);
    AnswersRead(cfg, log + [head, plan], answers, head.phase, cfg.personas, false);
    assert log + [head, plan] + answers == log + ([head, plan] + answers);
  }

  lemma HeadRead(cfg: Config, log: seq<Row>, head: Row, plan: Row)
    requires head.phase == plan.phase < |cfg.prompts| && Position(cfg, log) == Fresh(head.phase)
    requires head.speaker == System(PhaseEnter) && plan.speaker == Teacher(Plan, None, cfg.prompts[plan.phase])
    ensures Position(cfg, log + [head, plan]) == Answering(head.phase, cfg.personas, false)
  {
    PositionStep(cfg, log, head);
    PositionStep(cfg, log + [head], plan);
    assert log + [head] + [plan] == log + [head, plan];
  }

  lemma EntryReactionAt(cfg: Config, idx: nat, no: nat, results: seq<LlmResult>, i: nat)
    requires |results| == |cfg.personas| && i < |results|
    ensures var r := EntryReactions(cfg, idx, no, results)[i];
      r.speaker.Student? && r.no == no + i && r.phase == idx && r.speaker.persona == cfg.personas[i]
  {
  }

  /** The entry block takes a fresh scene to an entered one nobody has asked in. */
  lemma EnterRead(cfg: Config, log: seq<Row>, idx: nat, no: nat, results: seq<LlmResult>)
    requires ValidConfig(cfg) && idx < |cfg.prompts| && |results| == |cfg.personas|
    requires Position(cfg, log) == Fresh(idx)
    ensures Position(cfg, log + EnterRows(cfg, idx, no, results)) == Entered(idx, false)
  {
    var answers := EntryReactions(cfg, idx, no + 2, results);
    forall i | 0 <= i < |answers|
      ensures answers[i].phase == idx && Matches(OfPersona(cfg.personas[i]), answers[i])
    {
      EntryReactionAt(cfg, idx, no + 2, results, i);
    }
    EntryBlockRead(cfg, log, Row(no, idx, System(PhaseEnter)),
                   Row(no + 1, idx, Teacher(Plan, None, cfg.prompts[idx])), answers);
  }

  lemma ReactionAt(cfg: Config, call: Pending, no: nat, responders: seq<nat>, results: seq<LlmResult>, i: nat)
    requires call.SayCall? && |results| == |responders| && i < |results|
    ensures var r := Reactions(cfg, call, no, responders, results)[i];
      r.speaker.Student? && r.no == no + i && r.phase == call.idx && r.speaker.persona == responders[i]
  {
  }

  /** A say block keeps the scene entered and marks it as asked. */
  lemma SayRead(cfg: Config, log: seq<Row>, call: Pending, no: nat, results: seq<LlmResult>, asked: bool)
    requires ValidConfig(cfg) && call.SayCall? && |results| == Calls(cfg, call)
    requires call.target.Some? ==> call.target.value in cfg.personas
    requires Position(cfg, log) == Entered(call.idx, asked)
    ensures Position(cfg, log + SayRows(cfg, call, no, results)) == Entered(call.idx, true)
  {
    var responders := Responders(cfg.personas, call.target);
    var answers := Reactions(cfg, call, no + 1, responders, results);
    var head := Row(no, call.idx, Teacher(User, call.target, call.words));
    RespondersOf(cfg.personas, call.target);
    forall i | 0 <= i < |answers|
      ensures answers[i].phase == head.phase && Matches(OfPersona(responders[i]), answers[i])
    {
      ReactionAt(cfg, call, no + 1, responders, results, i);
    }
    SayBlockRead(cfg, log, head, answers, asked);
    assert log + ([head] + answers) == log + SayRows(cfg, call, no, results);
  }

  lemma SayBlockRead(cfg: Config, log: seq<Row>, head: Row, answers: seq<Row>, asked: bool)
    requires Position(cfg, log) == Entered(head.phase, asked)
    requires Matches(UserTurn, head)
    requires Responders(cfg.personas, head.speaker.target) != []
    requires |answers| == |Responders(cfg.personas, head.speaker.target)|
    requires forall i | 0 <= i < |answers| ::
               answers[i].phase == head.phase
               && Matches(OfPersona(Responders(cfg.personas, head.speaker.target)[i]), answers[i])
    ensures Position(cfg, log + ([head] + answers)) == Entered(head.phase, true)
  {
    PositionStep(cfg, log, head);
    AnswersRead(cfg, log + [head], answers, head.phase, Responders(cfg.personas, head.speaker.target), true);
    assert log + [head] + answers == log + ([head] + answers);
  }

  /** The rows of an advance. */
  lemma LeaveRead(cfg: Config, log: seq<Row>, no: nat, idx: nat, agree: bool)
    requires var p := Position(cfg, log); (p.Fresh? || p.Entered?) && p.scene == idx && (agree ==> p.Entered? && p.asked)
    ensures var leave := Row(no, idx, System(if agree then AgreeAdvance else SkipScene));
      && Position(cfg, log + [leave]) == Leave(cfg, idx)
      && (idx + 1 >= |cfg.prompts| ==>
            Position(cfg, log + [leave, Row(no + 1, idx, System(End(LastPhase)))]) == Done(idx, true))
  {
    var leave := Row(no, idx, System(if agree then AgreeAdvance else SkipScene));
    var end := Row(no + 1, idx, System(End(LastPhase)));
    PositionStep(cfg, log, leave);
    PositionStep(cfg, log + [leave], end);
    assert log + [leave] + [end] == log + [leave, end];
  }

  // ------------------------------------------------- what a position says

  /** What one more row adds to a scene. */
  lemma SceneStep(log: seq<Row>, r: Row, scene: nat, persona: nat)
    ensures Scene(log + [r], scene) == Scene(log, scene) + (if r.phase == scene then [r] else [])
    ensures Heard(log + [r], scene, persona) <==>
            Heard(log, scene, persona) || (r.phase == scene && Matches(OfPersona(persona), r))
    ensures Asked(log + [r], scene) <==> Asked(log, scene) || (r.phase == scene && Matches(UserTurn, r))
  {
    SelectAppend(log, [r], InScene(scene));
    SelectOne(r, InScene(scene));
    if r.phase == scene {
      SelectAppend(Scene(log, scene), [r], OfPersona(persona));
      SelectOne(r, OfPersona(persona));
      SelectAppend(Scene(log, scene), [r], UserTurn);
      SelectOne(r, UserTurn);
    } else {
      assert Scene(log + [r], scene) == Scene(log, scene);
    }
  }

  lemma SceneGrows(log: seq<Row>, r: Row, scene: nat)
    ensures forall q :: Heard(log + [r], scene, q) <==>
              Heard(log, scene, q) || (r.phase == scene && Matches(OfPersona(q), r))
    ensures Asked(log + [r], scene) <==> Asked(log, scene) || (r.phase == scene && Matches(UserTurn, r))
  {
    forall q
      ensures Heard(log + [r], scene, q) <==>
              Heard(log, scene, q) || (r.phase == scene && Matches(OfPersona(q), r))
    {
      SceneStep(log, r, scene, q);
    }
    SceneStep(log, r, scene, 0);
  }

  predicate Bounded(log: seq<Row>, last: nat) {
    forall i | 0 <= i < |log| :: log[i].phase <= last
  }

  /** Planned answers are due from a suffix of the seats, in order; the students
      before it have spoken and those in it have not. */
  ghost predicate EntryUnderWay(cfg: Config, log: seq<Row>, scene: nat, rest: seq<nat>) {
    && |rest| <= |cfg.personas| && rest == cfg.personas[|cfg.personas| - |rest|..]
    && forall q | q in cfg.personas :: Heard(log, scene, q) <==> q !in rest
  }

  predicate HeardAll(log: seq<Row>, scene: nat, personas: seq<nat>) {
    forall q | q in personas :: Heard(log, scene, q)
  }

  /** What a log at position `p` contains. */
  ghost predicate Describes(cfg: Config, p: Pos, log: seq<Row>) {
    && !p.Broken? && p.scene < |cfg.prompts| && Bounded(log, p.scene)
    && match p
       case Fresh(k) => Scene(log, k) == []
       case PlanDue(k) => !Asked(log, k) && forall q :: !Heard(log, k, q)
       case Answering(k, rest, asked) =>
         rest != [] && asked == Asked(log, k)
         && if asked then HeardAll(log, k, cfg.personas) else EntryUnderWay(cfg, log, k, rest)
       case Entered(k, asked) => asked == Asked(log, k) && HeardAll(log, k, cfg.personas)
       case EndDue(_) => true
       case Done(_, _) => true
       case Broken => false
  }

  lemma SceneBeyond(log: seq<Row>, last: nat, scene: nat)
    requires Bounded(log, last) && last < scene
    ensures Scene(log, scene) == []
  {
    SelectNone(log, InScene(scene));
  }

  lemma DescribesSystem(cfg: Config, p: Pos, log: seq<Row>, r: Row)
    requires ValidConfig(cfg) && Describes(cfg, p, log)
    requires Read1(cfg, p, r) != Broken && r.speaker.System?
    ensures Describes(cfg, Read1(cfg, p, r), log + [r])
  {
    match r.speaker.event
    case PhaseEnter =>
      UnheardScene(log, p.scene);
      SceneGrows(log, r, p.scene);
    case AgreeAdvance => LeftScene(cfg, p, log, r);
    case SkipScene => LeftScene(cfg, p, log, r);
    case End(_) =>
  }

  lemma LeftScene(cfg: Config, p: Pos, log: seq<Row>, r: Row)
    requires !p.Broken? && p.scene < |cfg.prompts| && Bounded(log, p.scene) && r.phase == p.scene
    ensures Describes(cfg, Leave(cfg, p.scene), log + [r])
  {
    SceneBeyond(log + [r], p.scene, p.scene + 1);
  }

  lemma UnheardScene(log: seq<Row>, scene: nat)
    requires Scene(log, scene) == []
    ensures !Asked(log, scene) && forall q :: !Heard(log, scene, q)
  {
  }

  lemma QuestionSays(log: seq<Row>, r: Row, scene: nat, q: nat)
    requires r.speaker.Teacher? && r.phase == scene
    ensures Heard(log + [r], scene, q) <==> Heard(log, scene, q)
    ensures Asked(log + [r], scene) <==> Asked(log, scene) || r.speaker.source == User
  {
    SceneStep(log, r, scene, q);
  }

  /** After the planned question every seat is due. */
  lemma PlanSays(cfg: Config, log: seq<Row>, r: Row, scene: nat)
    requires r.speaker.Teacher? && r.speaker.source == Plan && r.phase == scene
    requires !Asked(log, scene) && forall q :: !Heard(log, scene, q)
    ensures !Asked(log + [r], scene) && EntryUnderWay(cfg, log + [r], scene, cfg.personas)
  {
    assert cfg.personas == cfg.personas[|cfg.personas| - |cfg.personas|..];
    forall q ensures !Heard(log + [r], scene, q) {
      QuestionSays(log, r, scene, q);
    }
    QuestionSays(log, r, scene, 0);
  }

  lemma UserSays(log: seq<Row>, r: Row, scene: nat, personas: seq<nat>)
    requires r.speaker.Teacher? && r.speaker.source == User && r.phase == scene && HeardAll(log, scene, personas)
    ensures Asked(log + [r], scene) && HeardAll(log + [r], scene, personas)
  {
    forall q | q in personas ensures Heard(log + [r], scene, q) {
      QuestionSays(log, r, scene, q);
    }
    QuestionSays(log, r, scene, 0);
  }

  lemma DescribesTeacher(cfg: Config, p: Pos, log: seq<Row>, r: Row)
    requires ValidConfig(cfg) && Describes(cfg, p, log)
    requires Read1(cfg, p, r) != Broken && r.speaker.Teacher?
    ensures Describes(cfg, Read1(cfg, p, r), log + [r])
  {
    if r.speaker.source == Plan {
      PlanSays(cfg, log, r, p.scene);
    } else {
      UserSays(log, r, p.scene, cfg.personas);
    }
  }

  /** The next seat answers its planned question. */
  lemma EntryAnswer(cfg: Config, log: seq<Row>, r: Row, scene: nat, rest: seq<nat>)
    requires ValidConfig(cfg) && rest != [] && EntryUnderWay(cfg, log, scene, rest)
    requires r.phase == scene && Matches(OfPersona(rest[0]), r)
    ensures !Heard(log, scene, rest[0])
    ensures EntryUnderWay(cfg, log + [r], scene, rest[1..])
  {
    SceneGrows(log, r, scene);
    var n := |cfg.personas| - |rest|;
    assert rest[0] == cfg.personas[n];
    forall q | q in cfg.personas ensures q in rest[1..] <==> q in rest && q != rest[0] {
      if q in rest[1..] {
        var k :| 0 <= k < |rest[1..]| && rest[1..][k] == q;
        assert cfg.personas[n + 1 + k] == q;
      }
    }
  }

  lemma DescribesStudent(cfg: Config, p: Pos, log: seq<Row>, r: Row)
    requires ValidConfig(cfg) && Describes(cfg, p, log)
    requires Read1(cfg, p, r) != Broken && r.speaker.Student?
    ensures Describes(cfg, Read1(cfg, p, r), log + [r])
  {
    SceneGrows(log, r, p.scene);
    if !p.asked {
      EntryAnswer(cfg, log, r, p.scene, p.rest);
    }
  }

  lemma {:induction false} PositionDescribes(cfg: Config, log: seq<Row>)
    requires ValidConfig(cfg) && Position(cfg, log) != Broken
    ensures Describes(cfg, Position(cfg, log), log)
  {
    if log != [] {
      var n := |log| - 1;
      var p := Position(cfg, log[..n]);
      PositionDescribes(cfg, log[..n]);
      assert log == log[..n] + [log[n]];
      match log[n].speaker
      case System(_) => DescribesSystem(cfg, p, log[..n], log[n]);
      case Teacher(_, _, _) => DescribesTeacher(cfg, p, log[..n], log[n]);
      case Student(_, _, _) => DescribesStudent(cfg, p, log[..n], log[n]);
    }
  }
}
