/** Runs in which the service does less than its promise: what overlapping requests and
    replies that fail to parse can do. One pupil, one scene. */
module SessionRuns {
  import opened Wrappers
  import opened Text
  import opened Reaction
  import opened Transcript
  import opened Agreement
  import opened SessionProtocol
  import opened SessionInvariant
  import opened SessionRegenerate
  import opened SessionScores
  import opened SessionSticky

  function Reply(score: int): LlmResult { Parsed(RawReaction("", "", "", "", false, score, true)) }

  function OnePupil(rules: TextRules): Config { Config(rules, [7], ["plan"], 2) }

  const Ask := Say(None, "ask")

  function Pupil(no: nat, structured: Option<Stored>, words: string): Row { Row(no, 0, Student(7, structured, words)) }

  /** The log after the entry block. */
  function Entry(answer: Option<Stored>, words: string): seq<Row> {
    [Row(1, 0, System(PhaseEnter)), Row(2, 0, Teacher(Plan, None, "plan")), Pupil(3, answer, words)]
  }

  /** A question and its answer. */
  function Turn(no: nat, answer: Option<Stored>, words: string): seq<Row> {
    [Row(no, 0, Teacher(User, None, "ask")), Pupil(no + 1, answer, words)]
  }

  function Open(log: seq<Row>): World { World(Session(true, 0, log), map[]) }

  // ------------------------------------------------------------------- acts

  lemma ExecOne(cfg: Config, w: World, a: Act)
    ensures Exec(cfg, w, [a]) == Step(cfg, w, a)
  {
    assert [a][..0] == [];
  }

  lemma ExecMore(cfg: Config, w: World, acts: seq<Act>, a: Act)
    ensures Exec(cfg, w, acts + [a]) == Step(cfg, Exec(cfg, w, acts), a)
  {
    assert (acts + [a])[..|acts|] == acts;
  }

  lemma ExecThree(cfg: Config, w: World, acts: seq<Act>)
    requires |acts| == 3
    ensures Exec(cfg, w, acts) == Step(cfg, Step(cfg, Step(cfg, w, acts[0]), acts[1]), acts[2])
  {
    ExecOne(cfg, w, acts[0]);
    ExecMore(cfg, w, [acts[0]], acts[1]);
    ExecMore(cfg, w, [acts[0]] + [acts[1]], acts[2]);
    assert acts == [acts[0]] + [acts[1]] + [acts[2]];
  }

  lemma CommitStep(cfg: Config, w: World, id: nat, results: seq<LlmResult>, s: Session)
    requires Enabled(cfg, w, Commit(id, results, false))
    requires CommitCall(cfg, w.session, w.pending[id], results, false) == Ok(s)
    ensures Step(cfg, w, Commit(id, results, false)) == World(s, w.pending - {id})
  {
  }

  lemma SelectNext(rows: seq<Row>, r: Row, q: Query)
    ensures Select(rows + [r], q) == Select(rows, q) + (if Matches(q, r) then [r] else [])
  {
    assert (rows + [r])[..|rows|] == rows;
  }

  // ------------------------------------------------------------- entry block

  lemma EntrySelects(answer: Option<Stored>, words: string)
    ensures var e := Entry(answer, words);
      && Scene(e, 0) == e && Select(e, UserTurn) == [] && Select(e, OfPersona(7)) == [e[2]] && NextNo(e) == 4
  {
    var e := Entry(answer, words);
    SelectAll(e, InScene(0));
    SelectNone(e, UserTurn);
    assert e == e[..2] + [e[2]];
    SelectNone(e[..2], OfPersona(7));
    SelectNext(e[..2], e[2], OfPersona(7));
    NumberedNext(e);
  }

  /** Entering, with any reply. */
  function Opening(result: LlmResult): seq<Act> { [Start(0, Enter(0)), Commit(0, [result], false)] }

  lemma EntryCommit(rules: TextRules, result: LlmResult)
    ensures CommitEnter(OnePupil(rules), Session(true, 0, []), 0, [result])
            == Ok(Session(true, 0, Entry(SettledRow(rules, result, EntryContext), RowWords(result))))
  {
    var cfg := OnePupil(rules);
    var e := Entry(SettledRow(rules, result, EntryContext), RowWords(result));
    assert EntryReactions(cfg, 0, 3, [result]) == [e[2]];
    assert EnterRows(cfg, 0, 1, [result]) == e;
    assert [] + e == e;
  }

  lemma OpeningRun(rules: TextRules, result: LlmResult)
    ensures Exec(OnePupil(rules), Created, Opening(result))
            == Open(Entry(SettledRow(rules, result, EntryContext), RowWords(result)))
  {
    var cfg := OnePupil(rules);
    ExecOne(cfg, Created, Start(0, Enter(0)));
    ExecMore(cfg, Created, [Start(0, Enter(0))], Commit(0, [result], false));
    assert Opening(result) == [Start(0, Enter(0))] + [Commit(0, [result], false)];
    var w := Step(cfg, Created, Start(0, Enter(0)));
    assert w == World(Session(true, 0, []), map[0 := EnterCall(0)]);
    EntryCommit(rules, result);
    CommitStep(cfg, w, 0, [result], Session(true, 0, Entry(SettledRow(rules, result, EntryContext), RowWords(result))));
    assert w.pending - {0} == map[];
  }

  // --------------------------------------------------------------------- say

  lemma SayReads(rules: TextRules, answer: Option<Stored>, words: string)
    ensures Read(OnePupil(rules), Session(true, 0, Entry(answer, words)), Ask)
            == Ok(Some(SayCall(0, Entry(answer, words), None, "ask")))
  {
    EntrySelects(answer, words);
  }

  /** What a say adds, judged on the entry block alone. */
  lemma SayAdds(rules: TextRules, answer: Option<Stored>, words: string, no: nat, result: LlmResult)
    ensures var cfg := OnePupil(rules); var e := Entry(answer, words); var call := SayCall(0, e, None, "ask");
      && Calls(cfg, call) == 1
      && SayRows(cfg, call, no, [result])
         == Turn(no, SettledRow(rules, result, ContextOf(e, 7, false, "ask")), RowWords(result))
  {
    var cfg, e := OnePupil(rules), Entry(answer, words);
    var call := SayCall(0, e, None, "ask");
    RespondersOf7(cfg);
    var turn := Turn(no, SettledRow(rules, result, ContextOf(e, 7, false, "ask")), RowWords(result));
    assert Reactions(cfg, call, no + 1, Responders(cfg.personas, None), [result]) == [turn[1]];
  }

  lemma RespondersOf7(cfg: Config)
    requires cfg.personas == [7]
    ensures Responders(cfg.personas, None) == [7]
  {
    assert Responders([7][..0], None) == [];
  }

  lemma SayCommits(cfg: Config, s: Session, call: Pending, results: seq<LlmResult>, no: nat)
    requires call.SayCall? && |results| == Calls(cfg, call) && s.running && s.current == call.idx
    requires Count(s.log, UserTurn) < cfg.maxTurns && NextNo(s.log) == no
    ensures CommitSay(cfg, s, call, results) == Ok(s.(log := s.log + SayRows(cfg, call, no, results)))
  {
  }

  /** A question asked on the entry block commits, whatever else has been written. */
  lemma AskedCommits(rules: TextRules, answer: Option<Stored>, words: string, log: seq<Row>, w: World, id: nat, no: nat, result: LlmResult)
    requires var call := SayCall(0, Entry(answer, words), None, "ask");
      w.session == Session(true, 0, log) && id in w.pending && w.pending[id] == call
    requires Count(log, UserTurn) < 2 && NextNo(log) == no
    ensures var cfg := OnePupil(rules); var e := Entry(answer, words);
      && Enabled(cfg, w, Commit(id, [result], false))
      && CommitSay(cfg, w.session, w.pending[id], [result]).Ok?
      && Step(cfg, w, Commit(id, [result], false))
         == World(Session(true, 0, log + Turn(no, SettledRow(rules, result, ContextOf(e, 7, false, "ask")), RowWords(result))),
                  w.pending - {id})
  {
    var cfg := OnePupil(rules);
    SayAdds(rules, answer, words, no, result);
    SayCommits(cfg, w.session, w.pending[id], [result], no);
    CommitStep(cfg, w, id, [result], CommitSay(cfg, w.session, w.pending[id], [result]).value);
  }

  /** Asking once, with any reply. */
  function Asking(result: LlmResult): seq<Act> { [Start(1, Ask), Commit(1, [result], false)] }

  lemma AskingRun(rules: TextRules, answer: Option<Stored>, words: string, result: LlmResult)
    ensures var e := Entry(answer, words);
      Exec(OnePupil(rules), Open(e), Asking(result))
      == Open(e + Turn(4, SettledRow(rules, result, ContextOf(e, 7, false, "ask")), RowWords(result)))
  {
    var cfg, e := OnePupil(rules), Entry(answer, words);
    var call := SayCall(0, e, None, "ask");
    ExecOne(cfg, Open(e), Start(1, Ask));
    ExecMore(cfg, Open(e), [Start(1, Ask)], Commit(1, [result], false));
    assert Asking(result) == [Start(1, Ask)] + [Commit(1, [result], false)];
    SayReads(rules, answer, words);
    var w := Step(cfg, Open(e), Start(1, Ask));
    assert w == World(Session(true, 0, e), map[1 := call]);
    EntrySelects(answer, words);
    AskedCommits(rules, answer, words, e, w, 1, 4, result);
    assert w.pending - {1} == map[];
  }

  // ------------------------------------------------------- no cap after failure

  /** An entry reaction that fails to parse, and a model that then claims full marks. */
  const Leap: seq<Act> := Opening(Unparsed("?")) + Asking(Reply(100))

  /** The pupil's second row of the scene shows 100 and the scene is agreed at once, with
      the rise cap in force: it had nothing to measure the rise against. */
  lemma FailedEntryLeaps(rules: TextRules)
    ensures var log := Exec(OnePupil(rules), Created, Leap).session.log;
      && |log| == 5 && !Valid(log[2]) && Valid(log[4])
      && log[4].speaker.structured.value.understanding == Some(100)
      && AllAgreed(Scene(log, 0), 0, [7])
  {
    var cfg := OnePupil(rules);
    var e := Entry(None, "?");
    OpeningRun(rules, Unparsed("?"));
    ExecAppend(cfg, Created, Opening(Unparsed("?")), Asking(Reply(100)));
    AskingRun(rules, None, "?", Reply(100));
    NothingBefore(rules);
    var log := Exec(cfg, Created, Leap).session.log;
    assert log[4] == Turn(4, SettledRow(rules, Reply(100), ContextOf(e, 7, false, "ask")), RowWords(Reply(100)))[1];
    assert AgreeingRow(log[4], 0, 7);
    AllAgreedMeaning(Scene(log, 0), 0, [7]);
    AgreementLocal(log, 0, 7);
  }

  lemma NothingBefore(rules: TextRules)
    ensures var s := SettledRow(rules, Reply(100), ContextOf(Entry(None, "?"), 7, false, "ask"));
      s.Some? && s.value.understanding == Some(100)
  {
    EntrySelects(None, "?");
    NothingValid(Entry(None, "?"), 7);
  }

  // ------------------------------------------------- overlapping regenerates

  function Shown70(rules: TextRules): Option<Stored> { Some(Validated(rules, Reply(70).raw)) }

  lemma EntryScore(rules: TextRules)
    ensures SettledRow(rules, Reply(70), EntryContext) == Shown70(rules) && RowWords(Reply(70)) == "()"
  {
    var s := Validated(rules, Reply(70).raw);
    assert Settled(s, None, EchoesContext(rules, s, EntryContext), true) == 70;
  }

  /** A scene in which the last answer failed to parse. */
  function Dialogue(rules: TextRules, answer: Option<Stored>, words: string): seq<Row> {
    Entry(Shown70(rules), "()") + Turn(4, answer, words)
  }

  lemma TurnAdds(rows: seq<Row>, no: nat, answer: Option<Stored>, words: string)
    ensures var t := Turn(no, answer, words);
      && Select(rows + t, OfPersona(7)) == Select(rows, OfPersona(7)) + [t[1]]
      && Select(rows + t, UserTurn) == Select(rows, UserTurn) + [t[0]]
  {
    var t := Turn(no, answer, words);
    assert rows + t == rows + [t[0]] + [t[1]];
    SelectNext(rows, t[0], OfPersona(7));
    SelectNext(rows + [t[0]], t[1], OfPersona(7));
    SelectNext(rows, t[0], UserTurn);
    SelectNext(rows + [t[0]], t[1], UserTurn);
  }

  lemma OneAsked(rules: TextRules, answer: Option<Stored>, words: string)
    ensures var e := Entry(Shown70(rules), "()"); var d := e + Turn(4, answer, words);
      && Scene(d, 0) == d && Count(d, UserTurn) == 1 && NextNo(d) == 6 && Select(d, OfPersona(7)) == [e[2], d[4]]
  {
    var e := Entry(Shown70(rules), "()");
    var d := e + Turn(4, answer, words);
    SelectAll(d, InScene(0));
    NumberedNext(d);
    EntrySelects(Shown70(rules), "()");
    TurnAdds(e, 4, answer, words);
  }

  lemma TurnSelects(rules: TextRules, answer: Option<Stored>, words: string)
    ensures var d := Dialogue(rules, answer, words);
      && Scene(d, 0) == d && Select(d, OfPersona(7)) == [d[2], d[4]]
      && AskedNo(d, 5) == Some(4) && WordsAt(d, 4) == "ask"
  {
    var d := Dialogue(rules, answer, words);
    OneAsked(rules, answer, words);
    assert Increasing(d);
    AskedIs(d, 3, 5);
    WordsFound(d, 3);
  }

  /** The two regenerates of that answer, and the first of them commits. */
  const FirstRetry: seq<Act> := [Start(2, Regenerate(7)), Start(3, Regenerate(7)), Commit(2, [Reply(90)], false)]

  /** The second rewrites the row that agrees by now. */
  const SecondRetry: Act := Commit(3, [Reply(10)], false)

  lemma RetryPatch(rules: TextRules, score: int)
    requires !rules.echoes(Validated(rules, Reply(score).raw), "ask", "", "") && 0 <= score <= 90
    ensures var call := RegenerateCall(0, Dialogue(rules, None, "?"), 7);
      && LoadedFailed(call)
      && RegeneratePatch(OnePupil(rules), call, Reply(score), false)
         == Patch(5, "?", Some(Validated(rules, Reply(score).raw)), "()", false)
  {
    var d := Dialogue(rules, None, "?");
    TurnSelects(rules, None, "?");
    assert [d[2], d[4]][..1] == [d[2]];
    assert LastValid([d[2]], 7) == Shown70(rules);
  }

  lemma RetriesStart(rules: TextRules, w: World)
    requires w == Open(Dialogue(rules, None, "?"))
    ensures var call := RegenerateCall(0, Dialogue(rules, None, "?"), 7);
      Step(OnePupil(rules), Step(OnePupil(rules), w, FirstRetry[0]), FirstRetry[1]) == World(w.session, map[2 := call, 3 := call])
  {
    TurnSelects(rules, None, "?");
  }

  /** The scene with its failed answer. */
  function Failing(): seq<Act> { Opening(Reply(70)) + Asking(Unparsed("?")) }

  lemma FailingRun(rules: TextRules)
    ensures Exec(OnePupil(rules), Created, Failing()) == Open(Dialogue(rules, None, "?"))
  {
    OpeningRun(rules, Reply(70));
    EntryScore(rules);
    ExecAppend(OnePupil(rules), Created, Opening(Reply(70)), Asking(Unparsed("?")));
    AskingRun(rules, Shown70(rules), "()", Unparsed("?"));
  }

  /** The answer shows 90 and the second retry still waits. */
  predicate Retried(rules: TextRules, w: World) {
    && w.session.running && w.session.current == 0 && |w.session.log| == 5
    && w.session.log[4] == Pupil(5, Some(Validated(rules, Reply(90).raw)), "()")
    && (forall i | 0 <= i < 4 :: w.session.log[i] == Dialogue(rules, None, "?")[i])
    && 3 in w.pending && w.pending[3] == RegenerateCall(0, Dialogue(rules, None, "?"), 7)
  }

  lemma FirstRetryWins(rules: TextRules)
    requires !rules.echoes(Validated(rules, Reply(90).raw), "ask", "", "")
    ensures Retried(rules, Exec(OnePupil(rules), Created, Failing() + FirstRetry))
  {
    var cfg := OnePupil(rules);
    FailingRun(rules);
    ExecAppend(cfg, Created, Failing(), FirstRetry);
    var w := Open(Dialogue(rules, None, "?"));
    ExecThree(cfg, w, FirstRetry);
    RetriesStart(rules, w);
    RetryPatch(rules, 90);
  }

  /** What the second retry writes over it. */
  function Lost(rules: TextRules): Patch { Patch(5, "?", Some(Validated(rules, Reply(10).raw)), "()", false) }

  lemma SecondRetryWrites(rules: TextRules, w: World)
    requires Retried(rules, w) && !rules.echoes(Validated(rules, Reply(10).raw), "ask", "", "")
    ensures Step(OnePupil(rules), w, SecondRetry).session.log == Amend(w.session.log, Lost(rules))
  {
    RetryPatch(rules, 10);
  }

  lemma LostAgreement(rules: TextRules, w: World)
    requires Retried(rules, w)
    ensures HasAgreed(w.session.log, 0, 7) && !HasAgreed(Amend(w.session.log, Lost(rules)), 0, 7)
  {
    assert AgreeingRow(w.session.log[4], 0, 7);
    var log := Amend(w.session.log, Lost(rules));
    forall i | 0 <= i < |log| ensures !AgreeingRow(log[i], 0, 7) {
      assert log[i] == PatchRow(w.session.log[i], Lost(rules));
    }
  }

  /** A silent reaction without an artifact is no echo, as long as the filler pattern finds
      nothing in nothing. */
  lemma SilenceIsNoEcho(rules: TextRules, score: int, teacher: string)
    requires JudgesEchoes(rules) && rules.dropFiller("") == ""
    ensures !rules.echoes(Validated(rules, Reply(score).raw), teacher, "", "")
  {
    var s := Validated(rules, Reply(score).raw);
    assert Core(rules, s.utterance) == "";
    assert Strip(s.artifact) == "";
    assert !Echoes(rules, s, teacher, "", "");
  }

  /** The first earns the agreement and the second takes it back. */
  lemma OverlapUndoes(rules: TextRules)
    requires JudgesEchoes(rules) && rules.dropFiller("") == ""
    ensures var cfg := OnePupil(rules); var w := Exec(cfg, Created, Failing() + FirstRetry);
      && ValidConfig(cfg)
      && HasAgreed(w.session.log, 0, 7)
      && !HasAgreed(Step(cfg, w, SecondRetry).session.log, 0, 7)
  {
    SilenceIsNoEcho(rules, 90, "ask");
    SilenceIsNoEcho(rules, 10, "ask");
    FirstRetryWins(rules);
    var w := Exec(OnePupil(rules), Created, Failing() + FirstRetry);
    SecondRetryWrites(rules, w);
    LostAgreement(rules, w);
  }

  // --------------------------------------------------------- shared snapshots

  /** Two questions are asked on the entry block alone; the second answer fails and is
      retried. */
  const Shared: seq<Act> := [Start(1, Ask), Start(2, Ask), Commit(1, [Reply(70)], false)]
  const SecondAnswer: Act := Commit(2, [Unparsed("?")], false)
  const Retry: seq<Act> := [Start(3, Regenerate(7))]

  /** The scene when the second question is written. */
  function Asked1(rules: TextRules): seq<Row> {
    var e := Entry(Shown70(rules), "()");
    e + Turn(4, SettledRow(rules, Reply(70), ContextOf(e, 7, false, "ask")), RowWords(Reply(70)))
  }

  /** And when its answer is retried. */
  function Asked2(rules: TextRules): seq<Row> { Asked1(rules) + Turn(6, None, "?") }

  lemma BothAsked(first: seq<Row>)
    requires Scene(first, 0) == first
    ensures var d := first + Turn(6, None, "?");
      Scene(d, 0) == d && Select(d, OfPersona(7)) == Select(first, OfPersona(7)) + [Pupil(7, None, "?")]
  {
    var t := Turn(6, None, "?");
    SelectAppend(first, t, InScene(0));
    SelectAll(t, InScene(0));
    TurnAdds(first, 6, None, "?");
  }

  lemma BothRead(rules: TextRules)
    ensures var cfg := OnePupil(rules); var e := Entry(Shown70(rules), "()"); var call := SayCall(0, e, None, "ask");
      Step(cfg, Step(cfg, Open(e), Shared[0]), Shared[1]) == World(Session(true, 0, e), map[1 := call, 2 := call])
  {
    SayReads(rules, Shown70(rules), "()");
  }

  lemma SharedRun(rules: TextRules)
    ensures Exec(OnePupil(rules), Created, Opening(Reply(70)) + Shared)
            == World(Session(true, 0, Asked1(rules)), map[2 := SayCall(0, Entry(Shown70(rules), "()"), None, "ask")])
  {
    var cfg, e := OnePupil(rules), Entry(Shown70(rules), "()");
    OpeningRun(rules, Reply(70));
    EntryScore(rules);
    ExecAppend(cfg, Created, Opening(Reply(70)), Shared);
    ExecThree(cfg, Open(e), Shared);
    BothRead(rules);
    var w := Step(cfg, Step(cfg, Open(e), Shared[0]), Shared[1]);
    EntrySelects(Shown70(rules), "()");
    AskedCommits(rules, Shown70(rules), "()", e, w, 1, 4, Reply(70));
    assert w.pending - {1} == map[2 := SayCall(0, e, None, "ask")];
  }

  lemma SecondCommits(rules: TextRules)
    ensures var cfg := OnePupil(rules); var call := SayCall(0, Entry(Shown70(rules), "()"), None, "ask");
      var w := World(Session(true, 0, Asked1(rules)), map[2 := call]);
      && Enabled(cfg, w, SecondAnswer)
      && CommitSay(cfg, w.session, call, [Unparsed("?")]).Ok?
      && Step(cfg, w, SecondAnswer) == Open(Asked2(rules))
  {
    var e := Entry(Shown70(rules), "()");
    var w := World(Session(true, 0, Asked1(rules)), map[2 := SayCall(0, e, None, "ask")]);
    OneAsked(rules, SettledRow(rules, Reply(70), ContextOf(e, 7, false, "ask")), RowWords(Reply(70)));
    AskedCommits(rules, Shown70(rules), "()", Asked1(rules), w, 2, 6, Unparsed("?"));
    assert w.pending - {2} == map[];
  }

  lemma RetryReads(rules: TextRules)
    ensures var call := RegenerateCall(0, Asked2(rules), 7);
      && Exec(OnePupil(rules), Open(Asked2(rules)), Retry) == World(Session(true, 0, Asked2(rules)), map[3 := call])
      && LoadedFailed(call) && LoadedRow(call).no == 7
  {
    var e := Entry(Shown70(rules), "()");
    OneAsked(rules, SettledRow(rules, Reply(70), ContextOf(e, 7, false, "ask")), RowWords(Reply(70)));
    BothAsked(Asked1(rules));
    ExecOne(OnePupil(rules), Open(Asked2(rules)), Retry[0]);
    assert Retry == [Retry[0]];
  }

  /** The retry shows the student the first question and its answer too, which the call
      it retries had not seen. */
  lemma SharedRebuildsMore(rules: TextRules)
    ensures var cfg := OnePupil(rules); var w := Exec(cfg, Created, Opening(Reply(70)) + Shared);
      && ValidConfig(cfg)
      && Retries(cfg, w, SecondAnswer, Retry, 3)
      && Rebuilt(cfg, w, SecondAnswer, Retry, 3) != SayTranscript(w.pending[2], |w.session.log| + 1)
  {
    var cfg := OnePupil(rules);
    SharedRun(rules);
    SecondCommits(rules);
    RetryReads(rules);
    OneAsked(rules, SettledRow(rules, Reply(70), ContextOf(Entry(Shown70(rules), "()"), 7, false, "ask")), RowWords(Reply(70)));
    RebuiltMatches(cfg, Opening(Reply(70)) + Shared, SecondAnswer, Retry, 3);
  }
}
