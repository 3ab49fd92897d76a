/** When agreement, once reached, stays: always under appends, and under in-place
    regeneration exactly when the row being rewritten is not the only one that agrees. */
module SessionSticky {
  import opened Wrappers
  import opened Reaction
  import opened Transcript
  import opened Agreement
  import opened SessionProtocol
  import opened SessionGrammar
  import opened SessionInvariant

  // ------------------------------------------------------------ one commit

  /** Row `k` agrees for the student and no other row does. */
  predicate OnlyAgreement(log: seq<Row>, k: nat, idx: nat, persona: nat)
    requires k < |log|
  {
    AgreeingRow(log[k], idx, persona)
    && forall i | 0 <= i < |log| && i != k :: !AgreeingRow(log[i], idx, persona)
  }

  lemma AmendKeepsOthers(log: seq<Row>, p: Patch, k: nat, idx: nat, persona: nat)
    requires Numbered(log) && k < |log| && p.no == k + 1
    requires HasAgreed(log, idx, persona) && !OnlyAgreement(log, k, idx, persona)
    ensures HasAgreed(Amend(log, p), idx, persona)
  {
    var i :| 0 <= i < |log| && AgreeingRow(log[i], idx, persona);
    if i == k {
      var j :| 0 <= j < |log| && j != k && AgreeingRow(log[j], idx, persona);
      assert Amend(log, p)[j] == log[j];
    } else {
      assert Amend(log, p)[i] == log[i];
    }
  }

  /** A reply that parses and shows no understanding at all. */
  const Blank := Parsed(RawReaction("", "", "", "", false, 0, true))

  lemma BlankUndoes(cfg: Config, s: Session, call: Pending, sends: bool)
    requires ValidConfig(cfg) && SessionInv(cfg, s) && LoadedFailed(call) && PendingInv(cfg, s, call)
    requires var k := LoadedRow(call).no - 1; 0 <= k < |s.log| && OnlyAgreement(s.log, k, call.idx, call.persona)
    ensures !HasAgreed(Amend(s.log, RegeneratePatch(cfg, call, Blank, sends)), call.idx, call.persona)
  {
    var p := RegeneratePatch(cfg, call, Blank, sends);
    var out := Amend(s.log, p);
    assert p.structured.Some? && p.structured.value.understanding.Some?;
    assert p.structured.value.understanding.value <= 0;
    forall i | 0 <= i < |out| ensures !AgreeingRow(out[i], call.idx, call.persona) {
      assert s.log[i].no == i + 1;
      if i == p.no - 1 {
        assert out[i].speaker.structured == p.structured;
      }
    }
  }

  /** The agreement stands after the regenerate has committed this answer. */
  predicate AgreesStill(cfg: Config, s: Session, call: Pending, result: LlmResult, sends: bool)
    requires LoadedFailed(call)
  {
    var step := CommitRegenerate(cfg, s, call, result, sends);
    step.Ok? ==> HasAgreed(step.value.log, call.idx, call.persona)
  }

  /** A regenerate keeps what its student has agreed, whatever the model answers, exactly
      when the row it overwrites is not by now the student's only agreeing row. The
      service does not look at the row again under the lock. */
  lemma RegenerateKeepsAgreement(cfg: Config, s: Session, call: Pending, sends: bool)
    requires ValidConfig(cfg) && SessionInv(cfg, s) && LoadedFailed(call) && PendingInv(cfg, s, call)
    requires s.running && s.current == call.idx && HasAgreed(s.log, call.idx, call.persona)
    ensures 1 <= LoadedRow(call).no <= |s.log|
    ensures (forall result :: AgreesStill(cfg, s, call, result, sends))
            <==> !OnlyAgreement(s.log, LoadedRow(call).no - 1, call.idx, call.persona)
  {
    LoadedInLog(cfg, s, call);
    var k := LoadedRow(call).no - 1;
    if OnlyAgreement(s.log, k, call.idx, call.persona) {
      BlankUndoes(cfg, s, call, sends);
      assert !AgreesStill(cfg, s, call, Blank, sends);
    } else {
      forall result ensures AgreesStill(cfg, s, call, result, sends) {
        AmendKeepsOthers(s.log, RegeneratePatch(cfg, call, result, sends), k, call.idx, call.persona);
      }
    }
  }

  // ------------------------------------------------------------------ runs

  /** The act starts a regenerate of a student for whom one is waiting already. */
  predicate Overlaps(w: World, a: Act) {
    a.Start? && a.request.Regenerate?
    && exists id :: id in w.pending && Rewrites(w.pending[id], w.session.current, a.request.persona)
  }

  predicate Rewrites(call: Pending, idx: nat, persona: nat) {
    call.RegenerateCall? && call.idx == idx && call.persona == persona
  }

  /** Regenerates of one student in one scene come one after the other. */
  predicate Solo(cfg: Config, w: World, acts: seq<Act>) {
    acts == [] || (Solo(cfg, w, acts[..|acts| - 1]) && !Overlaps(Exec(cfg, w, acts[..|acts| - 1]), acts[|acts| - 1]))
  }

  /** The row a waiting regenerate is about to rewrite is still a failed one. */
  predicate StillFailed(s: Session, call: Pending) {
    LoadedFailed(call) && call.idx == s.current
    ==> 1 <= LoadedRow(call).no <= |s.log| && !Valid(s.log[LoadedRow(call).no - 1])
  }

  predicate Alone(w: World, a: nat, b: nat)
    requires a in w.pending && b in w.pending
  {
    w.pending[a].RegenerateCall? && Rewrites(w.pending[b], w.pending[a].idx, w.pending[a].persona) ==> a == b
  }

  predicate SoloInv(w: World) {
    && (forall id | id in w.pending :: StillFailed(w.session, w.pending[id]))
    && (forall a, b | a in w.pending && b in w.pending :: Alone(w, a, b))
  }

  /** Two waiting regenerates of different students aim at different rows. */
  lemma DifferentRows(cfg: Config, s: Session, x: Pending, y: Pending)
    requires SessionInv(cfg, s) && LoadedFailed(x) && LoadedFailed(y)
    requires PendingInv(cfg, s, x) && PendingInv(cfg, s, y)
    requires LoadedRow(x).no == LoadedRow(y).no
    ensures Rewrites(y, x.idx, x.persona)
  {
    LoadedInLog(cfg, s, x);
    LoadedInLog(cfg, s, y);
  }

  lemma StartSolo(cfg: Config, w: World, a: Act)
    requires ValidConfig(cfg) && Inv(cfg, w) && SoloInv(w) && a.Start? && !Overlaps(w, a)
    ensures SoloInv(Step(cfg, w, a))
  {
    var w' := Step(cfg, w, a);
    if w'.pending != w.pending {
      var call := w'.pending[a.id];
      ReadKeeps(cfg, w.session, a.request);
      if call.RegenerateCall? {
        LoadedNow(cfg, w.session, call);
      }
      forall x, y | x in w'.pending && y in w'.pending ensures Alone(w', x, y) {
        if x != a.id && y != a.id {
          assert Alone(w, x, y);
        }
      }
    }
  }

  /** Right after the snapshot the loaded row is the row in the log. */
  lemma LoadedNow(cfg: Config, s: Session, call: Pending)
    requires Numbered(s.log) && LoadedFailed(call) && call.stored == Scene(s.log, call.idx)
    ensures StillFailed(s, call)
  {
    SelectMembers(call.stored, OfPersona(call.persona), LoadedRow(call));
    SelectMembers(s.log, InScene(call.idx), LoadedRow(call));
    var i :| 0 <= i < |s.log| && s.log[i] == LoadedRow(call);
  }

  lemma AppendStillFailed(s: Session, t: Session, call: Pending)
    requires StillFailed(s, call) && t.current == s.current
    requires |s.log| <= |t.log| && t.log[..|s.log|] == s.log
    ensures StillFailed(t, call)
  {
    if LoadedFailed(call) && call.idx == s.current {
      assert t.log[LoadedRow(call).no - 1] == t.log[..|s.log|][LoadedRow(call).no - 1];
    }
  }

  /** After the scene has moved on no waiting regenerate aims at the new one. */
  lemma NothingToRewrite(cfg: Config, s: Session, t: Session, call: Pending)
    requires ValidConfig(cfg) && SessionInv(cfg, s) && s.running && PendingInv(cfg, s, call)
    requires t.current == s.current + 1
    ensures StillFailed(t, call)
  {
    PositionDescribes(cfg, s.log);
    if call.RegenerateCall? && call.idx == t.current {
      LoadedInLog(cfg, s, call);
      assert false;
    }
  }

  /** A commit leaves the rows other waiting regenerates aim at failed. */
  lemma CommitSolo(cfg: Config, s: Session, call: Pending, results: seq<LlmResult>, sends: bool, other: Pending)
    requires ValidConfig(cfg) && SessionInv(cfg, s) && PendingInv(cfg, s, call) && PendingInv(cfg, s, other)
    requires |results| == Calls(cfg, call) && CommitCall(cfg, s, call, results, sends).Ok?
    requires StillFailed(s, other)
    requires call.RegenerateCall? ==> !Rewrites(other, call.idx, call.persona)
    ensures StillFailed(CommitCall(cfg, s, call, results, sends).value, other)
  {
    var t := CommitCall(cfg, s, call, results, sends).value;
    match call
    case EnterCall(_) => AppendStillFailed(s, t, other);
    case SayCall(_, _, _, _) => AppendStillFailed(s, t, other);
    case AdvanceCall(_, _) =>
      if t.current == s.current { AppendStillFailed(s, t, other); } else { NothingToRewrite(cfg, s, t, other); }
    case FinishCall(_) => AppendStillFailed(s, t, other);
    case RegenerateCall(_, _, _) =>
      if LoadedFailed(other) && LoadedRow(other).no == LoadedRow(call).no {
        DifferentRows(cfg, s, call, other);
        assert false;
      }
  }

  lemma StepSolo(cfg: Config, w: World, a: Act)
    requires ValidConfig(cfg) && Inv(cfg, w) && SoloInv(w) && !Overlaps(w, a)
    ensures SoloInv(Step(cfg, w, a))
  {
    if Enabled(cfg, w, a) {
      match a
      case Start(_, _) => StartSolo(cfg, w, a);
      case Abandon(id) => FewerSolo(w, w.session, id);
      case Commit(id, results, sends) =>
        var call := w.pending[id];
        var r := CommitCall(cfg, w.session, call, results, sends);
        var t := if r.Ok? then r.value else w.session;
        forall k | k in w.pending && k != id ensures StillFailed(t, w.pending[k]) {
          if r.Ok? {
            assert Alone(w, id, k);
            CommitSolo(cfg, w.session, call, results, sends, w.pending[k]);
          }
        }
        FewerSolo(w, t, id);
    }
  }

  lemma FewerSolo(w: World, t: Session, id: nat)
    requires SoloInv(w) && forall k | k in w.pending && k != id :: StillFailed(t, w.pending[k])
    ensures SoloInv(World(t, w.pending - {id}))
  {
    var w' := World(t, w.pending - {id});
    forall x, y | x in w'.pending && y in w'.pending ensures Alone(w', x, y) {
      assert Alone(w, x, y);
    }
  }

  /** One step, overlapping or not, undoes no agreement but by a regenerate. */
  lemma StepSticky(cfg: Config, w: World, a: Act, idx: nat, persona: nat)
    requires ValidConfig(cfg) && Inv(cfg, w) && SoloInv(w)
    requires HasAgreed(w.session.log, idx, persona)
    ensures HasAgreed(Step(cfg, w, a).session.log, idx, persona)
  {
    if Enabled(cfg, w, a) && a.Commit? {
      var s, call := w.session, w.pending[a.id];
      var r := CommitCall(cfg, s, call, a.results, a.sends);
      if r.Ok? {
        if call.RegenerateCall? {
          LoadedInLog(cfg, s, call);
          assert StillFailed(s, call);
          AmendKeepsOthers(s.log, RegeneratePatch(cfg, call, a.results[0], a.sends), LoadedRow(call).no - 1, idx, persona);
        } else {
          CommitAppends(cfg, s, call, a.results, a.sends);
          AgreementSticky(s.log, r.value.log[|s.log|..], idx, persona);
        }
      }
    }
  }

  lemma CommitAppends(cfg: Config, s: Session, call: Pending, results: seq<LlmResult>, sends: bool)
    requires s.current < |cfg.prompts| && |results| == Calls(cfg, call) && !call.RegenerateCall?
    requires CommitCall(cfg, s, call, results, sends).Ok?
    ensures var t := CommitCall(cfg, s, call, results, sends).value;
      |s.log| <= |t.log| && s.log + t.log[|s.log|..] == t.log
  {
  }

  lemma {:induction false} ExecSticky(cfg: Config, w: World, acts: seq<Act>, idx: nat, persona: nat)
    requires ValidConfig(cfg) && Inv(cfg, w) && SoloInv(w) && Solo(cfg, w, acts)
    ensures SoloInv(Exec(cfg, w, acts))
    ensures HasAgreed(w.session.log, idx, persona) ==> HasAgreed(Exec(cfg, w, acts).session.log, idx, persona)
  {
    if acts != [] {
      var n := |acts| - 1;
      var mid := Exec(cfg, w, acts[..n]);
      ExecSticky(cfg, w, acts[..n], idx, persona);
      ExecKeeps(cfg, w, acts[..n]);
      StepSolo(cfg, mid, acts[n]);
      if HasAgreed(w.session.log, idx, persona) {
        StepSticky(cfg, mid, acts[n], idx, persona);
      }
    }
  }

  lemma {:induction false} SoloSplit(cfg: Config, w: World, xs: seq<Act>, ys: seq<Act>)
    requires Solo(cfg, w, xs + ys)
    ensures Solo(cfg, w, xs) && Solo(cfg, Exec(cfg, w, xs), ys)
    decreases |ys|
  {
    if ys == [] {
      assert xs + ys == xs;
    } else {
      var n := |ys| - 1;
      assert (xs + ys)[..|xs| + n] == xs + ys[..n];
      SoloSplit(cfg, w, xs, ys[..n]);
      ExecAppend(cfg, w, xs, ys[..n]);
    }
  }

  /** In a run in which regenerates of one student do not overlap, what a student has
      agreed in any scene is never undone: not by later rows, failed replies, low
      scores, or rows rewritten in place. */
  lemma AgreedSetGrows(cfg: Config, before: seq<Act>, after: seq<Act>, idx: nat, persona: nat)
    requires ValidConfig(cfg) && Solo(cfg, Created, before + after)
    requires HasAgreed(Exec(cfg, Created, before).session.log, idx, persona)
    ensures HasAgreed(Exec(cfg, Created, before + after).session.log, idx, persona)
  {
    SoloSplit(cfg, Created, before, after);
    Reachable(cfg, before);
    ExecSticky(cfg, Created, before, idx, persona);
    ExecSticky(cfg, Exec(cfg, Created, before), after, idx, persona);
    ExecAppend(cfg, Created, before, after);
  }

  // ---------------------------------------------------------- what is frozen

  /** A row of a scene that was left is never touched again, overlapping or not. */
  lemma {:induction false} PastScenesFrozen(cfg: Config, w: World, acts: seq<Act>, i: nat)
    requires ValidConfig(cfg) && Inv(cfg, w) && i < |w.session.log|
    requires w.session.log[i].phase < w.session.current
    ensures i < |Exec(cfg, w, acts).session.log| && Exec(cfg, w, acts).session.log[i] == w.session.log[i]
    ensures w.session.current <= Exec(cfg, w, acts).session.current
  {
    if acts != [] {
      var n := |acts| - 1;
      PastScenesFrozen(cfg, w, acts[..n], i);
      ExecKeeps(cfg, w, acts[..n]);
      StepFreezes(cfg, Exec(cfg, w, acts[..n]), acts[n], i);
    }
  }

  lemma PatchElsewhere(log: seq<Row>, p: Patch, i: nat)
    requires Numbered(log) && 1 <= p.no <= |log| && i < |log| && log[i].phase != log[p.no - 1].phase
    ensures Amend(log, p)[i] == log[i]
  {
    assert log[i].no == i + 1;
  }

  lemma RewriteFreezes(cfg: Config, s: Session, call: Pending, result: LlmResult, sends: bool, i: nat)
    requires SessionInv(cfg, s) && LoadedFailed(call) && PendingInv(cfg, s, call) && call.idx == s.current
    requires i < |s.log| && s.log[i].phase < s.current
    ensures Amend(s.log, RegeneratePatch(cfg, call, result, sends))[i] == s.log[i]
  {
    LoadedInLog(cfg, s, call);
    PatchElsewhere(s.log, RegeneratePatch(cfg, call, result, sends), i);
  }

  lemma CommitFreezes(cfg: Config, s: Session, call: Pending, results: seq<LlmResult>, sends: bool, i: nat)
    requires SessionInv(cfg, s) && PendingInv(cfg, s, call) && |results| == Calls(cfg, call)
    requires CommitCall(cfg, s, call, results, sends).Ok?
    requires i < |s.log| && s.log[i].phase < s.current
    ensures var t := CommitCall(cfg, s, call, results, sends).value;
      i < |t.log| && t.log[i] == s.log[i] && s.current <= t.current
  {
    if call.RegenerateCall? {
      RewriteFreezes(cfg, s, call, results[0], sends, i);
    } else {
      CommitAppends(cfg, s, call, results, sends);
      var t := CommitCall(cfg, s, call, results, sends).value;
      assert t.log[i] == (s.log + t.log[|s.log|..])[i];
    }
  }

  lemma StepFreezes(cfg: Config, w: World, a: Act, i: nat)
    requires ValidConfig(cfg) && Inv(cfg, w) && i < |w.session.log| && w.session.log[i].phase < w.session.current
    ensures i < |Step(cfg, w, a).session.log| && Step(cfg, w, a).session.log[i] == w.session.log[i]
    ensures w.session.current <= Step(cfg, w, a).session.current
  {
    if Enabled(cfg, w, a) && a.Commit? {
      if CommitCall(cfg, w.session, w.pending[a.id], a.results, a.sends).Ok? {
        CommitFreezes(cfg, w.session, w.pending[a.id], a.results, a.sends, i);
      }
    }
  }

  /** A reaction that parsed never turns into a failed one when the columns a failed
      retry leaves as loaded are not sent: an overlapping retry that fails is harmless. */
  lemma {:induction false} ParsedStaysParsed(cfg: Config, w: World, acts: seq<Act>, i: nat)
    requires ValidConfig(cfg) && Inv(cfg, w) && i < |w.session.log| && Valid(w.session.log[i])
    requires forall a | a in acts && a.Commit? :: !a.sends
    ensures i < |Exec(cfg, w, acts).session.log| && Valid(Exec(cfg, w, acts).session.log[i])
  {
    if acts != [] {
      var n := |acts| - 1;
      ParsedStaysParsed(cfg, w, acts[..n], i);
      ExecKeeps(cfg, w, acts[..n]);
      var mid := Exec(cfg, w, acts[..n]);
      if Enabled(cfg, mid, acts[n]) && acts[n].Commit? {
        var call := mid.pending[acts[n].id];
        if CommitCall(cfg, mid.session, call, acts[n].results, acts[n].sends).Ok? && !call.RegenerateCall? {
          CommitAppends(cfg, mid.session, call, acts[n].results, acts[n].sends);
        }
      }
    }
  }
}
