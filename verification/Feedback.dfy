/** Feedback on a finished session: any number of callers write one report each, the first
    to commit keeps its own, the others delete theirs and return what was kept. */
module Feedback {
  import opened Wrappers

  /** Where a caller is between two awaits. */
  datatype Call =
    | Asking
    | Written(path: string, envelope: string)
    | Beaten(path: string)

  datatype Answer = Answer(envelope: string, cached: bool)

  /** The session row, the report directory, the callers and what they were answered.
      `orphans` are the files callers died over. */
  datatype World = World(
    feedback: Option<string>,
    reportPath: Option<string>,
    files: set<string>,
    calls: map<nat, Call>,
    answers: map<nat, Answer>,
    orphans: set<string>)

  datatype Act =
    | Begin(id: nat)
    | Save(id: nat, path: string, envelope: string)
    | Update(id: nat)
    | Unlink(id: nat)
    | Die(id: nat)
    | DieCommitted(id: nat)

  /** Ids are used once, and `save_report` makes up a name nobody has. */
  predicate Enabled(w: World, a: Act) {
    match a
    case Begin(id) => id !in w.calls && id !in w.answers
    case Save(id, path, _) => id in w.calls && w.calls[id].Asking? && path !in w.files
    case Update(id) => id in w.calls && w.calls[id].Written?
    case Unlink(id) => id in w.calls && w.calls[id].Beaten?
    case Die(id) => id in w.calls
    case DieCommitted(id) => id in w.calls && w.calls[id].Written? && w.feedback.None?
  }

  /** The conditional UPDATE of a caller that finds no feedback yet. */
  function Win(w: World, c: Call): World
    requires c.Written?
  {
    w.(feedback := Some(c.envelope), reportPath := Some(c.path))
  }

  function Step(w: World, a: Act): World {
    if !Enabled(w, a) then w
    else
      match a
      case Begin(id) =>
        if w.feedback.Some? then w.(answers := w.answers[id := Answer(w.feedback.value, true)])
        else w.(calls := w.calls[id := Asking])
      case Save(id, path, envelope) =>
        w.(files := w.files + {path}, calls := w.calls[id := Written(path, envelope)])
      case Update(id) =>
        var c := w.calls[id];
        if w.feedback.None? then
          Win(w, c).(calls := w.calls - {id}, answers := w.answers[id := Answer(c.envelope, false)])
        else w.(calls := w.calls[id := Beaten(c.path)])
      case Unlink(id) =>
        w.(files := w.files - {w.calls[id].path}, calls := w.calls - {id},
           answers := if w.feedback.Some? then w.answers[id := Answer(w.feedback.value, true)] else w.answers)
      case Die(id) =>
        w.(calls := w.calls - {id},
           orphans := w.orphans + (if w.calls[id].Asking? then {} else {w.calls[id].path}))
      case DieCommitted(id) => Win(w, w.calls[id]).(calls := w.calls - {id})
  }

  function Exec(w: World, acts: seq<Act>): World {
    if acts == [] then w else Step(Exec(w, acts[..|acts| - 1]), acts[|acts| - 1])
  }

  const Fresh := World(None, None, {}, map[], map[], {})

  // --------------------------------------------------------------- invariant

  /** The caller holds this file. */
  predicate Holds(w: World, id: nat, path: string) {
    id in w.calls && !w.calls[id].Asking? && w.calls[id].path == path
  }

  ghost predicate Held(w: World, path: string) { exists id :: Holds(w, id, path) }

  predicate Named(w: World, path: string) { w.reportPath == Some(path) }

  /** Every file is the report of the session, or held by one caller, or an orphan. */
  ghost predicate Accounted(w: World) {
    && (forall path :: path in w.files <==> Named(w, path) || path in w.orphans || Held(w, path))
    && (forall id, path | Holds(w, id, path) :: !Named(w, path) && path !in w.orphans)
    && (forall i, j, path | Holds(w, i, path) && Holds(w, j, path) :: i == j)
    && (forall path | path in w.orphans :: !Named(w, path))
  }

  ghost predicate Inv(w: World) {
    && (w.feedback.Some? <==> w.reportPath.Some?)
    && (forall id | id in w.calls && w.calls[id].Beaten? :: w.feedback.Some?)
    && (forall id | id in w.answers :: w.feedback == Some(w.answers[id].envelope))
    && (forall i, j | i in w.answers && j in w.answers && !w.answers[i].cached && !w.answers[j].cached :: i == j)
    && w.calls.Keys !! w.answers.Keys
    && Accounted(w)
  }

  lemma SaveAccounted(w: World, id: nat, path: string, envelope: string)
    requires Accounted(w) && Enabled(w, Save(id, path, envelope))
    ensures Accounted(Step(w, Save(id, path, envelope)))
  {
    var w' := Step(w, Save(id, path, envelope));
    assert forall i, p :: Holds(w', i, p) <==> if i == id then p == path else Holds(w, i, p);
    assert !Held(w, path);
    assert Holds(w', id, path);
    forall p ensures p in w'.files <==> Named(w', p) || p in w'.orphans || Held(w', p) {
      if i :| Holds(w, i, p) { assert Holds(w', i, p); }
      if i :| Holds(w', i, p) { assert i == id || Holds(w, i, p); }
    }
  }

  /** A caller leaves; its file becomes the report, goes, or is orphaned. */
  lemma LeaveAccounted(w: World, id: nat, w': World)
    requires Accounted(w) && id in w.calls && w'.calls == w.calls - {id}
    requires w.calls[id].Asking? ==> w'.files == w.files && w'.orphans == w.orphans && w'.reportPath == w.reportPath
    requires !w.calls[id].Asking? ==>
               var path := w.calls[id].path;
               || (w'.files == w.files && w'.orphans == w.orphans && w.reportPath.None? && w'.reportPath == Some(path))
               || (w'.files == w.files - {path} && w'.orphans == w.orphans && w'.reportPath == w.reportPath)
               || (w'.files == w.files && w'.orphans == w.orphans + {path} && w'.reportPath == w.reportPath)
    ensures Accounted(w')
  {
    assert forall i, p :: Holds(w', i, p) <==> i != id && Holds(w, i, p);
    assert !w.calls[id].Asking? ==> Holds(w, id, w.calls[id].path);
    forall p ensures p in w'.files <==> Named(w', p) || p in w'.orphans || Held(w', p) {
      if i :| Holds(w, i, p) { assert i == id || Holds(w', i, p); }
      if i :| Holds(w', i, p) { assert Holds(w, i, p); }
    }
  }

  /** The same files in the same hands. */
  lemma SameAccounted(w: World, w': World)
    requires Accounted(w) && w'.files == w.files && w'.orphans == w.orphans && w'.reportPath == w.reportPath
    requires forall i, p :: Holds(w', i, p) <==> Holds(w, i, p)
    ensures Accounted(w')
  {
    forall p ensures Held(w', p) <==> Held(w, p) {
      if i :| Holds(w, i, p) { assert Holds(w', i, p); }
      if i :| Holds(w', i, p) { assert Holds(w, i, p); }
    }
  }

  lemma StepAccounted(w: World, a: Act)
    requires Inv(w) && Enabled(w, a)
    ensures Accounted(Step(w, a))
  {
    var w' := Step(w, a);
    match a
    case Begin(_) => SameAccounted(w, w');
    case Save(id, path, envelope) => SaveAccounted(w, id, path, envelope);
    case Update(id) => if w.feedback.None? { LeaveAccounted(w, id, w'); } else { SameAccounted(w, w'); }
    case Unlink(id) => LeaveAccounted(w, id, w');
    case Die(id) => LeaveAccounted(w, id, w');
    case DieCommitted(id) => LeaveAccounted(w, id, w');
  }

  lemma StepKeeps(w: World, a: Act)
    requires Inv(w)
    ensures Inv(Step(w, a))
    ensures w.feedback.Some? ==> Step(w, a).feedback == w.feedback && Step(w, a).reportPath == w.reportPath
  {
    if Enabled(w, a) {
      StepAccounted(w, a);
    }
  }

  lemma {:induction false} ExecKeeps(w: World, acts: seq<Act>)
    requires Inv(w)
    ensures Inv(Exec(w, acts))
    ensures w.feedback.Some? ==> Exec(w, acts).feedback == w.feedback && Exec(w, acts).reportPath == w.reportPath
  {
    if acts != [] {
      var n := |acts| - 1;
      ExecKeeps(w, acts[..n]);
      StepKeeps(Exec(w, acts[..n]), acts[n]);
    }
  }

  lemma FreshInv()
    ensures Inv(Fresh)
  {
  }

  // ---------------------------------------------------------------- theorems

  /** Feedback is written once: whatever happens after, it and its report stay the same. */
  lemma WrittenOnce(before: seq<Act>, after: seq<Act>)
    requires Exec(Fresh, before).feedback.Some?
    ensures Exec(Exec(Fresh, before), after).feedback == Exec(Fresh, before).feedback
    ensures Exec(Exec(Fresh, before), after).reportPath == Exec(Fresh, before).reportPath
  {
    FreshInv();
    ExecKeeps(Fresh, before);
    ExecKeeps(Exec(Fresh, before), after);
  }

  /** Every caller that is answered gets the one envelope, and at most one is told that it
      is new. */
  lemma SameAnswer(acts: seq<Act>, i: nat, j: nat)
    requires i in Exec(Fresh, acts).answers && j in Exec(Fresh, acts).answers
    ensures var w := Exec(Fresh, acts);
      && w.answers[i].envelope == w.answers[j].envelope && w.feedback == Some(w.answers[i].envelope)
      && (!w.answers[i].cached && !w.answers[j].cached ==> i == j)
  {
    FreshInv();
    ExecKeeps(Fresh, acts);
  }

  /** When nobody is waiting the directory holds the report the session names and the files
      callers died over, nothing else. */
  lemma FilesLeft(acts: seq<Act>)
    requires Exec(Fresh, acts).calls == map[]
    ensures var w := Exec(Fresh, acts);
      w.files == (if w.reportPath.Some? then {w.reportPath.value} else {}) + w.orphans
  {
    FreshInv();
    ExecKeeps(Fresh, acts);
    var w := Exec(Fresh, acts);
    forall path ensures path in w.files <==> Named(w, path) || path in w.orphans {
      assert forall id :: !Holds(w, id, path);
    }
  }

  /** A run in which no caller dies after it has saved its report. */
  predicate NobodyDies(w: World, acts: seq<Act>) {
    acts == []
    || (NobodyDies(w, acts[..|acts| - 1])
        && var v := Exec(w, acts[..|acts| - 1]); var a := acts[|acts| - 1];
           a.Die? && a.id in v.calls ==> v.calls[a.id].Asking?)
  }

  lemma {:induction false} NoOrphans(acts: seq<Act>)
    ensures Exec(Fresh, acts).orphans == {} <==> NobodyDies(Fresh, acts)
  {
    if acts != [] {
      var n := |acts| - 1;
      NoOrphans(acts[..n]);
      var v := Exec(Fresh, acts[..n]);
      if acts[n].Die? && acts[n].id in v.calls && !v.calls[acts[n].id].Asking? {
        assert v.calls[acts[n].id].path in Exec(Fresh, acts).orphans;
      }
    }
  }

  /** So, when nobody is waiting and somebody was answered, exactly the named report is left
      exactly if no caller died between saving its report and the end. */
  lemma OneReportLeft(acts: seq<Act>)
    requires Exec(Fresh, acts).calls == map[] && Exec(Fresh, acts).answers != map[]
    ensures Exec(Fresh, acts).reportPath.Some?
    ensures Exec(Fresh, acts).files == {Exec(Fresh, acts).reportPath.value} <==> NobodyDies(Fresh, acts)
  {
    var w := Exec(Fresh, acts);
    FreshInv();
    ExecKeeps(Fresh, acts);
    var id :| id in w.answers;
    FilesLeft(acts);
    NoOrphans(acts);
    if w.orphans != {} {
      var path :| path in w.orphans;
      assert path in w.files && !Named(w, path);
    }
  }

  // ------------------------------------------------------------ whose report

  /** Request `id` has saved this report in the run. */
  predicate Saved(acts: seq<Act>, id: nat, path: string, envelope: string) { Save(id, path, envelope) in acts }

  /** What waits to be committed and what was committed are reports that were saved, each
      envelope with its own path. */
  ghost predicate Genuine(w: World, acts: seq<Act>) {
    && (forall id | id in w.calls && w.calls[id].Written? :: Saved(acts, id, w.calls[id].path, w.calls[id].envelope))
    && (w.feedback.Some? ==> w.reportPath.Some? && exists id :: Saved(acts, id, w.reportPath.value, w.feedback.value))
  }

  lemma GenuineStep(w: World, acts: seq<Act>, a: Act)
    requires Genuine(w, acts)
    ensures Genuine(Step(w, a), acts + [a])
  {
    var w', all := Step(w, a), acts + [a];
    assert forall id, path, envelope :: Saved(acts, id, path, envelope) ==> Saved(all, id, path, envelope);
    assert a in all;
    if w.feedback.Some? {
      var id :| Saved(acts, id, w.reportPath.value, w.feedback.value);
      assert Saved(all, id, w.reportPath.value, w.feedback.value);
    }
    if a.Save? {
      assert Saved(all, a.id, a.path, a.envelope);
    }
  }

  /** In every run the feedback that is kept, and its path, are those of one caller's own
      report. */
  lemma {:induction false} OwnReport(acts: seq<Act>)
    ensures Genuine(Exec(Fresh, acts), acts)
  {
    if acts != [] {
      var n := |acts| - 1;
      OwnReport(acts[..n]);
      assert acts == acts[..n] + [acts[n]];
      GenuineStep(Exec(Fresh, acts[..n]), acts[..n], acts[n]);
    }
  }

  /** Whoever commits first keeps its own report and is told that it is new; whoever comes
      later keeps nothing, and is told what was kept when its file is gone. */
  lemma CommitDecides(w: World, id: nat)
    requires Inv(w) && id in w.calls && w.calls[id].Written?
    ensures var c, w' := w.calls[id], Step(w, Update(id)); var w'' := Step(w', Unlink(id));
      if w.feedback.None? then
        && w'.feedback == Some(c.envelope) && w'.reportPath == Some(c.path) && w'.files == w.files
        && id in w'.answers && w'.answers[id] == Answer(c.envelope, false)
      else
        && w''.feedback == w.feedback && w''.reportPath == w.reportPath && w''.files == w.files - {c.path}
        && id in w''.answers && w''.answers[id] == Answer(w.feedback.value, true)
  {
  }
}
