/** What a regenerate rebuilds: the question that asked for the failed row, and the
    transcript the original call saw. */
module SessionRegenerate {
  import opened Wrappers
  import opened Reaction
  import opened Transcript
  import opened Agreement
  import opened SessionProtocol
  import opened SessionGrammar
  import opened SessionInvariant
  import opened SessionTheorems

  // ------------------------------------------------------ heading a block

  /** Row `a` is the teacher row that heads the block of student row `k`: the rows
      after it, up to and including `k`, are answers in the same scene. */
  predicate Heads(log: seq<Row>, a: nat, k: nat)
    requires k < |log|
  {
    && a < k
    && log[a].speaker.Teacher?
    && forall i | a < i <= k :: log[i].speaker.Student? && log[i].phase == log[a].phase
  }

  /** Before an answer comes another answer of the scene, or the question. */
  lemma SpeaksAfter(cfg: Config, log: seq<Row>, k: nat)
    requires Position(cfg, log) != Broken && k < |log| && log[k].speaker.Student?
    ensures k > 0 && !log[k - 1].speaker.System? && log[k - 1].phase == log[k].phase
  {
    ReadAt(cfg, log, k);
    if k > 0 {
      ReadAt(cfg, log, k - 1);
    }
  }

  lemma {:induction false} BlockHead(cfg: Config, log: seq<Row>, k: nat) returns (a: nat)
    requires ValidConfig(cfg) && Position(cfg, log) != Broken && k < |log| && log[k].speaker.Student?
    ensures Heads(log, a, k)
  {
    SpeaksAfter(cfg, log, k);
    a := k - 1;
    if log[a].speaker.Student? {
      a := BlockHead(cfg, log, a);
    }
  }

  lemma {:induction false} AskedIn(rows: seq<Row>, no: nat)
    ensures AskedNo(rows, no).Some? ==> exists i :: 0 <= i < |rows| && rows[i].no == AskedNo(rows, no).value
  {
    if rows != [] {
      var n := |rows| - 1;
      AskedIn(rows[..n], no);
      if AskedNo(rows[..n], no).Some? {
        var i :| 0 <= i < n && rows[..n][i].no == AskedNo(rows[..n], no).value;
        assert rows[i].no == AskedNo(rows[..n], no).value;
      }
    }
  }

  lemma {:induction false} AskedIs(rows: seq<Row>, j: nat, no: nat)
    requires Increasing(rows) && j < |rows| && rows[j].speaker.Teacher? && rows[j].no < no
    requires forall i | j < i < |rows| && rows[i].speaker.Teacher? :: no <= rows[i].no
    ensures AskedNo(rows, no) == Some(rows[j].no)
  {
    var n := |rows| - 1;
    if n == j {
      AskedIn(rows[..n], no);
    } else {
      AskedIs(rows[..n], j, no);
    }
  }

  lemma {:induction false} WordsFound(rows: seq<Row>, j: nat)
    requires Increasing(rows) && j < |rows| && rows[j].speaker.Teacher?
    ensures WordsAt(rows, rows[j].no) == rows[j].speaker.words
  {
    if j > 0 {
      assert rows[0].no < rows[j].no;
      assert rows[1..][j - 1] == rows[j];
      WordsFound(rows[1..], j - 1);
    }
  }

  lemma InOrder(rows: seq<Row>, i: nat, j: nat)
    requires Increasing(rows) && i < |rows| && j < |rows|
    ensures rows[i].no < rows[j].no <==> i < j
    ensures rows[i].no == rows[j].no <==> i == j
  {
  }

  /** The rows of a scene numbered up to one that was read were all read before it. */
  lemma ReadBefore(stored: seq<Row>, log: seq<Row>, idx: nat, m: nat, a: nat) returns (j: nat)
    requires Numbered(log) && SnapshotOf(stored, log, idx) && m < |stored|
    requires a < |log| && log[a].phase == idx && log[a].no < stored[m].no
    ensures j < m && stored[j].no == log[a].no && Shape(stored[j]) == Shape(log[a])
  {
    var now := Scene(log, idx);
    SelectMembers(log, InScene(idx), log[a]);
    j :| 0 <= j < |now| && now[j] == log[a];
    SelectIncreasing(log, InScene(idx));
    assert Shape(stored[m]) == Shape(now[..|stored|][m]);
    InOrder(now, j, m);
    assert Shape(stored[j]) == Shape(now[..|stored|][j]);
  }

  /** The head of the block of the failed row was read with it. */
  lemma HeadRead(cfg: Config, s: Session, call: Pending, a: nat) returns (j: nat)
    requires SessionInv(cfg, s) && LoadedFailed(call) && PendingInv(cfg, s, call)
    requires 1 <= LoadedRow(call).no <= |s.log| && Heads(s.log, a, LoadedRow(call).no - 1)
    ensures j < |call.stored| && call.stored[j].no == a + 1 && Shape(call.stored[j]) == Shape(s.log[a])
    ensures s.log[a].phase == call.idx
  {
    var stored, row := call.stored, LoadedRow(call);
    LoadedInLog(cfg, s, call);
    SelectMembers(stored, OfPersona(call.persona), row);
    var m :| 0 <= m < |stored| && stored[m] == row;
    SnapshotIncreasing(stored, s.log, call.idx);
    assert s.log[row.no - 1].phase == s.log[a].phase;
    j := ReadBefore(stored, s.log, call.idx, m, a);
  }

  /** No teacher speaks between the head of a block and its rows. */
  lemma NobodyBetween(stored: seq<Row>, log: seq<Row>, idx: nat, j: nat, a: nat, k: nat, i: nat)
    requires Numbered(log) && SnapshotOf(stored, log, idx) && k < |log| && Heads(log, a, k)
    requires j < i < |stored| && stored[j].no == a + 1 && stored[i].speaker.Teacher?
    ensures k + 1 < stored[i].no
  {
    SnapshotIncreasing(stored, log, idx);
    InOrder(stored, j, i);
    SnapshotRow(stored, log, idx, stored[i]);
  }

  /** The question the rebuilt call answers is the teacher row heading the block of the
      failed row, whatever else has been written since. */
  lemma AskedHeads(cfg: Config, s: Session, call: Pending, a: nat)
    requires ValidConfig(cfg) && SessionInv(cfg, s) && LoadedFailed(call) && PendingInv(cfg, s, call)
    requires 1 <= LoadedRow(call).no <= |s.log| && Heads(s.log, a, LoadedRow(call).no - 1)
    ensures AskedNo(call.stored, LoadedRow(call).no) == Some(a + 1)
    ensures WordsAt(call.stored, a + 1) == s.log[a].speaker.words
  {
    var stored, row := call.stored, LoadedRow(call);
    var j := HeadRead(cfg, s, call, a);
    SnapshotIncreasing(stored, s.log, call.idx);
    forall i | j < i < |stored| && stored[i].speaker.Teacher? ensures row.no <= stored[i].no {
      NobodyBetween(stored, s.log, call.idx, j, a, row.no - 1, i);
    }
    AskedIs(stored, j, row.no);
    WordsFound(stored, j);
  }

  lemma AskedFoundIn(cfg: Config, s: Session, call: Pending) returns (a: nat)
    requires ValidConfig(cfg) && SessionInv(cfg, s) && call.RegenerateCall? && PendingInv(cfg, s, call)
    ensures LoadedFailed(call) && 1 <= LoadedRow(call).no <= |s.log|
    ensures Heads(s.log, a, LoadedRow(call).no - 1)
    ensures AskedNo(call.stored, LoadedRow(call).no) == Some(a + 1)
    ensures RegenerateContext(call).teacher == s.log[a].speaker.words
  {
    LoadedStudent(cfg, s, call);
    a := BlockHead(cfg, s.log, LoadedRow(call).no - 1);
    AskedHeads(cfg, s, call, a);
    TeacherIs(call, a + 1);
  }

  lemma TeacherIs(call: Pending, no: nat)
    requires LoadedFailed(call) && AskedNo(call.stored, LoadedRow(call).no) == Some(no)
    ensures RegenerateContext(call).teacher == WordsAt(call.stored, no)
  {
  }

  lemma LoadedStudent(cfg: Config, s: Session, call: Pending)
    requires SessionInv(cfg, s) && LoadedFailed(call) && PendingInv(cfg, s, call)
    ensures 1 <= LoadedRow(call).no <= |s.log| && s.log[LoadedRow(call).no - 1].speaker.Student?
    ensures Position(cfg, s.log) != Broken
  {
    LoadedInLog(cfg, s, call);
    assert Shape(s.log[LoadedRow(call).no - 1]) == Shape(LoadedRow(call));
  }

  /** In every interleaving a waiting regenerate finds the question: its maximum is over
      a non-empty set, and it is the teacher row heading the block of the failed row. */
  lemma AskedFound(cfg: Config, acts: seq<Act>, id: nat) returns (a: nat)
    requires ValidConfig(cfg)
    requires id in Exec(cfg, Created, acts).pending && Exec(cfg, Created, acts).pending[id].RegenerateCall?
    ensures var log := After(cfg, acts).log; var call := Exec(cfg, Created, acts).pending[id];
      && LoadedFailed(call) && 1 <= LoadedRow(call).no <= |log|
      && Heads(log, a, LoadedRow(call).no - 1)
      && AskedNo(call.stored, LoadedRow(call).no) == Some(a + 1)
      && RegenerateContext(call).teacher == log[a].speaker.words
  {
    Reachable(cfg, acts);
    a := AskedFoundIn(cfg, After(cfg, acts), Exec(cfg, Created, acts).pending[id]);
  }

  // ------------------------------------------------------------ transcript

  /** The `seq` numbers of the rows a model call shows: all but the system rows. */
  function Shown(rows: seq<Row>): seq<nat> {
    if rows == [] then []
    else
      var n := |rows| - 1;
      Shown(rows[..n]) + (if rows[n].speaker.System? then [] else [rows[n].no])
  }

  /** The rows numbered up to `limit`. */
  function UpTo(rows: seq<Row>, limit: nat): seq<Row> {
    if rows == [] then []
    else
      var n := |rows| - 1;
      UpTo(rows[..n], limit) + (if rows[n].no <= limit then [rows[n]] else [])
  }

  /** What a say showed the students: the scene as it was read, and the new question. */
  function SayTranscript(call: Pending, no: nat): seq<nat>
    requires call.SayCall?
  {
    Shown(call.stored) + [no]
  }

  /** What a regenerate shows the student. */
  function RebuiltTranscript(call: Pending): seq<nat>
    requires LoadedFailed(call)
  {
    var asked := AskedNo(call.stored, LoadedRow(call).no);
    if asked.Some? then Shown(UpTo(call.stored, asked.value)) else []
  }

  lemma {:induction false} ShownAppend(xs: seq<Row>, ys: seq<Row>)
    ensures Shown(xs + ys) == Shown(xs) + Shown(ys)
    decreases |ys|
  {
    if ys == [] {
      assert xs + ys == xs;
    } else {
      var n := |ys| - 1;
      assert (xs + ys)[..|xs| + n] == xs + ys[..n];
      ShownAppend(xs, ys[..n]);
    }
  }

  /** Of the rows shown the system rows go, and nothing else. */
  lemma ShownSplits(before: seq<Row>, r: Row, after: seq<Row>)
    ensures Shown(before + [r] + after) == Shown(before) + (if r.speaker.System? then [] else [r.no]) + Shown(after)
  {
    ShownAppend(before + [r], after);
    ShownAppend(before, [r]);
    assert [r][..0] == [];
  }

  lemma {:induction false} ShownShape(xs: seq<Row>, ys: seq<Row>)
    requires SameShape(xs, ys)
    ensures Shown(xs) == Shown(ys)
  {
    if xs != [] {
      var n := |xs| - 1;
      ShownShape(xs[..n], ys[..n]);
      assert Shape(xs[n]) == Shape(ys[n]);
    }
  }

  /** The first `k` rows are those numbered up to `limit`. */
  predicate CutsAt(rows: seq<Row>, k: nat, limit: nat) {
    && k <= |rows|
    && (forall i | 0 <= i < k :: rows[i].no <= limit)
    && (forall i | k <= i < |rows| :: limit < rows[i].no)
  }

  lemma IncreasingCuts(rows: seq<Row>, j: nat)
    requires Increasing(rows) && j < |rows|
    ensures CutsAt(rows, j + 1, rows[j].no)
  {
    forall i | 0 <= i <= j ensures rows[i].no <= rows[j].no {
      assert i < j ==> rows[i].no < rows[j].no;
    }
  }

  lemma {:induction false} UpToPrefix(rows: seq<Row>, k: nat, limit: nat)
    requires CutsAt(rows, k, limit)
    ensures UpTo(rows, limit) == rows[..k]
  {
    if rows != [] {
      var n := |rows| - 1;
      if k == |rows| {
        UpToPrefix(rows[..n], n, limit);
        assert rows[..k] == rows[..n] + [rows[n]];
      } else {
        UpToPrefix(rows[..n], k, limit);
        assert rows[..n][..k] == rows[..k];
      }
    }
  }

  /** Up to row `no` of the scene the snapshot is the scene. */
  lemma SnapshotUpTo(stored: seq<Row>, log: seq<Row>, idx: nat, k: nat, limit: nat)
    requires SnapshotOf(stored, log, idx) && CutsAt(stored, k, limit)
    ensures Shown(UpTo(stored, limit)) == Shown(Scene(log, idx)[..k])
  {
    UpToPrefix(stored, k, limit);
    var now := Scene(log, idx);
    forall i | 0 <= i < k ensures Shape(stored[..k][i]) == Shape(now[..k][i]) {
      assert Shape(stored[i]) == Shape(now[..|stored|][i]);
    }
    ShownShape(stored[..k], now[..k]);
  }

  /** Where a scene stood when its row `a` was about to be written. */
  lemma SceneSplit(log: seq<Row>, now: seq<Row>, idx: nat)
    requires Grown(log, now)
    ensures |Scene(log, idx)| <= |Scene(now, idx)|
    ensures Shown(Scene(now, idx)[..|Scene(log, idx)|]) == Shown(Scene(log, idx))
  {
    GrownSelect(log, now, InScene(idx));
    ShownShape(Scene(log, idx), Scene(now, idx)[..|Scene(log, idx)|]);
  }

  /** The rebuilt transcript is what the scene held when the question was asked, and
      the question. */
  lemma RebuiltIs(cfg: Config, s: Session, call: Pending, before: seq<Row>, a: nat)
    requires ValidConfig(cfg) && SessionInv(cfg, s) && LoadedFailed(call) && PendingInv(cfg, s, call)
    requires Grown(before, s.log) && a == |before|
    requires 1 <= LoadedRow(call).no <= |s.log| && Heads(s.log, a, LoadedRow(call).no - 1)
    ensures RebuiltTranscript(call) == Shown(Scene(before, call.idx)) + [a + 1]
  {
    AskedHeads(cfg, s, call, a);
    var j := HeadRead(cfg, s, call, a);
    ShownUpTo(call.stored, s.log, call.idx, before, j, a);
  }

  lemma ShownUpTo(stored: seq<Row>, log: seq<Row>, idx: nat, before: seq<Row>, j: nat, a: nat)
    requires Numbered(log) && SnapshotOf(stored, log, idx) && Grown(before, log)
    requires a == |before| < |log| && log[a].phase == idx && log[a].speaker.Teacher?
    requires j < |stored| && stored[j].no == a + 1
    ensures Shown(UpTo(stored, a + 1)) == Shown(Scene(before, idx)) + [a + 1]
  {
    SnapshotCuts(stored, log, idx, j, a + 1);
    SnapshotUpTo(stored, log, idx, j + 1, a + 1);
    var now := Scene(log, idx);
    SnapshotAt(stored, log, idx, j);
    HeadIndex(before, log, idx, a, j, now);
    ShownHead(before, log, idx, now, j);
  }

  lemma SnapshotCuts(stored: seq<Row>, log: seq<Row>, idx: nat, j: nat, limit: nat)
    requires Numbered(log) && SnapshotOf(stored, log, idx) && j < |stored| && stored[j].no == limit
    ensures CutsAt(stored, j + 1, limit)
  {
    SnapshotIncreasing(stored, log, idx);
    IncreasingCuts(stored, j);
  }

  lemma SnapshotAt(stored: seq<Row>, log: seq<Row>, idx: nat, j: nat)
    requires SnapshotOf(stored, log, idx) && j < |stored|
    ensures j < |Scene(log, idx)| && Shape(stored[j]) == Shape(Scene(log, idx)[j])
    ensures stored[j].no == Scene(log, idx)[j].no
  {
    assert Shape(stored[j]) == Shape(Scene(log, idx)[..|stored|][j]);
  }

  lemma ShownHead(before: seq<Row>, log: seq<Row>, idx: nat, now: seq<Row>, j: nat)
    requires Grown(before, log) && now == Scene(log, idx)
    requires j == |Scene(before, idx)| < |now| && !now[j].speaker.System?
    ensures Shown(now[..j + 1]) == Shown(Scene(before, idx)) + [now[j].no]
  {
    ShownNext(now, j);
    SceneSplit(before, log, idx);
  }

  lemma ShownNext(rows: seq<Row>, j: nat)
    requires j < |rows| && !rows[j].speaker.System?
    ensures Shown(rows[..j + 1]) == Shown(rows[..j]) + [rows[j].no]
  {
    assert rows[..j + 1][..j] == rows[..j];
  }

  /** The row that was written right after `before` comes in its scene right after the
      rows the scene had. */
  lemma HeadIndex(before: seq<Row>, log: seq<Row>, idx: nat, a: nat, j: nat, now: seq<Row>)
    requires Numbered(log) && Grown(before, log) && a == |before| < |log| && log[a].phase == idx
    requires now == Scene(log, idx) && j < |now| && now[j].no == a + 1
    ensures j == |Scene(before, idx)| && now[j] == log[a]
  {
    SelectIncreasing(log, InScene(idx));
    assert log == log[..a] + [log[a]] + log[a + 1..];
    SelectAppend(log[..a] + [log[a]], log[a + 1..], InScene(idx));
    SelectAppend(log[..a], [log[a]], InScene(idx));
    SelectOne(log[a], InScene(idx));
    SelectShape(before, log[..a], InScene(idx));
    var k := |Scene(before, idx)|;
    assert now[k] == log[a];
    InOrder(now, j, k);
  }

  // ------------------------------------------------------------------ runs

  /** The system rows of an open scene are its enter row, and that one comes first. */
  lemma SystemFirst(cfg: Config, log: seq<Row>, i: nat)
    requires ValidConfig(cfg) && Position(cfg, log).Entered? && i < |log|
    requires log[i].speaker.System? && log[i].phase == Position(cfg, log).scene
    ensures Scene(log[..i], log[i].phase) == []
  {
    ReadAt(cfg, log, i);
    PositionDescribes(cfg, log[..i]);
    assert log[..|log|] == log;
    if Matches(Transition, log[i]) {
      NoTransitionYet(cfg, log, i);
      assert false;
    } else if IsEnd(log[i]) {
      EndIsLast(cfg, log, i);
      assert false;
    }
  }

  /** After the first row of an open scene somebody is speaking. */
  lemma OnlyFirstIsSystem(cfg: Config, log: seq<Row>, idx: nat, n: nat)
    requires ValidConfig(cfg) && Position(cfg, log).Entered? && Position(cfg, log).scene == idx && Numbered(log)
    requires 0 < n < |Scene(log, idx)|
    ensures !Scene(log, idx)[n].speaker.System?
  {
    var now := Scene(log, idx);
    SelectMembers(log, InScene(idx), now[n]);
    SelectMembers(log, InScene(idx), now[0]);
    SelectIncreasing(log, InScene(idx));
    InOrder(now, 0, n);
    var i :| 0 <= i < |log| && log[i] == now[n];
    var z :| 0 <= z < |log| && log[z] == now[0];
    if log[i].speaker.System? {
      SystemFirst(cfg, log, i);
      assert log[..i][z] == log[z];
      SelectMembers(log[..i], InScene(idx), log[z]);
    }
  }

  /** A row that somebody speaks makes a transcript longer. */
  lemma ShownLonger(rows: seq<Row>, n: nat)
    requires n < |rows| && !rows[n].speaker.System?
    ensures Shown(rows) != Shown(rows[..n])
  {
    assert rows == rows[..n + 1] + rows[n + 1..];
    ShownAppend(rows[..n + 1], rows[n + 1..]);
    ShownNext(rows, n);
  }

  /** The scene now shows what the snapshot showed exactly when nothing came in between. */
  lemma SameScene(cfg: Config, s: Session, call: Pending)
    requires ValidConfig(cfg) && SessionInv(cfg, s) && call.SayCall? && PendingInv(cfg, s, call)
    requires s.running && s.current == call.idx
    ensures Shown(Scene(s.log, call.idx)) == Shown(call.stored) <==> |call.stored| == |Scene(s.log, call.idx)|
  {
    var now, n := Scene(s.log, call.idx), |call.stored|;
    ShownShape(call.stored, now[..n]);
    if n < |now| {
      assert !now[n].speaker.System? by {
        SayEntered(cfg, s, call);
        OnlyFirstIsSystem(cfg, s.log, call.idx, n);
      }
      ShownLonger(now, n);
    } else {
      assert now[..n] == now;
    }
  }

  lemma BlockHeads(cfg: Config, log: seq<Row>, call: Pending, no: nat, results: seq<LlmResult>, later: seq<Row>, k: nat)
    requires call.SayCall? && |results| == Calls(cfg, call)
    requires Grown(log + SayRows(cfg, call, no, results), later)
    requires |log| < k < |log + SayRows(cfg, call, no, results)|
    ensures k < |later| && Heads(later, |log|, k)
  {
    var all := log + SayRows(cfg, call, no, results);
    var answers := Reactions(cfg, call, no + 1, Responders(cfg.personas, call.target), results);
    forall i | |log| <= i <= k ensures Shape(later[i]) == Shape(all[i]) {
      assert Shape(all[i]) == Shape(later[..|all|][i]);
    }
    forall i | |log| < i <= k ensures later[i].speaker.Student? && later[i].phase == call.idx {
      assert all[i] == answers[i - |log| - 1];
      assert Shape(later[i]) == Shape(all[i]);
    }
  }

  /** Request `id` commits a say in world `w`; after the further acts request `again` is
      waiting to retry one of the answers of that say. */
  predicate Retries(cfg: Config, w: World, say: Act, after: seq<Act>, again: nat) {
    && say.Commit? && Enabled(cfg, w, say) && w.pending[say.id].SayCall?
    && CommitSay(cfg, w.session, w.pending[say.id], say.results).Ok?
    && var w1 := Step(cfg, w, say);
       var w2 := Exec(cfg, w1, after);
       && again in w2.pending && w2.pending[again].RegenerateCall? && LoadedFailed(w2.pending[again])
       && |w.session.log| + 1 < LoadedRow(w2.pending[again]).no <= |w1.session.log|
  }

  /** What the retry shows the student. */
  function Rebuilt(cfg: Config, w: World, say: Act, after: seq<Act>, again: nat): seq<nat>
    requires Retries(cfg, w, say, after, again)
  {
    RebuiltTranscript(Exec(cfg, Step(cfg, w, say), after).pending[again])
  }

  /** A regenerate shows the student the rows the original call was shown, by number,
      exactly when no other request had added rows to the scene between the snapshot
      of that call and its commit. */
  lemma RebuiltMatches(cfg: Config, before: seq<Act>, say: Act, after: seq<Act>, again: nat)
    requires ValidConfig(cfg) && Retries(cfg, Exec(cfg, Created, before), say, after, again)
    ensures var w := Exec(cfg, Created, before); var call := w.pending[say.id];
      Rebuilt(cfg, w, say, after, again) == SayTranscript(call, |w.session.log| + 1)
      <==> |call.stored| == |Scene(w.session.log, call.idx)|
  {
    Reachable(cfg, before);
    RebuiltFrom(cfg, Exec(cfg, Created, before), say, after, again);
  }

  lemma SayCommits(cfg: Config, w: World, say: Act)
    requires say.Commit? && Enabled(cfg, w, say) && w.pending[say.id].SayCall?
    requires CommitSay(cfg, w.session, w.pending[say.id], say.results).Ok?
    ensures Step(cfg, w, say).session == CommitSay(cfg, w.session, w.pending[say.id], say.results).value
  {
  }

  lemma StepThenExec(cfg: Config, w: World, a: Act, after: seq<Act>)
    requires ValidConfig(cfg) && Inv(cfg, w)
    ensures Inv(cfg, Exec(cfg, Step(cfg, w, a), after))
    ensures Grown(Step(cfg, w, a).session.log, Exec(cfg, Step(cfg, w, a), after).session.log)
  {
    StepKeeps(cfg, w, a);
    LogOnlyGrows(cfg, Step(cfg, w, a), after);
    ExecKeeps(cfg, Step(cfg, w, a), after);
  }

  lemma RebuiltFrom(cfg: Config, w: World, say: Act, after: seq<Act>, again: nat)
    requires ValidConfig(cfg) && Inv(cfg, w) && Retries(cfg, w, say, after, again)
    ensures var call := w.pending[say.id];
      Rebuilt(cfg, w, say, after, again) == SayTranscript(call, |w.session.log| + 1)
      <==> |call.stored| == |Scene(w.session.log, call.idx)|
  {
    SayCommits(cfg, w, say);
    StepThenExec(cfg, w, say, after);
    var w2 := Exec(cfg, Step(cfg, w, say), after);
    SaidAgain(cfg, w.session, w.pending[say.id], say.results, w2.session, w2.pending[again]);
  }

  lemma SaidAgain(cfg: Config, s: Session, call: Pending, results: seq<LlmResult>, t: Session, again: Pending)
    requires ValidConfig(cfg) && SessionInv(cfg, s) && call.SayCall? && PendingInv(cfg, s, call)
    requires |results| == Calls(cfg, call) && CommitSay(cfg, s, call, results).Ok?
    requires SessionInv(cfg, t) && Grown(CommitSay(cfg, s, call, results).value.log, t.log)
    requires LoadedFailed(again) && PendingInv(cfg, t, again)
    requires |s.log| + 1 < LoadedRow(again).no <= |CommitSay(cfg, s, call, results).value.log|
    ensures RebuiltTranscript(again) == SayTranscript(call, |s.log| + 1)
            <==> |call.stored| == |Scene(s.log, call.idx)|
  {
    var a := |s.log|;
    BlockHeads(cfg, s.log, call, NextNo(s.log), results, t.log, LoadedRow(again).no - 1);
    GrownAppend(s.log, SayRows(cfg, call, NextNo(s.log), results));
    GrownTrans(s.log, CommitSay(cfg, s, call, results).value.log, t.log);
    RebuiltIs(cfg, t, again, s.log, a);
    LoadedInLog(cfg, t, again);
    SameIdx(cfg, s.log, call, NextNo(s.log), results, t.log);
    assert again.idx == call.idx;
    SameScene(cfg, s, call);
    var x, y := Shown(Scene(s.log, call.idx)), Shown(call.stored);
    assert x + [a + 1] == y + [a + 1] <==> x == y by {
      if x + [a + 1] == y + [a + 1] {
        assert x == (x + [a + 1])[..|x|];
        assert |x| + 1 == |x + [a + 1]|;
        assert y == (y + [a + 1])[..|y|];
      }
    }
  }

  lemma SameIdx(cfg: Config, log: seq<Row>, call: Pending, no: nat, results: seq<LlmResult>, later: seq<Row>)
    requires call.SayCall? && |results| == Calls(cfg, call)
    requires Grown(log + SayRows(cfg, call, no, results), later)
    ensures |log| < |later| && later[|log|].phase == call.idx
  {
    var all := log + SayRows(cfg, call, no, results);
    assert Shape(all[|log|]) == Shape(later[..|all|][|log|]);
  }

  /** In particular when the commit directly follows its snapshot, as in a serial run. */
  lemma SerialRebuilds(cfg: Config, earlier: seq<Act>, start: Act, say: Act, after: seq<Act>, again: nat)
    requires ValidConfig(cfg) && start.Start? && start.request.Say? && say.Commit? && say.id == start.id
    requires start.id !in Exec(cfg, Created, earlier).pending
    requires Retries(cfg, Exec(cfg, Created, earlier + [start]), say, after, again)
    ensures var w := Exec(cfg, Created, earlier + [start]);
      Rebuilt(cfg, w, say, after, again) == SayTranscript(w.pending[say.id], |w.session.log| + 1)
  {
    var w0 := Exec(cfg, Created, earlier);
    var w := Exec(cfg, Created, earlier + [start]);
    assert (earlier + [start])[..|earlier|] == earlier;
    assert w == Step(cfg, w0, start);
    ReadsWhole(cfg, w0, start);
    RebuiltMatches(cfg, earlier + [start], say, after, again);
  }

  lemma ReadsWhole(cfg: Config, w: World, start: Act)
    requires start.Start? && start.request.Say? && start.id !in w.pending
    ensures var w' := Step(cfg, w, start);
      w'.session == w.session
      && (start.id in w'.pending ==>
            w'.pending[start.id].SayCall? && w'.pending[start.id].stored == Scene(w.session.log, w'.pending[start.id].idx))
  {
  }

  /** The retry of an entry reaction shows the planned question alone, as the entry call
      did, whatever came in between. */
  lemma EntryRebuilds(cfg: Config, s: Session, idx: nat, results: seq<LlmResult>, t: Session, again: Pending)
    requires ValidConfig(cfg) && SessionInv(cfg, s) && |results| == |cfg.personas|
    requires Scene(s.log, idx) == [] && CommitEnter(cfg, s, idx, results).Ok?
    requires SessionInv(cfg, t) && Grown(CommitEnter(cfg, s, idx, results).value.log, t.log)
    requires LoadedFailed(again) && PendingInv(cfg, t, again)
    requires |s.log| + 2 < LoadedRow(again).no <= |CommitEnter(cfg, s, idx, results).value.log|
    ensures RebuiltTranscript(again) == [|s.log| + 2]
    ensures RegenerateContext(again).teacher == cfg.prompts[idx]
  {
    var a, k := |s.log| + 1, LoadedRow(again).no - 1;
    var rows := EnterRows(cfg, idx, NextNo(s.log), results);
    var head := s.log + [rows[0]];
    EntryHeads(cfg, s.log, idx, NextNo(s.log), results, t.log, k);
    RebuiltIs(cfg, t, again, head, a);
    AskedHeads(cfg, t, again, a);
    LoadedInLog(cfg, t, again);
    SelectAppend(s.log, [rows[0]], InScene(idx));
    SelectOne(rows[0], InScene(idx));
    assert [rows[0]][..0] == [];
    assert Scene(head, idx) == [rows[0]];
  }

  lemma EntryHeads(cfg: Config, log: seq<Row>, idx: nat, no: nat, results: seq<LlmResult>, later: seq<Row>, k: nat)
    requires |results| == |cfg.personas| && idx < |cfg.prompts|
    requires Grown(log + EnterRows(cfg, idx, no, results), later)
    requires |log| + 1 < k < |log + EnterRows(cfg, idx, no, results)|
    ensures k < |later| && Heads(later, |log| + 1, k) && later[k].phase == idx
    ensures later[|log| + 1].speaker == Teacher(Plan, None, cfg.prompts[idx])
    ensures Grown(log + [EnterRows(cfg, idx, no, results)[0]], later)
  {
    var rows := EnterRows(cfg, idx, no, results);
    var all := log + rows;
    forall i | |log| <= i <= k ensures Shape(later[i]) == Shape(rows[i - |log|]) {
      assert Shape(all[i]) == Shape(later[..|all|][i]);
    }
    assert all == (log + [rows[0]]) + rows[1..];
    GrownAppend(log + [rows[0]], rows[1..]);
    GrownTrans(log + [rows[0]], all, later);
  }
}
