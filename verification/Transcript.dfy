/** The utterance table of one session: its rows, and the queries the service runs. */
module Transcript {
  import opened Wrappers
  import opened Reaction

  datatype Source = Plan | User
  datatype EndReason = LastPhase | FinishButton
  datatype Event = PhaseEnter | AgreeAdvance | SkipScene | End(reason: EndReason)

  /** Who speaks a row. A student row without `structured` is a reply that failed
      to parse. */
  datatype Speaker =
    | System(event: Event)
    | Teacher(source: Source, target: Option<nat>, words: string)
    | Student(persona: nat, structured: Option<Stored>, words: string)

  datatype Row = Row(no: nat, phase: nat, speaker: Speaker)

  /** The `WHERE` conditions and comprehension filters of the service. */
  datatype Query =
    | InScene(idx: nat)
    | OfPersona(persona: nat)
    | UserTurn
    | Transition
    | AgreedTransition
    | EndRow

  predicate Matches(q: Query, r: Row) {
    match q
    case InScene(idx) => r.phase == idx
    case OfPersona(p) => r.speaker.Student? && r.speaker.persona == p
    case UserTurn => r.speaker.Teacher? && r.speaker.source == User
    case Transition => r.speaker.System? && (r.speaker.event == AgreeAdvance || r.speaker.event == SkipScene)
    case AgreedTransition => r.speaker.System? && r.speaker.event == AgreeAdvance
    case EndRow => r.speaker.System? && r.speaker.event.End?
  }

  /** The matching rows in order. */
  function Select(rows: seq<Row>, q: Query): seq<Row> {
    if rows == [] then []
    else
      var n := |rows| - 1;
      Select(rows[..n], q) + (if Matches(q, rows[n]) then [rows[n]] else [])
  }

  function Count(rows: seq<Row>, q: Query): nat { |Select(rows, q)| }

  function Scene(rows: seq<Row>, idx: nat): seq<Row> { Select(rows, InScene(idx)) }

  /** The student's rows of one scene. */
  function Mine(rows: seq<Row>, idx: nat, persona: nat): seq<Row> {
    Select(Scene(rows, idx), OfPersona(persona))
  }

  /** The student has spoken in the scene. */
  predicate Heard(rows: seq<Row>, idx: nat, persona: nat) { Mine(rows, idx, persona) != [] }

  /** The user has spoken as teacher in the scene. */
  predicate Asked(rows: seq<Row>, idx: nat) { Select(Scene(rows, idx), UserTurn) != [] }

  lemma {:induction false} SelectAppend(xs: seq<Row>, ys: seq<Row>, q: Query)
    ensures Select(xs + ys, q) == Select(xs, q) + Select(ys, q)
    decreases |ys|
  {
    if ys == [] {
      assert xs + ys == xs;
    } else {
      var n := |ys| - 1;
      assert (xs + ys)[..|xs| + n] == xs + ys[..n];
      SelectAppend(xs, ys[..n], q);
    }
  }

  lemma SelectOne(r: Row, q: Query)
    ensures Select([r], q) == if Matches(q, r) then [r] else []
  {
    assert [r][..0] == [];
  }

  lemma {:induction false} SelectMembers(rows: seq<Row>, q: Query, r: Row)
    ensures r in Select(rows, q) <==> r in rows && Matches(q, r)
  {
    if rows != [] {
      var n := |rows| - 1;
      assert rows == rows[..n] + [rows[n]];
      SelectMembers(rows[..n], q, r);
    }
  }

  lemma {:induction false} SelectAll(rows: seq<Row>, q: Query)
    requires forall r | r in rows :: Matches(q, r)
    ensures Select(rows, q) == rows
  {
    if rows != [] {
      var n := |rows| - 1;
      assert rows == rows[..n] + [rows[n]];
      SelectAll(rows[..n], q);
    }
  }

  lemma {:induction false} SelectNone(rows: seq<Row>, q: Query)
    requires forall r | r in rows :: !Matches(q, r)
    ensures Select(rows, q) == []
  {
    if rows != [] {
      var n := |rows| - 1;
      assert rows == rows[..n] + [rows[n]];
      SelectNone(rows[..n], q);
    }
  }

  // ----------------------------------------------------------------- reading

  /** `_last_valid`: the structured part of the last row of the student that has one. */
  function LastValid(rows: seq<Row>, persona: nat): Option<Stored> {
    if rows == [] then None
    else
      var n := |rows| - 1;
      if Matches(OfPersona(persona), rows[n]) && rows[n].speaker.structured.Some?
      then rows[n].speaker.structured
      else LastValid(rows[..n], persona)
  }

  predicate Spoke(r: Row, p: nat) { r.speaker.Student? && r.speaker.persona == p }

  /** Row `i` is the student's last one that parsed, with this content. */
  predicate LastParsedAt(rows: seq<Row>, p: nat, i: nat, s: Stored)
    requires i < |rows|
  {
    && Spoke(rows[i], p) && rows[i].speaker.structured == Some(s)
    && forall j | i < j < |rows| && Spoke(rows[j], p) :: rows[j].speaker.structured.None?
  }

  /** The student's last reaction that parsed, if any did. */
  ghost predicate LastParsed(rows: seq<Row>, p: nat, last: Option<Stored>) {
    match last
    case Some(s) => exists i: nat :: i < |rows| && LastParsedAt(rows, p, i, s)
    case None => forall i | 0 <= i < |rows| && Spoke(rows[i], p) :: rows[i].speaker.structured.None?
  }

  lemma {:induction false} LastValidIs(rows: seq<Row>, p: nat)
    ensures LastParsed(rows, p, LastValid(rows, p))
  {
    if rows != [] {
      var n := |rows| - 1;
      LastValidIs(rows[..n], p);
      if Spoke(rows[n], p) && rows[n].speaker.structured.Some? {
        assert LastParsedAt(rows, p, n, rows[n].speaker.structured.value);
      } else if LastValid(rows[..n], p).Some? {
        var s := LastValid(rows[..n], p).value;
        var i: nat :| i < n && LastParsedAt(rows[..n], p, i, s);
        assert LastParsedAt(rows, p, i, s);
      }
    }
  }

  function PreviousUnderstanding(rows: seq<Row>, persona: nat): Option<int> {
    var s := LastValid(rows, persona);
    if s.Some? then s.value.understanding else None
  }

  /** What a reaction of `persona` is judged against when `stored` was read. */
  function ContextOf(stored: seq<Row>, persona: nat, first: bool, teacher: string): Context {
    var s := LastValid(stored, persona);
    Context(first, PreviousUnderstanding(stored, persona), teacher,
            if s.Some? then s.value.artifact else "",
            if s.Some? then s.value.utterance else "")
  }

  function MaxNo(rows: seq<Row>): nat {
    if rows == [] then 0
    else
      var n := |rows| - 1;
      var m := MaxNo(rows[..n]);
      if rows[n].no > m then rows[n].no else m
  }

  function NextNo(rows: seq<Row>): nat { MaxNo(rows) + 1 }

  /** `seq` runs exactly from 1. */
  predicate Numbered(rows: seq<Row>) {
    forall i | 0 <= i < |rows| :: rows[i].no == i + 1
  }

  lemma {:induction false} NumberedNext(rows: seq<Row>)
    requires Numbered(rows)
    ensures NextNo(rows) == |rows| + 1
  {
    if rows != [] {
      NumberedNext(rows[..|rows| - 1]);
    }
  }

  // ------------------------------------------------------ in-place rewriting

  /** The columns a regenerate writes, and the words it had loaded. `sends` says
      whether a column set to the value already loaded is sent to the database. */
  datatype Patch = Patch(no: nat, loadedWords: string, structured: Option<Stored>, words: string, sends: bool)

  function PatchRow(r: Row, p: Patch): Row {
    if r.no == p.no && r.speaker.Student? then
      r.(speaker := Student(
           r.speaker.persona,
           if p.structured.Some? || p.sends then p.structured else r.speaker.structured,
           if p.words != p.loadedWords || p.sends then p.words else r.speaker.words))
    else r
  }

  function Amend(rows: seq<Row>, p: Patch): (out: seq<Row>)
    ensures |out| == |rows|
    ensures forall i | 0 <= i < |rows| :: out[i] == PatchRow(rows[i], p)
  {
    seq(|rows|, i requires 0 <= i < |rows| => PatchRow(rows[i], p))
  }

  /** The row up to the content of a student reaction. */
  function Shape(r: Row): Row {
    if r.speaker.Student? then r.(speaker := Student(r.speaker.persona, None, "")) else r
  }

  predicate SameShape(xs: seq<Row>, ys: seq<Row>) {
    |xs| == |ys| && forall i | 0 <= i < |xs| :: Shape(xs[i]) == Shape(ys[i])
  }

  lemma AmendShape(rows: seq<Row>, p: Patch)
    ensures SameShape(rows, Amend(rows, p))
  {
  }

  lemma {:induction false} SelectShape(xs: seq<Row>, ys: seq<Row>, q: Query)
    requires SameShape(xs, ys)
    ensures SameShape(Select(xs, q), Select(ys, q))
  {
    if xs != [] {
      var n := |xs| - 1;
      SelectShape(xs[..n], ys[..n], q);
      assert Shape(xs[n]) == Shape(ys[n]);
      assert Matches(q, xs[n]) == Matches(q, ys[n]);
    }
  }

  lemma {:induction false} SelectAmend(rows: seq<Row>, p: Patch, q: Query)
    ensures Select(Amend(rows, p), q) == Amend(Select(rows, q), p)
  {
    if rows != [] {
      var n := |rows| - 1;
      assert Amend(rows, p)[..n] == Amend(rows[..n], p);
      SelectAmend(rows[..n], p, q);
    }
  }
}
