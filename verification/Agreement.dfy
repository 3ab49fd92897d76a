/** Scene agreement: which students have shown, at least once in the scene, an
    understanding at the bar. */
module Agreement {
  import opened Wrappers
  import opened Reaction
  import opened Transcript

  /** `_row_agrees`: rows without a score follow the older rule. */
  predicate RowAgrees(s: Stored) {
    if s.understanding.Some? then s.understanding.value >= AGREE_THRESHOLD
    else s.ready && s.misconception == ""
  }

  predicate AgreeingRow(r: Row, idx: nat, persona: nat) {
    r.phase == idx && Matches(OfPersona(persona), r) && r.speaker.structured.Some?
    && RowAgrees(r.speaker.structured.value)
  }

  /** The student has an agreeing row in the scene. */
  predicate HasAgreed(rows: seq<Row>, idx: nat, persona: nat) {
    exists i | 0 <= i < |rows| :: AgreeingRow(rows[i], idx, persona)
  }

  /** The students that agree, in seat order. */
  function AgreedIds(rows: seq<Row>, idx: nat, personas: seq<nat>): seq<nat> {
    if personas == [] then []
    else
      var n := |personas| - 1;
      AgreedIds(rows, idx, personas[..n]) + (if HasAgreed(rows, idx, personas[n]) then [personas[n]] else [])
  }

  predicate AllAgreed(rows: seq<Row>, idx: nat, personas: seq<nat>) {
    |AgreedIds(rows, idx, personas)| == |personas|
  }

  /** What the bar shows for each student: the last valid reaction of the scene. */
  function Bars(rows: seq<Row>, idx: nat, personas: seq<nat>): map<nat, Option<int>> {
    map p | p in personas :: PreviousUnderstanding(Scene(rows, idx), p)
  }

  datatype Verdict = Verdict(
    phase: nat, agreed: seq<nat>, understanding: map<nat, Option<int>>, total: nat, allAgreed: bool)

  /** The first loop of `compute_agreement`: over the rows of the scene. */
  method ScanRows(idx: nat, rows: seq<Row>) returns (latest: map<nat, Stored>, agreedOnce: set<nat>)
    ensures forall p: nat :: p in latest <==> LastValid(Scene(rows, idx), p).Some?
    ensures forall p: nat | p in latest :: Some(latest[p]) == LastValid(Scene(rows, idx), p)
    ensures forall p: nat :: p in agreedOnce <==> HasAgreed(rows, idx, p)
  {
    latest, agreedOnce := map[], {};
    for i := 0 to |rows|
      invariant forall p: nat :: p in latest <==> LastValid(Scene(rows[..i], idx), p).Some?
      invariant forall p: nat | p in latest :: Some(latest[p]) == LastValid(Scene(rows[..i], idx), p)
      invariant forall p: nat :: p in agreedOnce <==> HasAgreed(rows[..i], idx, p)
    {
      var u := rows[i];
      assert rows[..i + 1] == rows[..i] + [u];
      forall p: nat
        ensures HasAgreed(rows[..i + 1], idx, p) <==> HasAgreed(rows[..i], idx, p) || AgreeingRow(u, idx, p)
        ensures LastValid(Scene(rows[..i + 1], idx), p) ==
                if u.phase == idx && Matches(OfPersona(p), u) && u.speaker.structured.Some? then u.speaker.structured
                else LastValid(Scene(rows[..i], idx), p)
      {
        HasAgreedStep(rows[..i], u, idx, p);
        LastValidStep(rows[..i], u, idx, p);
      }
      if u.phase == idx && u.speaker.Student? && u.speaker.structured.Some? {
        latest := latest[u.speaker.persona := u.speaker.structured.value];
        if RowAgrees(u.speaker.structured.value) {
          agreedOnce := agreedOnce + {u.speaker.persona};
        }
      }
    }
    assert rows[..|rows|] == rows;
  }

  /** `compute_agreement`: the rows first, then the seats in order. */
  method ComputeAgreement(idx: nat, personas: seq<nat>, rows: seq<Row>) returns (v: Verdict)
    ensures v.phase == idx && v.total == |personas|
    ensures v.agreed == AgreedIds(rows, idx, personas)
    ensures v.understanding == Bars(rows, idx, personas)
    ensures v.allAgreed == AllAgreed(rows, idx, personas)
  {
    var latest, agreedOnce := ScanRows(idx, rows);
    var understanding: map<nat, Option<int>> := map[];
    var agreed: seq<nat> := [];
    for k := 0 to |personas|
      invariant agreed == AgreedIds(rows, idx, personas[..k])
      invariant understanding == Bars(rows, idx, personas[..k])
    {
      var p := personas[k];
      SeatStep(rows, idx, personas[..k], p);
      assert personas[..k + 1] == personas[..k] + [p];
      understanding := understanding[p := if p in latest then latest[p].understanding else None];
      if p in agreedOnce {
        agreed := agreed + [p];
      }
    }
    assert personas[..|personas|] == personas;
    v := Verdict(idx, agreed, understanding, |personas|, |agreed| == |personas|);
  }

  /** One seat more. */
  lemma SeatStep(rows: seq<Row>, idx: nat, personas: seq<nat>, p: nat)
    ensures AgreedIds(rows, idx, personas + [p]) ==
            AgreedIds(rows, idx, personas) + (if HasAgreed(rows, idx, p) then [p] else [])
    ensures Bars(rows, idx, personas + [p]) ==
            Bars(rows, idx, personas)[p := PreviousUnderstanding(Scene(rows, idx), p)]
  {
    assert (personas + [p])[..|personas|] == personas;
  }

  lemma HasAgreedStep(rows: seq<Row>, u: Row, idx: nat, p: nat)
    ensures HasAgreed(rows + [u], idx, p) <==> HasAgreed(rows, idx, p) || AgreeingRow(u, idx, p)
  {
    var all := rows + [u];
    assert all[|rows|] == u;
    if i :| 0 <= i < |rows| && AgreeingRow(rows[i], idx, p) {
      assert AgreeingRow(all[i], idx, p);
    }
    if i :| 0 <= i < |all| && AgreeingRow(all[i], idx, p) {
      assert i < |rows| ==> AgreeingRow(rows[i], idx, p);
    }
  }

  lemma LastValidStep(rows: seq<Row>, u: Row, idx: nat, p: nat)
    ensures LastValid(Scene(rows + [u], idx), p) ==
            if u.phase == idx && Matches(OfPersona(p), u) && u.speaker.structured.Some? then u.speaker.structured
            else LastValid(Scene(rows, idx), p)
  {
    assert (rows + [u])[..|rows|] == rows;
    if u.phase == idx {
      var s := Scene(rows, idx);
      assert Scene(rows + [u], idx) == s + [u];
      assert (s + [u])[..|s|] == s;
    } else {
      assert Scene(rows + [u], idx) == Scene(rows, idx);
    }
  }

  /** The gate opens exactly when every seated student has agreed. */
  lemma {:induction false} AllAgreedMeaning(rows: seq<Row>, idx: nat, personas: seq<nat>)
    ensures |AgreedIds(rows, idx, personas)| <= |personas|
    ensures AllAgreed(rows, idx, personas) <==> forall p | p in personas :: HasAgreed(rows, idx, p)
  {
    if personas != [] {
      var n := |personas| - 1;
      AllAgreedMeaning(rows, idx, personas[..n]);
      assert personas == personas[..n] + [personas[n]];
    }
  }

  /** A row of the scene in which the student is at the bar, or, without a score, ready and
      without a misconception. */
  predicate Agrees(r: Row, idx: nat, p: nat) {
    && r.phase == idx && Spoke(r, p) && r.speaker.structured.Some?
    && var s := r.speaker.structured.value;
       if s.understanding.Some? then s.understanding.value >= 80 else s.ready && s.misconception == ""
  }

  /** The seats that agree are those with such a row, in seat order. */
  lemma {:induction false} AgreedSplits(rows: seq<Row>, idx: nat, before: seq<nat>, p: nat, after: seq<nat>)
    ensures AgreedIds(rows, idx, before + [p] + after) ==
            AgreedIds(rows, idx, before) + (if exists r :: r in rows && Agrees(r, idx, p) then [p] else [])
            + AgreedIds(rows, idx, after)
    decreases |after|
  {
    if after == [] {
      assert (before + [p] + after)[..|before|] == before;
      assert HasAgreed(rows, idx, p) <==> exists r :: r in rows && Agrees(r, idx, p) by {
        if HasAgreed(rows, idx, p) {
          var i :| 0 <= i < |rows| && AgreeingRow(rows[i], idx, p);
          assert rows[i] in rows && Agrees(rows[i], idx, p);
        }
        if r :| r in rows && Agrees(r, idx, p) {
          var i :| 0 <= i < |rows| && rows[i] == r;
          assert AgreeingRow(rows[i], idx, p);
        }
      }
    } else {
      var n := |after| - 1;
      assert (before + [p] + after)[..|before| + 1 + n] == before + [p] + after[..n];
      AgreedSplits(rows, idx, before, p, after[..n]);
    }
  }

  /** A bar shows the score of the student's last reaction of the scene that parsed. */
  lemma BarShows(rows: seq<Row>, idx: nat, personas: seq<nat>, p: nat)
    requires p in personas
    ensures p in Bars(rows, idx, personas)
    ensures exists last :: LastParsed(Scene(rows, idx), p, last)
                           && Bars(rows, idx, personas)[p] == if last.Some? then last.value.understanding else None
  {
    LastValidIs(Scene(rows, idx), p);
  }

  /** Agreement is sticky under appends: later rows, failed or low, never undo it. */
  lemma AgreementSticky(rows: seq<Row>, more: seq<Row>, idx: nat, p: nat)
    ensures HasAgreed(rows, idx, p) ==> HasAgreed(rows + more, idx, p)
  {
    if i :| 0 <= i < |rows| && AgreeingRow(rows[i], idx, p) {
      assert AgreeingRow((rows + more)[i], idx, p);
    }
  }

  /** Only the rows of the scene matter. */
  lemma AgreementLocal(rows: seq<Row>, idx: nat, p: nat)
    ensures HasAgreed(Scene(rows, idx), idx, p) <==> HasAgreed(rows, idx, p)
  {
    if i :| 0 <= i < |rows| && AgreeingRow(rows[i], idx, p) {
      SelectMembers(rows, InScene(idx), rows[i]);
      var k :| 0 <= k < |Scene(rows, idx)| && Scene(rows, idx)[k] == rows[i];
    }
    if k :| 0 <= k < |Scene(rows, idx)| && AgreeingRow(Scene(rows, idx)[k], idx, p) {
      SelectMembers(rows, InScene(idx), Scene(rows, idx)[k]);
      var i :| 0 <= i < |rows| && rows[i] == Scene(rows, idx)[k];
    }
  }
}
