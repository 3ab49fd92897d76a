/** Evaluation criteria as three stores that must agree: the documents in the cloud,
    the entries of the alias map and the rows of the local table. */
module Criteria {
  import opened Wrappers
  import opened AliasMaps

  /** A cloud document of type criteria. One from before the second version carries no
      stable id. */
  datatype CloudDoc = CloudDoc(documentId: string, stableId: Option<string>)

  /** A row of the local table; `local` stands for the columns the cloud knows nothing of. */
  datatype CriteriaRow = CriteriaRow(
    id: nat, stableId: Option<string>, documentId: string, status: Status, alias: Option<string>, local: string)

  type Entries = map<string, Entry>

  const LEGACY_SURROGATE_PREFIX := "legacy_"
  const CLOUD_SYNC := "cloud-sync"

  predicate IsLegacy(sid: string) { LEGACY_SURROGATE_PREFIX <= sid }

  /** The stable id of a document, or a surrogate made from its name. */
  function Sid(digest: string -> string, d: CloudDoc): string {
    if d.stableId.Some? && d.stableId.value != "" then d.stableId.value
    else LEGACY_SURROGATE_PREFIX + digest(d.documentId)
  }

  /** A stable id is kept; without one, or with an empty one, the surrogate is the digest of
      the document's name behind the mark of surrogates. */
  lemma SidIs(digest: string -> string, d: CloudDoc, sid: string)
    ensures d.stableId == Some(sid) && sid != "" ==> Sid(digest, d) == sid
    ensures d.stableId == None || d.stableId == Some("") ==> Sid(digest, d) == "legacy_" + digest(d.documentId) && IsLegacy(Sid(digest, d))
  {
  }

  function Sids(digest: string -> string, docs: seq<CloudDoc>): set<string> {
    set d | d in docs :: Sid(digest, d)
  }

  /** Different documents have different stable ids. */
  predicate DistinctSids(digest: string -> string, docs: seq<CloudDoc>) {
    forall x, y | x in docs && y in docs && Sid(digest, x) == Sid(digest, y) :: x == y
  }

  predicate DistinctIds(rows: seq<CriteriaRow>) {
    forall i, j | 0 <= i < j < |rows| :: rows[i].id != rows[j].id
  }

  /** No two rows share a stable id. */
  predicate DistinctRows(rows: seq<CriteriaRow>) {
    forall i, j | 0 <= i < j < |rows| :: rows[i].stableId != rows[j].stableId
  }

  // --------------------------------------------------------------- agreement

  predicate NoLegacyActive(entries: Entries) {
    forall sid | sid in entries && IsLegacy(sid) :: entries[sid].status != Active
  }

  /** The row shows what the alias map says about it. */
  predicate RowShows(r: CriteriaRow, entries: Entries) {
    && r.stableId.Some? && r.stableId.value in entries
    && r.status == entries[r.stableId.value].status
    && r.alias == entries[r.stableId.value].alias
  }

  predicate HasDoc(digest: string -> string, docs: seq<CloudDoc>, sid: string, documentId: string) {
    exists d | d in docs :: Sid(digest, d) == sid && d.documentId == documentId
  }

  predicate HasRow(rows: seq<CriteriaRow>, sid: string) {
    exists r | r in rows :: r.stableId == Some(sid)
  }

  /** Every row shows its entry and the document of its stable id. */
  predicate AllShow(digest: string -> string, docs: seq<CloudDoc>, entries: Entries, rows: seq<CriteriaRow>) {
    forall r | r in rows :: RowShows(r, entries) && HasDoc(digest, docs, r.stableId.value, r.documentId)
  }

  predicate Covered(entries: Entries, rows: seq<CriteriaRow>) {
    forall sid | sid in entries :: HasRow(rows, sid)
  }

  /** The three stores have the same stable ids, with matching document, status and
      alias, and no surrogate is active. */
  predicate Agree(digest: string -> string, docs: seq<CloudDoc>, entries: Entries, rows: seq<CriteriaRow>) {
    && DistinctSids(digest, docs)
    && entries.Keys == Sids(digest, docs)
    && DistinctRows(rows)
    && AllShow(digest, docs, entries, rows)
    && Covered(entries, rows)
    && NoLegacyActive(entries)
  }

  // ---------------------------------------------------------------- the table

  /** `DELETE ... WHERE NOT p`. */
  function Keep(rows: seq<CriteriaRow>, p: CriteriaRow -> bool): seq<CriteriaRow> {
    if rows == [] then []
    else
      var n := |rows| - 1;
      if p(rows[n]) then Keep(rows[..n], p) + [rows[n]] else Keep(rows[..n], p)
  }

  lemma {:induction false} KeepMembers(rows: seq<CriteriaRow>, p: CriteriaRow -> bool, r: CriteriaRow)
    ensures r in Keep(rows, p) <==> r in rows && p(r)
  {
    if rows != [] {
      var n := |rows| - 1;
      assert rows == rows[..n] + [rows[n]];
      KeepMembers(rows[..n], p, r);
    }
  }

  lemma {:induction false} KeepAll(rows: seq<CriteriaRow>, p: CriteriaRow -> bool)
    requires forall r | r in rows :: p(r)
    ensures Keep(rows, p) == rows
  {
    if rows != [] {
      var n := |rows| - 1;
      assert rows == rows[..n] + [rows[n]];
      KeepAll(rows[..n], p);
    }
  }

  lemma {:induction false} KeepDistinct(rows: seq<CriteriaRow>, p: CriteriaRow -> bool)
    ensures DistinctIds(rows) ==> DistinctIds(Keep(rows, p))
    ensures DistinctRows(rows) ==> DistinctRows(Keep(rows, p))
  {
    if rows != [] {
      var n := |rows| - 1;
      KeepDistinct(rows[..n], p);
      var rest := Keep(rows[..n], p);
      forall k | 0 <= k < |rest| ensures exists i :: 0 <= i < n && rows[i] == rest[k] {
        KeepMembers(rows[..n], p, rest[k]);
        var i :| 0 <= i < n && rows[..n][i] == rest[k];
      }
    }
  }

  function NextId(rows: seq<CriteriaRow>): (id: nat)
    ensures forall r | r in rows :: r.id < id
  {
    if rows == [] then 1
    else
      var n := |rows| - 1;
      assert rows == rows[..n] + [rows[n]];
      var id := NextId(rows[..n]);
      if rows[n].id < id then id else rows[n].id + 1
  }

  /** The rows of a stable id. */
  function Having(rows: seq<CriteriaRow>, sid: string): seq<CriteriaRow> {
    Keep(rows, (r: CriteriaRow) => r.stableId == Some(sid))
  }

  /** A row changed by primary key. */
  function PutRow(rows: seq<CriteriaRow>, row: CriteriaRow): seq<CriteriaRow> {
    seq(|rows|, i requires 0 <= i < |rows| => if rows[i].id == row.id then row else rows[i])
  }

  // --------------------------------------------------------------- reconcile

  /** An active surrogate is demoted. */
  function Demoted(sid: string, e: Entry): Entry {
    if e.status == Active && IsLegacy(sid) then e.(status := Uploaded) else e
  }

  function Known(sid: string, entries: Entries): Entry {
    if sid in entries then entries[sid] else Entry(None, Active)
  }

  /** The entries a reconcile publishes: those of documents that exist, and active ones
      for documents without. */
  function Reconciled(digest: string -> string, entries: Entries, docs: seq<CloudDoc>): Entries {
    map sid | sid in Sids(digest, docs) :: Demoted(sid, Known(sid, entries))
  }

  /** Alias and status of an entry that a reconcile publishes: those it had, none and active
      for a document without one, except that a surrogate is never active. */
  lemma ReconciledCells(digest: string -> string, entries: Entries, docs: seq<CloudDoc>, sid: string)
    requires sid in Sids(digest, docs)
    ensures sid in Reconciled(digest, entries, docs)
    ensures var e := Reconciled(digest, entries, docs)[sid];
      && e.alias == (if sid in entries then entries[sid].alias else None)
      && (sid in entries && entries[sid].status != Active ==> e.status == entries[sid].status)
      && (sid !in entries || entries[sid].status == Active ==> e.status == (if IsLegacy(sid) then Uploaded else Active))
  {
  }

  /** `delete_by_stable_ids_except`: of the rows with a stable id that is kept, the one
      of lowest id. */
  predicate Survives(rows: seq<CriteriaRow>, keep: set<string>, r: CriteriaRow) {
    && r.stableId.Some? && r.stableId.value in keep
    && forall x | x in rows && x.stableId == r.stableId :: r.id <= x.id
  }

  function Survivors(rows: seq<CriteriaRow>, keep: set<string>): seq<CriteriaRow> {
    Keep(rows, (r: CriteriaRow) => Survives(rows, keep, r))
  }

  /** `upsert_from_cloud`, where at most one row has the stable id. */
  function Upsert(rows: seq<CriteriaRow>, sid: string, documentId: string, e: Entry): seq<CriteriaRow> {
    if HasRow(rows, sid) then
      seq(|rows|, i requires 0 <= i < |rows| =>
        if rows[i].stableId == Some(sid) then rows[i].(documentId := documentId, status := e.status, alias := e.alias)
        else rows[i])
    else rows + [CriteriaRow(NextId(rows), Some(sid), documentId, e.status, e.alias, CLOUD_SYNC)]
  }

  function Upserted(digest: string -> string, rows: seq<CriteriaRow>, docs: seq<CloudDoc>, entries: Entries): seq<CriteriaRow>
    requires forall d | d in docs :: Sid(digest, d) in entries
  {
    if docs == [] then rows
    else
      var n := |docs| - 1;
      assert docs[n] in docs;
      var sid := Sid(digest, docs[n]);
      Upsert(Upserted(digest, rows, docs[..n], entries), sid, docs[n].documentId, entries[sid])
  }

  /** The local table after a reconcile. */
  function Rebuilt(digest: string -> string, rows: seq<CriteriaRow>, docs: seq<CloudDoc>, entries: Entries): seq<CriteriaRow>
    requires forall d | d in docs :: Sid(digest, d) in entries
  {
    Upserted(digest, Survivors(rows, Sids(digest, docs)), docs, entries)
  }

  // ------------------------------------------------ what the rebuild achieves

  lemma SurvivorsDistinct(rows: seq<CriteriaRow>, keep: set<string>)
    requires DistinctIds(rows)
    ensures DistinctRows(Survivors(rows, keep)) && DistinctIds(Survivors(rows, keep))
  {
    var p := (r: CriteriaRow) => Survives(rows, keep, r);
    KeepDistinct(rows, p);
    var out := Survivors(rows, keep);
    forall i, j | 0 <= i < j < |out| ensures out[i].stableId != out[j].stableId {
      KeepMembers(rows, p, out[i]);
      KeepMembers(rows, p, out[j]);
      assert out[i].id != out[j].id;
    }
  }

  lemma UpsertDistinct(rows: seq<CriteriaRow>, sid: string, documentId: string, e: Entry)
    ensures DistinctIds(rows) ==> DistinctIds(Upsert(rows, sid, documentId, e))
    ensures DistinctRows(rows) ==> DistinctRows(Upsert(rows, sid, documentId, e))
  {
    if !HasRow(rows, sid) {
      forall r | r in rows ensures r.stableId != Some(sid) {}
    }
  }

  /** After an upsert its stable id shows the new cell, the others are as before. */
  lemma UpsertMembers(rows: seq<CriteriaRow>, sid: string, documentId: string, e: Entry)
    ensures HasRow(Upsert(rows, sid, documentId, e), sid)
    ensures forall s | HasRow(rows, s) :: HasRow(Upsert(rows, sid, documentId, e), s)
    ensures forall r | r in Upsert(rows, sid, documentId, e) ::
              if r.stableId == Some(sid) then r.documentId == documentId && r.status == e.status && r.alias == e.alias
              else r in rows
  {
    var out := Upsert(rows, sid, documentId, e);
    forall s | HasRow(rows, s) ensures HasRow(out, s) {
      var r :| r in rows && r.stableId == Some(s);
      var i :| 0 <= i < |rows| && rows[i] == r;
      assert out[i] in out && out[i].stableId == Some(s);
    }
    if !HasRow(rows, sid) {
      assert out[|rows|] in out;
    }
  }

  /** What the upserts of `docs` have put right so far. */
  ghost predicate Right(digest: string -> string, rows: seq<CriteriaRow>, docs: seq<CloudDoc>, entries: Entries) {
    && DistinctRows(rows) && DistinctIds(rows)
    && (forall d | d in docs :: HasRow(rows, Sid(digest, d)))
    && (forall r, d | r in rows && d in docs && r.stableId == Some(Sid(digest, d)) ::
          RowShows(r, entries) && r.documentId == d.documentId)
  }

  lemma {:induction false} UpsertedRight(digest: string -> string, rows: seq<CriteriaRow>, docs: seq<CloudDoc>, entries: Entries)
    requires forall d | d in docs :: Sid(digest, d) in entries
    requires DistinctSids(digest, docs) && DistinctRows(rows) && DistinctIds(rows)
    ensures Right(digest, Upserted(digest, rows, docs, entries), docs, entries)
  {
    if docs != [] {
      var n := |docs| - 1;
      assert docs == docs[..n] + [docs[n]];
      UpsertedRight(digest, rows, docs[..n], entries);
      UpsertRight(digest, Upserted(digest, rows, docs[..n], entries), docs[..n], docs[n], entries);
    }
  }

  lemma UpsertRight(digest: string -> string, rows: seq<CriteriaRow>, docs: seq<CloudDoc>, d: CloudDoc, entries: Entries)
    requires Right(digest, rows, docs, entries) && DistinctSids(digest, docs + [d]) && Sid(digest, d) in entries
    ensures Right(digest, Upsert(rows, Sid(digest, d), d.documentId, entries[Sid(digest, d)]), docs + [d], entries)
  {
    var sid := Sid(digest, d);
    var out := Upsert(rows, sid, d.documentId, entries[sid]);
    UpsertDistinct(rows, sid, d.documentId, entries[sid]);
    UpsertMembers(rows, sid, d.documentId, entries[sid]);
    forall r, x | r in out && x in docs + [d] && r.stableId == Some(Sid(digest, x))
      ensures RowShows(r, entries) && r.documentId == x.documentId
    {
      assert x in docs || x == d;
      if Sid(digest, x) == sid {
        assert d in docs + [d];
        assert x == d;
      }
    }
  }

  lemma {:induction false} UpsertedOrigin(digest: string -> string, rows: seq<CriteriaRow>, docs: seq<CloudDoc>, entries: Entries, r: CriteriaRow)
    requires forall d | d in docs :: Sid(digest, d) in entries
    requires r in Upserted(digest, rows, docs, entries)
    ensures r in rows || exists d | d in docs :: r.stableId == Some(Sid(digest, d))
  {
    if docs != [] {
      var n := |docs| - 1;
      assert docs == docs[..n] + [docs[n]];
      var sid := Sid(digest, docs[n]);
      UpsertMembers(Upserted(digest, rows, docs[..n], entries), sid, docs[n].documentId, entries[sid]);
      if r.stableId != Some(sid) {
        UpsertedOrigin(digest, rows, docs[..n], entries, r);
      }
    }
  }

  lemma ReconciledEntries(digest: string -> string, entries: Entries, docs: seq<CloudDoc>)
    ensures Reconciled(digest, entries, docs).Keys == Sids(digest, docs)
    ensures forall d | d in docs :: Sid(digest, d) in Reconciled(digest, entries, docs)
    ensures NoLegacyActive(Reconciled(digest, entries, docs))
  {
  }

  /** A row for every document, showing its id. */
  ghost predicate RowPerDoc(digest: string -> string, docs: seq<CloudDoc>, rows: seq<CriteriaRow>) {
    forall d | d in docs :: exists r | r in rows :: r.stableId == Some(Sid(digest, d)) && r.documentId == d.documentId
  }

  /** Whatever the three stores held before, a reconcile that gets through makes them
      agree, if no two cloud documents share a stable id. */
  lemma ReconcileAgrees(digest: string -> string, docs: seq<CloudDoc>, entries: Entries, rows: seq<CriteriaRow>)
    requires DistinctSids(digest, docs) && DistinctIds(rows)
    ensures (ReconciledEntries(digest, entries, docs);
             var cleaned := Reconciled(digest, entries, docs);
             Agree(digest, docs, cleaned, Rebuilt(digest, rows, docs, cleaned)))
  {
    ReconciledEntries(digest, entries, docs);
    var cleaned := Reconciled(digest, entries, docs);
    var kept := Survivors(rows, Sids(digest, docs));
    var out := Rebuilt(digest, rows, docs, cleaned);
    SurvivorsDistinct(rows, Sids(digest, docs));
    UpsertedRight(digest, kept, docs, cleaned);
    forall r | r in out ensures RowShows(r, cleaned) && HasDoc(digest, docs, r.stableId.value, r.documentId) {
      UpsertedOrigin(digest, kept, docs, cleaned, r);
      if r in kept {
        KeepMembers(rows, (x: CriteriaRow) => Survives(rows, Sids(digest, docs), x), r);
      }
      var d :| d in docs && r.stableId == Some(Sid(digest, d));
      assert RowShows(r, cleaned) && r.documentId == d.documentId;
    }
  }

  lemma {:induction false} UpsertedDistinct(digest: string -> string, rows: seq<CriteriaRow>, docs: seq<CloudDoc>, entries: Entries)
    requires forall d | d in docs :: Sid(digest, d) in entries
    requires DistinctRows(rows)
    ensures DistinctRows(Upserted(digest, rows, docs, entries))
  {
    if docs != [] {
      var n := |docs| - 1;
      assert docs == docs[..n] + [docs[n]];
      UpsertedDistinct(digest, rows, docs[..n], entries);
      var sid := Sid(digest, docs[n]);
      UpsertDistinct(Upserted(digest, rows, docs[..n], entries), sid, docs[n].documentId, entries[sid]);
    }
  }

  lemma OneRowOneDoc(digest: string -> string, docs: seq<CloudDoc>, rows: seq<CriteriaRow>, x: CloudDoc, y: CloudDoc)
    requires DistinctRows(rows) && RowPerDoc(digest, docs, rows)
    requires x in docs && y in docs && Sid(digest, x) == Sid(digest, y)
    ensures x.documentId == y.documentId
  {
    var r :| r in rows && r.stableId == Some(Sid(digest, x)) && r.documentId == x.documentId;
    var q :| q in rows && q.stableId == Some(Sid(digest, y)) && q.documentId == y.documentId;
    var i :| 0 <= i < |rows| && rows[i] == r;
    var j :| 0 <= j < |rows| && rows[j] == q;
    assert i == j;
  }

  predicate DistinctDocs(docs: seq<CloudDoc>) {
    forall x, y | x in docs && y in docs && x.documentId == y.documentId :: x == y
  }

  /** Exactly then: of two documents with one stable id only one can have its row. */
  lemma ReconcileNeedsDistinct(digest: string -> string, docs: seq<CloudDoc>, entries: Entries, rows: seq<CriteriaRow>)
    requires DistinctIds(rows) && DistinctDocs(docs)
    ensures (ReconciledEntries(digest, entries, docs);
             var cleaned := Reconciled(digest, entries, docs);
             RowPerDoc(digest, docs, Rebuilt(digest, rows, docs, cleaned)) <==> DistinctSids(digest, docs))
  {
    ReconciledEntries(digest, entries, docs);
    var cleaned := Reconciled(digest, entries, docs);
    var kept := Survivors(rows, Sids(digest, docs));
    var out := Rebuilt(digest, rows, docs, cleaned);
    SurvivorsDistinct(rows, Sids(digest, docs));
    UpsertedDistinct(digest, kept, docs, cleaned);
    if DistinctSids(digest, docs) {
      UpsertedRight(digest, kept, docs, cleaned);
    }
    if RowPerDoc(digest, docs, out) {
      forall x, y | x in docs && y in docs && Sid(digest, x) == Sid(digest, y) ensures x == y {
        OneRowOneDoc(digest, docs, out, x, y);
      }
    }
  }

  const Twins := [CloudDoc("a", Some("X")), CloudDoc("b", Some("X"))]

  /** Two documents that carry one stable id: after a reconcile that got through, starting
      from nothing, the table has a row for the second and none for the first. */
  lemma TwinsLoseOne(digest: string -> string)
    ensures !DistinctSids(digest, Twins)
    ensures (ReconciledEntries(digest, map[], Twins);
             Rebuilt(digest, [], Twins, Reconciled(digest, map[], Twins)) == [CriteriaRow(1, Some("X"), "b", Active, None, CLOUD_SYNC)])
    ensures (ReconciledEntries(digest, map[], Twins);
             !RowPerDoc(digest, Twins, Rebuilt(digest, [], Twins, Reconciled(digest, map[], Twins))))
  {
    ReconciledEntries(digest, map[], Twins);
    var cleaned := Reconciled(digest, map[], Twins);
    var x, y := Twins[0], Twins[1];
    assert x in Twins && y in Twins && Sid(digest, x) == "X" && Sid(digest, y) == "X";
    assert "X"[0] != LEGACY_SURROGATE_PREFIX[0];
    assert cleaned["X"] == Entry(None, Active);
    assert Twins[..1] == [x] && [x][..0] == [];
    assert Survivors([], Sids(digest, Twins)) == [];
    assert Upserted(digest, [], [], cleaned) == [];
    var first := CriteriaRow(1, Some("X"), "a", Active, None, CLOUD_SYNC);
    assert Upserted(digest, [], [x], cleaned) == [first];
    assert first in [first];
    assert HasRow([first], "X");
    var row := CriteriaRow(1, Some("X"), "b", Active, None, CLOUD_SYNC);
    assert Upsert([first], "X", "b", cleaned["X"]) == [row];
    assert forall r | r in [row] :: r.documentId != x.documentId;
  }

  // -------------------------------------------------- what the rebuild keeps

  /** Same row of the table, same local columns. */
  predicate SameLocal(rows: seq<CriteriaRow>, r: CriteriaRow) {
    exists x | x in rows :: x.id == r.id && x.stableId == r.stableId && x.local == r.local
  }

  lemma UpsertKeepsLocal(rows: seq<CriteriaRow>, sid: string, documentId: string, e: Entry, r: CriteriaRow)
    requires SameLocal(rows, r)
    ensures SameLocal(Upsert(rows, sid, documentId, e), r)
  {
    var x :| x in rows && x.id == r.id && x.stableId == r.stableId && x.local == r.local;
    var i :| 0 <= i < |rows| && rows[i] == x;
    var out := Upsert(rows, sid, documentId, e);
    assert out[i] in out && out[i].id == r.id && out[i].stableId == r.stableId && out[i].local == r.local;
  }

  lemma {:induction false} UpsertedKeepsLocal(digest: string -> string, rows: seq<CriteriaRow>, docs: seq<CloudDoc>, entries: Entries, r: CriteriaRow)
    requires forall d | d in docs :: Sid(digest, d) in entries
    requires SameLocal(rows, r)
    ensures SameLocal(Upserted(digest, rows, docs, entries), r)
  {
    if docs != [] {
      var n := |docs| - 1;
      assert docs == docs[..n] + [docs[n]];
      UpsertedKeepsLocal(digest, rows, docs[..n], entries, r);
      var sid := Sid(digest, docs[n]);
      UpsertKeepsLocal(Upserted(digest, rows, docs[..n], entries), sid, docs[n].documentId, entries[sid], r);
    }
  }

  /** Of the rows of each stable id in the cloud the one of lowest id lives on under its
      id, with its local columns. */
  lemma RebuildKeepsLocal(digest: string -> string, rows: seq<CriteriaRow>, docs: seq<CloudDoc>, entries: Entries, r: CriteriaRow)
    requires forall d | d in docs :: Sid(digest, d) in entries
    requires r in rows && r.stableId.Some? && r.stableId.value in Sids(digest, docs)
    requires forall x | x in rows && x.stableId == r.stableId :: r.id <= x.id
    ensures SameLocal(Rebuilt(digest, rows, docs, entries), r)
  {
    KeepMembers(rows, (x: CriteriaRow) => Survives(rows, Sids(digest, docs), x), r);
    UpsertedKeepsLocal(digest, Survivors(rows, Sids(digest, docs)), docs, entries, r);
  }

  lemma UpsertFixed(rows: seq<CriteriaRow>, sid: string, documentId: string, e: Entry)
    requires HasRow(rows, sid)
    requires forall r | r in rows && r.stableId == Some(sid) ::
               r.documentId == documentId && r.status == e.status && r.alias == e.alias
    ensures Upsert(rows, sid, documentId, e) == rows
  {
    var out := Upsert(rows, sid, documentId, e);
    forall i | 0 <= i < |rows| ensures out[i] == rows[i] {
      assert rows[i] in rows;
    }
  }

  /** In agreeing stores every row already shows its document. */
  lemma AgreeShows(digest: string -> string, docs: seq<CloudDoc>, entries: Entries, rows: seq<CriteriaRow>, d: CloudDoc, r: CriteriaRow)
    requires Agree(digest, docs, entries, rows) && d in docs && r in rows && r.stableId == Some(Sid(digest, d))
    ensures r.documentId == d.documentId && RowShows(r, entries)
  {
    var x :| x in docs && Sid(digest, x) == r.stableId.value && x.documentId == r.documentId;
    assert x == d;
  }

  lemma {:induction false} UpsertedFixed(digest: string -> string, rows: seq<CriteriaRow>, docs: seq<CloudDoc>, entries: Entries, all: seq<CloudDoc>)
    requires Agree(digest, all, entries, rows) && forall d | d in docs :: d in all && Sid(digest, d) in entries
    ensures Upserted(digest, rows, docs, entries) == rows
  {
    if docs != [] {
      var n := |docs| - 1;
      assert docs == docs[..n] + [docs[n]];
      UpsertedFixed(digest, rows, docs[..n], entries, all);
      var d := docs[n];
      var sid := Sid(digest, d);
      forall r | r in rows && r.stableId == Some(sid)
        ensures r.documentId == d.documentId && r.status == entries[sid].status && r.alias == entries[sid].alias
      {
        AgreeShows(digest, all, entries, rows, d, r);
      }
      UpsertFixed(rows, sid, d.documentId, entries[sid]);
    }
  }

  lemma AgreeSurvives(digest: string -> string, docs: seq<CloudDoc>, entries: Entries, rows: seq<CriteriaRow>)
    requires Agree(digest, docs, entries, rows)
    ensures Survivors(rows, Sids(digest, docs)) == rows
  {
    forall r | r in rows ensures Survives(rows, Sids(digest, docs), r) {
      forall x | x in rows && x.stableId == r.stableId ensures r.id <= x.id {
        var i :| 0 <= i < |rows| && rows[i] == r;
        var j :| 0 <= j < |rows| && rows[j] == x;
        assert i == j;
      }
    }
    KeepAll(rows, (r: CriteriaRow) => Survives(rows, Sids(digest, docs), r));
  }

  lemma AgreeReconciled(digest: string -> string, docs: seq<CloudDoc>, entries: Entries)
    requires entries.Keys == Sids(digest, docs) && NoLegacyActive(entries)
    ensures Reconciled(digest, entries, docs) == entries
  {
  }

  /** When the stores agree a reconcile has nothing to publish, and the rebuild, or any
      part of it, leaves the table as it is. */
  lemma AgreeIsFixed(digest: string -> string, docs: seq<CloudDoc>, entries: Entries, rows: seq<CriteriaRow>, n: nat)
    requires Agree(digest, docs, entries, rows) && n <= |docs|
    ensures Reconciled(digest, entries, docs) == entries
    ensures Survivors(rows, Sids(digest, docs)) == rows
    ensures forall d | d in docs :: Sid(digest, d) in entries
    ensures Upserted(digest, rows, docs[..n], entries) == rows
  {
    AgreeReconciled(digest, docs, entries);
    AgreeSurvives(digest, docs, entries, rows);
    forall d | d in docs ensures Sid(digest, d) in entries {
      assert Sid(digest, d) in Sids(digest, docs);
    }
    UpsertedFixed(digest, rows, docs[..n], entries, docs);
  }

  /** A second reconcile of an unchanged cloud publishes nothing and leaves the table
      as it is: status, alias, document and row id. */
  lemma ReconcileTwice(digest: string -> string, docs: seq<CloudDoc>, entries: Entries, rows: seq<CriteriaRow>)
    requires DistinctSids(digest, docs) && DistinctIds(rows)
    ensures (ReconciledEntries(digest, entries, docs);
             var cleaned := Reconciled(digest, entries, docs);
             ReconciledEntries(digest, cleaned, docs);
             var rebuilt := Rebuilt(digest, rows, docs, cleaned);
             Reconciled(digest, cleaned, docs) == cleaned && Rebuilt(digest, rebuilt, docs, cleaned) == rebuilt)
  {
    ReconciledEntries(digest, entries, docs);
    var cleaned := Reconciled(digest, entries, docs);
    ReconcileAgrees(digest, docs, entries, rows);
    SurvivorsDistinct(rows, Sids(digest, docs));
    UpsertedRight(digest, Survivors(rows, Sids(digest, docs)), docs, cleaned);
    var rebuilt := Rebuilt(digest, rows, docs, cleaned);
    AgreeIsFixed(digest, docs, cleaned, rebuilt, |docs|);
    assert docs[..|docs|] == docs;
  }

  // ------------------------------------------------------ what mutations keep

  /** A document was stored, anywhere in the listing. */
  ghost predicate DocStored(before: seq<CloudDoc>, after: seq<CloudDoc>, d: CloudDoc) {
    exists at: nat :: at <= |before| && after == before[..at] + [d] + before[at..]
  }

  lemma DocStoredMembers(before: seq<CloudDoc>, after: seq<CloudDoc>, d: CloudDoc)
    requires DocStored(before, after, d)
    ensures forall x :: x in after <==> x in before || x == d
  {
  }

  /** The listing without one document. */
  function DocsWithout(docs: seq<CloudDoc>, documentId: string): seq<CloudDoc> {
    if docs == [] then []
    else
      var n := |docs| - 1;
      if docs[n].documentId == documentId then DocsWithout(docs[..n], documentId)
      else DocsWithout(docs[..n], documentId) + [docs[n]]
  }

  lemma {:induction false} DocsWithoutMembers(docs: seq<CloudDoc>, documentId: string, d: CloudDoc)
    ensures d in DocsWithout(docs, documentId) <==> d in docs && d.documentId != documentId
  {
    if docs != [] {
      var n := |docs| - 1;
      assert docs == docs[..n] + [docs[n]];
      DocsWithoutMembers(docs[..n], documentId, d);
    }
  }

  lemma StoredDistinct(digest: string -> string, docs: seq<CloudDoc>, after: seq<CloudDoc>, d: CloudDoc)
    requires DistinctSids(digest, docs) && DocStored(docs, after, d) && Sid(digest, d) !in Sids(digest, docs)
    ensures DistinctSids(digest, after) && Sids(digest, after) == Sids(digest, docs) + {Sid(digest, d)}
  {
    DocStoredMembers(docs, after, d);
    forall x, y | x in after && y in after && Sid(digest, x) == Sid(digest, y) ensures x == y {
      assert x in docs ==> Sid(digest, x) in Sids(digest, docs);
      assert y in docs ==> Sid(digest, y) in Sids(digest, docs);
    }
  }

  lemma MoreDocsShow(digest: string -> string, docs: seq<CloudDoc>, after: seq<CloudDoc>, entries: Entries, more: Entries, rows: seq<CriteriaRow>)
    requires AllShow(digest, docs, entries, rows) && forall x | x in docs :: x in after
    requires forall s | s in entries :: s in more && more[s] == entries[s]
    ensures AllShow(digest, after, more, rows)
  {
    forall r | r in rows ensures HasDoc(digest, after, r.stableId.value, r.documentId) {
      var x :| x in docs && Sid(digest, x) == r.stableId.value && x.documentId == r.documentId;
      assert x in after;
    }
  }

  lemma MoreRowsCover(entries: Entries, rows: seq<CriteriaRow>, sid: string, e: Entry, row: CriteriaRow)
    requires Covered(entries, rows) && row.stableId == Some(sid)
    ensures Covered(entries[sid := e], rows + [row])
  {
    var out := rows + [row];
    assert out[|rows|] == row;
    forall s | s in entries[sid := e] ensures HasRow(out, s) {
      if s == sid {
        assert row in out;
      } else {
        var r :| r in rows && r.stableId == Some(s);
        assert r in out;
      }
    }
  }

  /** A new criterion in all three stores. */
  lemma UploadAgrees(digest: string -> string, docs: seq<CloudDoc>, after: seq<CloudDoc>, entries: Entries,
                     rows: seq<CriteriaRow>, sid: string, e: Entry, row: CriteriaRow)
    requires Agree(digest, docs, entries, rows) && DocStored(docs, after, CloudDoc(row.documentId, Some(sid)))
    requires sid != "" && !IsLegacy(sid) && sid !in Sids(digest, docs)
    requires row.stableId == Some(sid) && row.status == e.status && row.alias == e.alias
    ensures Agree(digest, after, entries[sid := e], rows + [row])
  {
    var d := CloudDoc(row.documentId, Some(sid));
    StoredDistinct(digest, docs, after, d);
    DocStoredMembers(docs, after, d);
    MoreDocsShow(digest, docs, after, entries, entries[sid := e], rows);
    MoreRowsCover(entries, rows, sid, e, row);
    assert d in after && Sid(digest, d) == sid;
    forall i | 0 <= i < |rows| ensures rows[i].stableId != Some(sid) {
      assert rows[i] in rows;
    }
  }

  /** A table whose rows have other ids than `row` is left of it. */
  lemma RowGone(rows: seq<CriteriaRow>, row: CriteriaRow, r: CriteriaRow)
    requires DistinctIds(rows) && row in rows
    ensures r in Keep(rows, (x: CriteriaRow) => x.id != row.id) <==> r in rows && r != row
  {
    KeepMembers(rows, (x: CriteriaRow) => x.id != row.id, r);
    if r in rows && r.id == row.id {
      var i :| 0 <= i < |rows| && rows[i] == r;
      var j :| 0 <= j < |rows| && rows[j] == row;
    }
  }

  lemma OtherSid(rows: seq<CriteriaRow>, row: CriteriaRow, r: CriteriaRow)
    requires DistinctRows(rows) && row in rows && r in rows && r != row
    ensures r.stableId != row.stableId
  {
    var i :| 0 <= i < |rows| && rows[i] == r;
    var j :| 0 <= j < |rows| && rows[j] == row;
  }

  lemma FewerSids(digest: string -> string, docs: seq<CloudDoc>, gone: CloudDoc)
    requires DistinctSids(digest, docs) && DistinctDocs(docs) && gone in docs
    ensures var docs' := DocsWithout(docs, gone.documentId);
      && (forall d :: d in docs' <==> d in docs && d != gone)
      && DistinctSids(digest, docs') && DistinctDocs(docs')
      && Sids(digest, docs') == Sids(digest, docs) - {Sid(digest, gone)}
  {
    var docs' := DocsWithout(docs, gone.documentId);
    forall d ensures d in docs' <==> d in docs && d != gone {
      DocsWithoutMembers(docs, gone.documentId, d);
    }
  }

  /** A criterion taken out of all three stores. */
  lemma DeleteAgrees(digest: string -> string, docs: seq<CloudDoc>, entries: Entries, rows: seq<CriteriaRow>, row: CriteriaRow)
    requires Agree(digest, docs, entries, rows) && DistinctIds(rows) && DistinctDocs(docs)
    requires row in rows && row.stableId.Some?
    ensures Agree(digest, DocsWithout(docs, row.documentId), entries - {row.stableId.value},
                  Keep(rows, (r: CriteriaRow) => r.id != row.id))
  {
    var sid := row.stableId.value;
    var docs', rows', entries' := DocsWithout(docs, row.documentId), Keep(rows, (r: CriteriaRow) => r.id != row.id), entries - {sid};
    var gone :| gone in docs && Sid(digest, gone) == sid && gone.documentId == row.documentId;
    FewerSids(digest, docs, gone);
    KeepDistinct(rows, (r: CriteriaRow) => r.id != row.id);
    assert AllShow(digest, docs', entries', rows') by {
      forall r | r in rows' ensures RowShows(r, entries') && HasDoc(digest, docs', r.stableId.value, r.documentId) {
        RowGone(rows, row, r);
        OtherSid(rows, row, r);
        var x :| x in docs && Sid(digest, x) == r.stableId.value && x.documentId == r.documentId;
        assert x in docs';
      }
    }
    assert Covered(entries', rows') by {
      forall s | s in entries' ensures HasRow(rows', s) {
        var r :| r in rows && r.stableId == Some(s);
        RowGone(rows, row, r);
      }
    }
  }

  /** Row by row the same stable ids and documents, each row showing its new entry. */
  predicate SameCells(rows: seq<CriteriaRow>, rows': seq<CriteriaRow>, entries': Entries) {
    && |rows'| == |rows|
    && forall i | 0 <= i < |rows| ::
         rows'[i].stableId == rows[i].stableId && rows'[i].documentId == rows[i].documentId && RowShows(rows'[i], entries')
  }

  /** New cells in rows that keep their stable ids and documents. */
  lemma CellsAgree(digest: string -> string, docs: seq<CloudDoc>, entries: Entries, rows: seq<CriteriaRow>, entries': Entries, rows': seq<CriteriaRow>)
    requires Agree(digest, docs, entries, rows) && entries'.Keys == entries.Keys && NoLegacyActive(entries')
    requires SameCells(rows, rows', entries')
    ensures Agree(digest, docs, entries', rows')
  {
    assert AllShow(digest, docs, entries', rows') by {
      forall r | r in rows' ensures RowShows(r, entries') && HasDoc(digest, docs, r.stableId.value, r.documentId) {
        var i :| 0 <= i < |rows'| && rows'[i] == r;
        assert rows[i] in rows;
      }
    }
    assert Covered(entries', rows') by {
      SameSidsCover(entries, rows, entries', rows');
    }
  }

  lemma SameSidsCover(entries: Entries, rows: seq<CriteriaRow>, entries': Entries, rows': seq<CriteriaRow>)
    requires Covered(entries, rows) && entries'.Keys == entries.Keys && |rows'| == |rows|
    requires forall i | 0 <= i < |rows| :: rows'[i].stableId == rows[i].stableId
    ensures Covered(entries', rows')
  {
    forall s | s in entries' ensures HasRow(rows', s) {
      assert s in entries;
      var r :| r in rows && r.stableId == Some(s);
      var i :| 0 <= i < |rows| && rows[i] == r;
      assert rows'[i] in rows';
    }
  }

  function RefreshRow(r: CriteriaRow, entries: Entries): CriteriaRow {
    if r.stableId.Some? && r.stableId.value in entries then r.(status := entries[r.stableId.value].status) else r
  }

  /** The rows brought in line with the statuses of the entries. */
  function Refreshed(rows: seq<CriteriaRow>, entries: Entries): (out: seq<CriteriaRow>)
    ensures |out| == |rows| && forall i | 0 <= i < |rows| :: out[i] == RefreshRow(rows[i], entries)
  {
    seq(|rows|, i requires 0 <= i < |rows| => RefreshRow(rows[i], entries))
  }

  function WithStatus(entries: Entries, sid: string, status: Status): Entries
    requires sid in entries
  {
    entries[sid := entries[sid].(status := status)]
  }

  /** Only this entry has changed, and of it only the status. */
  predicate StatusSet(before: Entries, after: Entries, sid: string, status: Status) {
    && sid in before && after.Keys == before.Keys
    && after[sid].status == status && after[sid].alias == before[sid].alias
    && forall x | x in before && x != sid :: after[x] == before[x]
  }

  /** Row by row nothing has changed but the status, which is now that of the entry, if the
      row has one; the rows of this stable id show this status. */
  predicate StatusShown(before: seq<CriteriaRow>, after: seq<CriteriaRow>, entries: Entries, sid: string, status: Status) {
    && |after| == |before|
    && forall i | 0 <= i < |before| ::
         && after[i] == before[i].(status := after[i].status)
         && (before[i].stableId == Some(sid) ==> after[i].status == status)
         && after[i].status == (if before[i].stableId.Some? && before[i].stableId.value in entries
                                then entries[before[i].stableId.value].status else before[i].status)
  }

  lemma StatusStored(entries: Entries, rows: seq<CriteriaRow>, sid: string, status: Status)
    requires sid in entries
    ensures StatusSet(entries, WithStatus(entries, sid, status), sid, status)
    ensures StatusShown(rows, Refreshed(rows, WithStatus(entries, sid, status)), WithStatus(entries, sid, status), sid, status)
  {
  }

  lemma StatusRowShows(entries: Entries, r: CriteriaRow, sid: string, status: Status)
    requires sid in entries && RowShows(r, entries)
    ensures RowShows(RefreshRow(r, WithStatus(entries, sid, status)), WithStatus(entries, sid, status))
  {
  }

  lemma StatusCells(entries: Entries, rows: seq<CriteriaRow>, sid: string, status: Status)
    requires sid in entries && forall r | r in rows :: RowShows(r, entries)
    ensures SameCells(rows, Refreshed(rows, WithStatus(entries, sid, status)), WithStatus(entries, sid, status))
  {
    var out := Refreshed(rows, WithStatus(entries, sid, status));
    forall i | 0 <= i < |rows| ensures RowShows(out[i], WithStatus(entries, sid, status)) {
      assert rows[i] in rows;
      StatusRowShows(entries, rows[i], sid, status);
    }
  }

  /** A new status, in the alias map and in the table. */
  lemma StatusAgrees(digest: string -> string, docs: seq<CloudDoc>, entries: Entries, rows: seq<CriteriaRow>, sid: string, status: Status)
    requires Agree(digest, docs, entries, rows) && sid in entries && (status == Active ==> !IsLegacy(sid))
    ensures Agree(digest, docs, WithStatus(entries, sid, status), Refreshed(rows, WithStatus(entries, sid, status)))
  {
    StatusCells(entries, rows, sid, status);
    CellsAgree(digest, docs, entries, rows, WithStatus(entries, sid, status), Refreshed(rows, WithStatus(entries, sid, status)));
  }

  function WithAlias(entries: Entries, sid: string, alias: Option<string>): Entries
    requires sid in entries
  {
    entries[sid := entries[sid].(alias := alias)]
  }

  function RenameRow(r: CriteriaRow, sid: string, alias: Option<string>): CriteriaRow {
    if r.stableId.Some? && r.stableId.value == sid then r.(alias := alias) else r
  }

  function Renamed(rows: seq<CriteriaRow>, sid: string, alias: Option<string>): (out: seq<CriteriaRow>)
    ensures |out| == |rows| && forall i | 0 <= i < |rows| :: out[i] == RenameRow(rows[i], sid, alias)
  {
    seq(|rows|, i requires 0 <= i < |rows| => RenameRow(rows[i], sid, alias))
  }

  /** Only this entry has changed, and of it only the alias. */
  predicate AliasSet(before: Entries, after: Entries, sid: string, alias: Option<string>) {
    && sid in before && after.Keys == before.Keys
    && after[sid].alias == alias && after[sid].status == before[sid].status
    && forall x | x in before && x != sid :: after[x] == before[x]
  }

  /** The rows of this stable id show the alias, and nothing else has changed. */
  predicate AliasShown(before: seq<CriteriaRow>, after: seq<CriteriaRow>, sid: string, alias: Option<string>) {
    && |after| == |before|
    && forall i | 0 <= i < |before| ::
         after[i] == if before[i].stableId == Some(sid) then before[i].(alias := alias) else before[i]
  }

  lemma AliasStored(entries: Entries, rows: seq<CriteriaRow>, sid: string, alias: Option<string>)
    requires sid in entries
    ensures AliasSet(entries, WithAlias(entries, sid, alias), sid, alias)
    ensures AliasShown(rows, Renamed(rows, sid, alias), sid, alias)
  {
  }

  lemma AliasRowShows(entries: Entries, r: CriteriaRow, sid: string, alias: Option<string>)
    requires sid in entries && RowShows(r, entries)
    ensures RowShows(RenameRow(r, sid, alias), WithAlias(entries, sid, alias))
  {
  }

  lemma AliasCells(entries: Entries, rows: seq<CriteriaRow>, sid: string, alias: Option<string>)
    requires sid in entries && forall r | r in rows :: RowShows(r, entries)
    ensures SameCells(rows, Renamed(rows, sid, alias), WithAlias(entries, sid, alias))
  {
    forall i | 0 <= i < |rows| ensures RowShows(Renamed(rows, sid, alias)[i], WithAlias(entries, sid, alias)) {
      assert rows[i] in rows;
      AliasRowShows(entries, rows[i], sid, alias);
    }
  }

  lemma AliasNoLegacy(entries: Entries, sid: string, alias: Option<string>)
    requires sid in entries && NoLegacyActive(entries)
    ensures NoLegacyActive(WithAlias(entries, sid, alias)) && WithAlias(entries, sid, alias).Keys == entries.Keys
  {
  }

  /** A new alias, in the alias map and in the table. */
  lemma AliasAgrees(digest: string -> string, docs: seq<CloudDoc>, entries: Entries, rows: seq<CriteriaRow>, sid: string, alias: Option<string>)
    requires Agree(digest, docs, entries, rows) && sid in entries
    ensures Agree(digest, docs, WithAlias(entries, sid, alias), Renamed(rows, sid, alias))
  {
    AliasNoLegacy(entries, sid, alias);
    AliasCells(entries, rows, sid, alias);
    CellsAgree(digest, docs, entries, rows, WithAlias(entries, sid, alias), Renamed(rows, sid, alias));
  }
}
