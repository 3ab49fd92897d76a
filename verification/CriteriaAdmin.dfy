/** The administrator's operations on the criteria, and the reconcile that rebuilds the
    local table from the cloud. Every cloud call and every commit may take effect or not
    and then return or raise; only marking the state `needs_resync` is taken to succeed. */
module CriteriaAdmin {
  import opened Wrappers
  import opened AliasMaps
  import opened Criteria

  datatype SyncState = SyncOk | NeedsResync | SyncError | Unsynced

  datatype Reply = Done | Refused(code: nat)

  datatype Outcome = Skipped | Completed | Failed

  /** One request, with the ids randomness and the cloud will hand out for it. */
  datatype Request =
    | Upload(sid: string, documentId: string, local: string)
    | Delete(sid: string)
    | Replace(legacy: string, sid: string, documentId: string, local: string)
    | Alias(sid: string, alias: Option<string>)
    | SetTo(sid: string, status: Status)
    | Resync(swallowErrors: bool)

  /** What the three stores show: cloud documents, the alias map that counts, rows. */
  datatype View = View(docs: seq<CloudDoc>, aliasMap: Fetched, rows: seq<CriteriaRow>)

  function EntriesOf(found: Option<AliasDoc>): Entries {
    if found.Some? && found.value.Good? then found.value.entries else map[]
  }

  function NameOf(found: Option<AliasDoc>): Option<nat> {
    if found.Some? then Some(found.value.name) else None
  }

  /** What randomness and the cloud are trusted with: ids nobody has used. */
  predicate FreshIds(digest: string -> string, docs: seq<CloudDoc>, sid: string, documentId: string) {
    sid != "" && !IsLegacy(sid) && sid !in Sids(digest, docs) && forall d | d in docs :: d.documentId != documentId
  }

  lemma {:induction false} HavingOne(rows: seq<CriteriaRow>, sid: string, row: CriteriaRow)
    requires Having(rows, sid) == [row]
    ensures row in rows && row.stableId == Some(sid)
    ensures forall r | r in rows && r.stableId == Some(sid) :: r == row
  {
    forall r ensures r in Having(rows, sid) <==> r in rows && r.stableId == Some(sid) {
      KeepMembers(rows, (x: CriteriaRow) => x.stableId == Some(sid), r);
    }
    assert row in Having(rows, sid);
    forall r | r in rows && r.stableId == Some(sid) ensures r == row {
      assert r in Having(rows, sid);
    }
  }

  lemma HavingNone(rows: seq<CriteriaRow>, sid: string)
    requires Having(rows, sid) == []
    ensures !HasRow(rows, sid)
  {
    forall r | r in rows ensures r.stableId != Some(sid) {
      KeepMembers(rows, (x: CriteriaRow) => x.stableId == Some(sid), r);
    }
  }

  lemma RenamedOne(rows: seq<CriteriaRow>, sid: string, alias: Option<string>, row: CriteriaRow)
    requires DistinctIds(rows) && Having(rows, sid) == [row]
    ensures PutRow(rows, row.(alias := alias)) == Renamed(rows, sid, alias)
    ensures DistinctIds(Renamed(rows, sid, alias))
  {
    HavingOne(rows, sid, row);
    var k :| 0 <= k < |rows| && rows[k] == row;
    var next := PutRow(rows, row.(alias := alias));
    forall i | 0 <= i < |rows| ensures next[i] == RenameRow(rows[i], sid, alias) {
      assert rows[i] in rows;
      assert i != k ==> rows[i].id != rows[k].id;
    }
  }

  lemma RenamedNone(rows: seq<CriteriaRow>, sid: string, alias: Option<string>)
    requires !HasRow(rows, sid)
    ensures Renamed(rows, sid, alias) == rows
  {
    forall i | 0 <= i < |rows| ensures RenameRow(rows[i], sid, alias) == rows[i] {
      assert rows[i] in rows;
    }
  }

  lemma RefreshedTwice(rows: seq<CriteriaRow>, entries: Entries)
    ensures Refreshed(Refreshed(rows, entries), entries) == Refreshed(rows, entries)
  {
  }

  /** One entry more: its row, if it has one, gets its status. */
  lemma RefreshOne(rows: seq<CriteriaRow>, entries: Entries, sid: string, e: Entry, row: CriteriaRow)
    requires DistinctIds(rows) && sid !in entries
    requires Having(Refreshed(rows, entries), sid) == [row]
    ensures PutRow(Refreshed(rows, entries), row.(status := e.status)) == Refreshed(rows, entries[sid := e])
  {
    var current := Refreshed(rows, entries);
    HavingOne(current, sid, row);
    var k :| 0 <= k < |current| && current[k] == row;
    var next := PutRow(current, row.(status := e.status));
    forall i | 0 <= i < |rows| ensures next[i] == RefreshRow(rows[i], entries[sid := e]) {
      assert current[i] in current && current[i] == RefreshRow(rows[i], entries);
      assert i != k ==> rows[i].id != rows[k].id;
    }
  }

  lemma RefreshNone(rows: seq<CriteriaRow>, entries: Entries, sid: string, e: Entry)
    requires sid !in entries && Having(Refreshed(rows, entries), sid) == []
    ensures Refreshed(rows, entries) == Refreshed(rows, entries[sid := e])
  {
    var current := Refreshed(rows, entries);
    HavingNone(current, sid);
    forall i | 0 <= i < |rows| ensures current[i] == RefreshRow(rows[i], entries[sid := e]) {
      assert current[i] in current && current[i] == RefreshRow(rows[i], entries);
    }
  }

  /** The alias map with a surrogate entry replaced by a real, active one. */
  function Promoted(entries: Entries, sid: string, newSid: string): Entries
    requires sid in entries
  {
    (entries - {sid})[newSid := Entry(entries[sid].alias, Active)]
  }

  function PromotedRow(rows: seq<CriteriaRow>, newSid: string, documentId: string, alias: Option<string>, local: string): CriteriaRow {
    CriteriaRow(NextId(rows), Some(newSid), documentId, Active, alias, local)
  }

  /** One row out, one in. */
  function Swapped(rows: seq<CriteriaRow>, gone: CriteriaRow, added: CriteriaRow): seq<CriteriaRow> {
    Keep(rows + [added], (r: CriteriaRow) => r.id != gone.id)
  }

  lemma SwappedDistinct(rows: seq<CriteriaRow>, gone: CriteriaRow, added: CriteriaRow)
    requires DistinctIds(rows) && added.id == NextId(rows)
    ensures DistinctIds(rows + [added]) && DistinctIds(Swapped(rows, gone, added))
  {
    KeepDistinct(rows + [added], (r: CriteriaRow) => r.id != gone.id);
  }

  lemma PromotedIs(entries: Entries, sid: string, newSid: string)
    requires sid in entries && sid != newSid
    ensures entries[newSid := Entry(entries[sid].alias, Active)] - {sid} == Promoted(entries, sid, newSid)
  {
  }

  /** The surrogate's entry has gone, a new active one with its alias has come, all others
      are as before. */
  predicate GaveWay(before: Entries, after: Entries, sid: string, newSid: string) {
    && sid in before && after.Keys == before.Keys - {sid} + {newSid}
    && after[newSid].status == Active && after[newSid].alias == before[sid].alias
    && forall x | x in before && x != sid && x != newSid :: after[x] == before[x]
  }

  /** So with the rows: this one gone, and an active one with the alias come. */
  ghost predicate RowGaveWay(before: seq<CriteriaRow>, after: seq<CriteriaRow>, gone: CriteriaRow, newSid: string,
                             documentId: string, alias: Option<string>, local: string) {
    exists id: nat ::
      && (forall r | r in before :: r.id != id)
      && forall r :: r in after <==>
           (r in before && r.id != gone.id) || r == CriteriaRow(id, Some(newSid), documentId, Active, alias, local)
  }

  lemma PromotedMeans(entries: Entries, sid: string, newSid: string)
    requires sid in entries
    ensures GaveWay(entries, Promoted(entries, sid, newSid), sid, newSid)
  {
  }

  lemma SwappedMeans(rows: seq<CriteriaRow>, gone: CriteriaRow, newSid: string, documentId: string, alias: Option<string>, local: string)
    requires gone in rows
    ensures RowGaveWay(rows, Swapped(rows, gone, PromotedRow(rows, newSid, documentId, alias, local)), gone, newSid, documentId, alias, local)
  {
    var added := PromotedRow(rows, newSid, documentId, alias, local);
    forall r ensures r in Swapped(rows, gone, added) <==> (r in rows && r.id != gone.id) || r == added {
      KeepMembers(rows + [added], (x: CriteriaRow) => x.id != gone.id, r);
    }
  }

  lemma DropAgrees(digest: string -> string, stored: seq<CloudDoc>, entries: Entries, rows: seq<CriteriaRow>, row: CriteriaRow, added: CriteriaRow)
    requires Agree(digest, stored, entries, rows + [added]) && DistinctIds(rows) && DistinctDocs(stored)
    requires row in rows && row.stableId.Some? && added.id == NextId(rows)
    ensures Agree(digest, DocsWithout(stored, row.documentId), entries - {row.stableId.value}, Swapped(rows, row, added))
  {
    SwappedDistinct(rows, row, added);
    assert row in rows + [added];
    DeleteAgrees(digest, stored, entries, rows + [added], row);
  }

  /** A surrogate replaced by a real criterion in all three stores. */
  lemma PromoteAgrees(digest: string -> string, docs: seq<CloudDoc>, stored: seq<CloudDoc>, entries: Entries,
                      rows: seq<CriteriaRow>, row: CriteriaRow, newSid: string, added: CriteriaRow)
    requires Agree(digest, docs, entries, rows) && DistinctIds(rows)
    requires row in rows && row.stableId.Some? && row.stableId.value in entries && row.stableId.value != newSid
    requires newSid != "" && !IsLegacy(newSid) && newSid !in Sids(digest, docs)
    requires DocStored(docs, stored, CloudDoc(added.documentId, Some(newSid))) && DistinctDocs(stored)
    requires added.id == NextId(rows) && added.stableId == Some(newSid)
    requires added.status == Active && added.alias == entries[row.stableId.value].alias
    ensures Agree(digest, DocsWithout(stored, row.documentId), Promoted(entries, row.stableId.value, newSid), Swapped(rows, row, added))
  {
    var more := entries[newSid := Entry(entries[row.stableId.value].alias, Active)];
    assert Agree(digest, stored, more, rows + [added]) by {
      UploadAgrees(digest, docs, stored, entries, rows, newSid, Entry(entries[row.stableId.value].alias, Active), added);
    }
    DropAgrees(digest, stored, more, rows, row, added);
    PromotedIs(entries, row.stableId.value, newSid);
  }

  /** One round of the loop below: look the row up, set its status. */
  method SyncOne(ghost rows: seq<CriteriaRow>, ghost done: Entries, current: seq<CriteriaRow>, sid: string, e: Entry)
    returns (next: Option<seq<CriteriaRow>>)
    requires DistinctIds(rows) && sid !in done && current == Refreshed(rows, done)
    ensures next.Some? ==> next.value == Refreshed(rows, done[sid := e])
  {
    var found := Having(current, sid);
    if |found| > 1 {
      return None;
    }
    if |found| == 1 {
      RefreshOne(rows, done, sid, e, found[0]);
      return Some(PutRow(current, found[0].(status := e.status)));
    }
    RefreshNone(rows, done, sid, e);
    return Some(current);
  }

  /** `_sync_criteria_db_cache_from_alias_entries`, up to the commit: each row gets the
      status of its entry; a stable id with two rows raises. */
  method SyncCache(rows: seq<CriteriaRow>, entries: Entries) returns (out: Option<seq<CriteriaRow>>)
    requires DistinctIds(rows)
    ensures out.Some? ==> out.value == Refreshed(rows, entries)
  {
    out := Some(rows);
    ghost var done: Entries := map[];
    var remaining := entries.Keys;
    while remaining != {}
      invariant out.Some? && out.value == Refreshed(rows, done)
      invariant done == map sid | sid in entries && sid !in remaining :: entries[sid]
      invariant remaining <= entries.Keys
      decreases |remaining|
    {
      var sid :| sid in remaining;
      out := SyncOne(rows, done, out.value, sid, entries[sid]);
      if out.None? {
        return;
      }
      done := done[sid := entries[sid]];
      remaining := remaining - {sid};
    }
    assert done == entries;
  }

  /** Every document is looked up to its stable id or surrogate, and nothing else is there. */
  predicate Identifies(digest: string -> string, docs: seq<CloudDoc>, ids: map<string, string>) {
    && (forall d | d in docs :: d.documentId in ids && ids[d.documentId] == Sid(digest, d))
    && ids.Values == Sids(digest, docs)
  }

  /** `stable_ids_by_document`. */
  method StableIds(digest: string -> string, docs: seq<CloudDoc>) returns (ids: map<string, string>)
    requires DistinctDocs(docs)
    ensures Identifies(digest, docs, ids)
  {
    ids := map[];
    for i := 0 to |docs|
      invariant forall d | d in docs[..i] :: d.documentId in ids && ids[d.documentId] == Sid(digest, d)
      invariant forall k | k in ids :: exists d | d in docs[..i] :: d.documentId == k
    {
      assert docs[..i + 1] == docs[..i] + [docs[i]];
      forall d | d in docs[..i] && d.documentId == docs[i].documentId ensures d == docs[i] {
        assert d in docs && docs[i] in docs;
      }
      ids := ids[docs[i].documentId := Sid(digest, docs[i])];
    }
    assert docs[..|docs|] == docs;
  }

  /** The entries to publish, built step by step: without the entries of missing
      documents, with active ones for documents without, surrogates demoted. */
  method Clean(ghost digest: string -> string, ids: map<string, string>, entries: Entries, docs: seq<CloudDoc>)
    returns (cleaned: Entries)
    requires Identifies(digest, docs, ids)
    ensures cleaned == Reconciled(digest, entries, docs)
  {
    var valid := ids.Values;
    cleaned := map sid | sid in entries && sid in valid :: entries[sid];
    for i := 0 to |docs|
      invariant forall sid | sid in cleaned :: sid in Sids(digest, docs) && cleaned[sid] == Known(sid, entries)
      invariant forall d | d in docs[..i] :: Sid(digest, d) in cleaned
      invariant forall sid | sid in entries && sid in Sids(digest, docs) :: sid in cleaned
    {
      assert docs[..i + 1] == docs[..i] + [docs[i]];
      assert docs[i] in docs;
      var sid := ids[docs[i].documentId];
      if sid !in cleaned {
        cleaned := cleaned[sid := Entry(None, Active)];
      }
    }
    assert docs[..|docs|] == docs;
    cleaned := map sid | sid in cleaned :: Demoted(sid, cleaned[sid]);
  }

  /** The table after the deletes and the first `n` upserts. */
  ghost predicate CutOff(digest: string -> string, before: seq<CriteriaRow>, after: seq<CriteriaRow>, docs: seq<CloudDoc>, cleaned: Entries, n: nat) {
    && n <= |docs| && (forall d | d in docs :: Sid(digest, d) in cleaned)
    && after == Upserted(digest, Survivors(before, Sids(digest, docs)), docs[..n], cleaned)
  }

  lemma CutOffFixed(digest: string -> string, docs: seq<CloudDoc>, entries: Entries, before: seq<CriteriaRow>, after: seq<CriteriaRow>, n: nat)
    requires Agree(digest, docs, entries, before) && CutOff(digest, before, after, docs, entries, n)
    ensures after == before
  {
    AgreeIsFixed(digest, docs, entries, before, n);
  }

  /** What a completed reconcile has made of the alias map and the table. */
  ghost predicate Completes(digest: string -> string, docs: seq<CloudDoc>, mapBefore: Fetched, rowsBefore: seq<CriteriaRow>,
                            mapAfter: Fetched, rowsAfter: seq<CriteriaRow>) {
    && mapBefore.Ok? && mapAfter.Ok?
    && EntriesOf(mapAfter.value) == Reconciled(digest, EntriesOf(mapBefore.value), docs)
    && (forall d | d in docs :: Sid(digest, d) in EntriesOf(mapAfter.value))
    && rowsAfter == Rebuilt(digest, rowsBefore, docs, EntriesOf(mapAfter.value))
  }

  class CriteriaAdmin {
    const digest: string -> string
    const key: string
    const store: AliasStore
    var docs: seq<CloudDoc>
    var rows: seq<CriteriaRow>
    var sync: SyncState
    var storedKey: Option<string>
    var storedTime: Option<int>
    var migrated: bool
    var clock: int

    /** What holds of the stores by themselves. */
    ghost predicate Valid()
      reads this, store
    {
      && DistinctNames(store.docs) && NoneLater(store.docs, clock)
      && DistinctDocs(docs) && DistinctSids(digest, docs) && DistinctIds(rows)
    }

    /** The three stores agree. */
    ghost predicate Synced()
      reads this, store
    {
      Effective(store.docs).Ok? && Agree(digest, docs, EntriesOf(Effective(store.docs).value), rows)
    }

    /** A state of `ok` under the current key is never a lie. */
    ghost predicate Inv()
      reads this, store
    {
      Valid() && (sync == SyncOk && storedKey == Some(key) ==> Synced())
    }

    ghost function Stores(): View
      reads this, store
    {
      View(docs, Effective(store.docs), rows)
    }

    constructor (digest: string -> string, key: string, store: AliasStore, docs: seq<CloudDoc>, rows: seq<CriteriaRow>,
                 storedKey: Option<string>, clock: int)
      requires DistinctNames(store.docs) && NoneLater(store.docs, clock)
      requires DistinctDocs(docs) && DistinctSids(digest, docs) && DistinctIds(rows)
      ensures Inv() && sync == Unsynced
      ensures this.digest == digest && this.key == key && this.store == store && this.docs == docs && this.rows == rows
    {
      this.digest, this.key, this.store := digest, key, store;
      this.docs, this.rows, this.storedKey, this.clock := docs, rows, storedKey, clock;
      sync, storedTime, migrated := Unsynced, None, false;
    }

    // ------------------------------------------------------------ single calls

    method Now() returns (t: int)
      modifies this`clock
      ensures old(clock) < t == clock
    {
      clock := clock + 1;
      t := clock;
    }

    method MarkNeedsResync()
      modifies this`sync
      ensures sync == NeedsResync
    {
      sync := NeedsResync;
    }

    method Fetch() returns (r: Fetched)
      requires DistinctNames(store.docs)
      modifies store
      ensures r == Effective(old(store.docs)) || r == Err(CallFailed)
      ensures r.Err? ==> store.docs == old(store.docs)
      ensures Effective(store.docs) == Effective(old(store.docs))
      ensures DistinctNames(store.docs)
      ensures forall t | NoneLater(old(store.docs), t) :: NoneLater(store.docs, t)
    {
      r := store.Fetch();
      if r.Ok? {
        FetchAgain(old(store.docs), store.docs);
      }
    }

    method Publish(time: int, entries: Entries, found: Option<AliasDoc>) returns (published: bool)
      requires DistinctNames(store.docs) && Effective(store.docs) == Ok(found) && NoneLater(store.docs, time - 1)
      modifies store
      ensures Effective(store.docs) == Ok(found) || Stands(store.docs, time, entries)
      ensures published ==> Stands(store.docs, time, entries)
      ensures DistinctNames(store.docs) && NoneLater(store.docs, time)
    {
      var name := store.Replace(time, entries, NameOf(found));
      published := name.Some?;
    }

    method StoreDocument(d: CloudDoc) returns (stored: bool)
      requires DistinctDocs(docs) && DistinctSids(digest, docs)
      requires Sid(digest, d) !in Sids(digest, docs) && forall x | x in docs :: x.documentId != d.documentId
      modifies this`docs
      ensures docs == old(docs) || DocStored(old(docs), docs, d)
      ensures stored ==> DocStored(old(docs), docs, d)
      ensures DistinctDocs(docs) && DistinctSids(digest, docs)
    {
      stored := false;
      if * {
        var at: nat :| at <= |docs|;
        ghost var before := docs;
        docs := docs[..at] + [d] + docs[at..];
        assert DocStored(before, docs, d);
        DocStoredMembers(before, docs, d);
        StoredDistinct(digest, before, docs, d);
        stored := *;
      }
    }

    method DropDocument(documentId: string) returns (dropped: bool)
      requires DistinctDocs(docs) && DistinctSids(digest, docs)
      modifies this`docs
      ensures docs == old(docs) || docs == DocsWithout(old(docs), documentId)
      ensures dropped ==> docs == DocsWithout(old(docs), documentId)
      ensures DistinctDocs(docs) && DistinctSids(digest, docs)
    {
      dropped := false;
      if * {
        forall d ensures d in DocsWithout(docs, documentId) ==> d in docs {
          DocsWithoutMembers(docs, documentId, d);
        }
        docs := DocsWithout(docs, documentId);
        dropped := *;
      }
    }

    method Commit(changed: seq<CriteriaRow>) returns (committed: bool)
      requires DistinctIds(rows) && DistinctIds(changed)
      modifies this`rows
      ensures rows == old(rows) || rows == changed
      ensures committed ==> rows == changed
      ensures DistinctIds(rows)
    {
      committed := false;
      if * {
        rows := changed;
        committed := *;
      }
    }

    // --------------------------------------------------------------- requests

    /** The upload endpoint. A refusal that left the state `ok` has changed nothing. */
    method UploadCriteria(sid: string, documentId: string, local: string) returns (reply: Reply)
      requires Inv() && FreshIds(digest, docs, sid, documentId)
      modifies this, store
      ensures Inv()
      ensures reply.Refused? && sync == SyncOk ==> Stores() == old(Stores())
      ensures reply.Done? ==>
                && DocStored(old(docs), docs, CloudDoc(documentId, Some(sid)))
                && old(Effective(store.docs)).Ok?
                && Stands(store.docs, clock, EntriesOf(old(Effective(store.docs)).value)[sid := Entry(None, Active)])
                && rows == old(rows) + [CriteriaRow(NextId(old(rows)), Some(sid), documentId, Active, None, local)]
    {
      if * {
        return Refused(503);
      }
      if * {
        return Refused(400);
      }
      var d := CloudDoc(documentId, Some(sid));
      var stored := StoreDocument(d);
      if !stored {
        MarkNeedsResync();
        return Refused(500);
      }
      var fetched := Fetch();
      if fetched.Err? {
        MarkNeedsResync();
        return Refused(if fetched.error.ParseFailed? then 503 else 500);
      }
      var time := Now();
      var entry := Entry(None, Active);
      var entries := EntriesOf(fetched.value);
      var published := Publish(time, entries[sid := entry], fetched.value);
      if !published {
        MarkNeedsResync();
        return Refused(500);
      }
      var row := CriteriaRow(NextId(rows), Some(sid), documentId, Active, None, local);
      var committed := Commit(rows + [row]);
      if !committed {
        MarkNeedsResync();
        return Refused(500);
      }
      if old(sync == SyncOk && storedKey == Some(key)) {
        UploadAgrees(digest, old(docs), docs, entries, old(rows), sid, entry, row);
      }
      reply := Done;
    }

    method DeleteCriteria(sid: string) returns (reply: Reply)
      requires Inv()
      modifies this, store
      ensures Inv()
      ensures reply.Refused? && sync == SyncOk ==> Stores() == old(Stores())
      ensures reply.Done? ==> exists row ::
                && row in old(rows) && row.stableId == Some(sid)
                && docs == DocsWithout(old(docs), row.documentId)
                && old(Effective(store.docs)).Ok? && old(Effective(store.docs)).value.Some?
                && Effective(store.docs).Ok?
                && EntriesOf(Effective(store.docs).value) == EntriesOf(old(Effective(store.docs)).value) - {sid}
                && rows == Keep(old(rows), (r: CriteriaRow) => r.id != row.id)
    {
      if * {
        return Refused(503);
      }
      var found := Having(rows, sid);
      if |found| > 1 {
        return Refused(500);
      }
      if found == [] {
        return Refused(404);
      }
      var row := found[0];
      HavingOne(rows, sid, row);
      var fetched := Fetch();
      if fetched.Err? {
        if fetched.error.CallFailed? {
          return Refused(500);
        }
        MarkNeedsResync();
        return Refused(503);
      }
      if fetched.value.None? {
        MarkNeedsResync();
        return Refused(409);
      }
      var dropped := DropDocument(row.documentId);
      if !dropped {
        MarkNeedsResync();
        return Refused(500);
      }
      var entries := EntriesOf(fetched.value);
      if sid in entries {
        var time := Now();
        var published := Publish(time, entries - {sid}, fetched.value);
        if !published {
          MarkNeedsResync();
          return Refused(500);
        }
      }
      assert EntriesOf(Effective(store.docs).value) == entries - {sid};
      KeepDistinct(rows, (r: CriteriaRow) => r.id != row.id);
      var committed := Commit(Keep(rows, (r: CriteriaRow) => r.id != row.id));
      if !committed {
        MarkNeedsResync();
        return Refused(500);
      }
      if old(sync == SyncOk && storedKey == Some(key)) {
        DeleteAgrees(digest, old(docs), entries, old(rows), row);
      }
      reply := Done;
    }

    /** The row, if there is one, gets the alias; two rows raise. */
    method CommitAlias(sid: string, alias: Option<string>) returns (renamed: bool)
      requires DistinctIds(rows)
      modifies this`rows
      ensures renamed ==> rows == Renamed(old(rows), sid, alias)
      ensures DistinctIds(rows)
    {
      var found := Having(rows, sid);
      if |found| > 1 {
        return false;
      }
      if found == [] {
        HavingNone(rows, sid);
        RenamedNone(rows, sid, alias);
        return true;
      }
      RenamedOne(rows, sid, alias, found[0]);
      renamed := Commit(PutRow(rows, found[0].(alias := alias)));
    }

    method PatchAlias(sid: string, alias: Option<string>) returns (reply: Reply)
      requires Inv()
      modifies this, store
      ensures Inv()
      ensures reply.Refused? && sync == SyncOk ==> Stores() == old(Stores())
      ensures reply.Done? ==>
                && docs == old(docs)
                && old(Effective(store.docs)).Ok? && sid in EntriesOf(old(Effective(store.docs)).value)
                && Stands(store.docs, clock, WithAlias(EntriesOf(old(Effective(store.docs)).value), sid, alias))
                && rows == Renamed(old(rows), sid, alias)
                && AliasSet(EntriesOf(old(Effective(store.docs)).value), EntriesOf(Effective(store.docs).value), sid, alias)
                && AliasShown(old(rows), rows, sid, alias)
    {
      if * {
        return Refused(503);
      }
      var fetched := Fetch();
      if fetched.Err? {
        if fetched.error.CallFailed? {
          return Refused(500);
        }
        MarkNeedsResync();
        return Refused(503);
      }
      if fetched.value.None? {
        MarkNeedsResync();
        return Refused(409);
      }
      var entries := EntriesOf(fetched.value);
      if sid !in entries {
        return Refused(404);
      }
      var time := Now();
      var published := Publish(time, WithAlias(entries, sid, alias), fetched.value);
      if !published {
        MarkNeedsResync();
        return Refused(500);
      }
      var renamed := CommitAlias(sid, alias);
      if !renamed {
        MarkNeedsResync();
        return Refused(500);
      }
      if old(sync == SyncOk && storedKey == Some(key)) {
        AliasAgrees(digest, docs, entries, old(rows), sid, alias);
      }
      AliasStored(entries, old(rows), sid, alias);
      reply := Done;
    }

    /** `_recover_status_mutation_from_cloud`: the change may have reached the cloud all
        the same; if so only the table has to follow. */
    method RecoverStatus(sid: string, target: Status, time: int, expected: Entries) returns (recovered: bool)
      requires DistinctNames(store.docs) && DistinctIds(rows)
      modifies this`rows, store
      ensures rows == old(rows) || rows == Refreshed(old(rows), expected)
      ensures recovered ==> Stands(store.docs, time, expected) && rows == Refreshed(old(rows), expected)
      ensures Effective(store.docs) == Effective(old(store.docs))
      ensures DistinctNames(store.docs) && DistinctIds(rows)
      ensures forall t | NoneLater(old(store.docs), t) :: NoneLater(store.docs, t)
    {
      var fetched := Fetch();
      if fetched.Err? || fetched.value.None? {
        return false;
      }
      var doc := fetched.value.value;
      if !doc.Good? || doc.time != time || doc.entries != expected || sid !in doc.entries || doc.entries[sid].status != target {
        return false;
      }
      var refreshed := SyncCache(rows, doc.entries);
      if refreshed.None? {
        return false;
      }
      recovered := Commit(refreshed.value);
    }

    /** Publish the new status, change the table; whatever raises, look at the cloud again. */
    method ChangeStatus(found: Option<AliasDoc>, sid: string, target: Status) returns (reply: Reply)
      requires Inv() && Effective(store.docs) == Ok(found) && sid in EntriesOf(found)
      requires target == Active ==> !IsLegacy(sid)
      modifies this, store
      ensures Inv() && docs == old(docs)
      ensures reply.Refused? ==> sync == NeedsResync
      ensures reply.Done? ==>
                && Stands(store.docs, clock, WithStatus(EntriesOf(found), sid, target))
                && rows == Refreshed(old(rows), WithStatus(EntriesOf(found), sid, target))
                && StatusSet(EntriesOf(found), EntriesOf(Effective(store.docs).value), sid, target)
                && StatusShown(old(rows), rows, EntriesOf(Effective(store.docs).value), sid, target)
    {
      var time := Now();
      var changed := WithStatus(EntriesOf(found), sid, target);
      var published := Publish(time, changed, found);
      var done := false;
      if published {
        var refreshed := SyncCache(rows, changed);
        if refreshed.Some? {
          done := Commit(refreshed.value);
        }
      }
      RefreshedTwice(old(rows), changed);
      if !done {
        done := RecoverStatus(sid, target, time, changed);
      }
      if !done {
        MarkNeedsResync();
        return Refused(500);
      }
      if old(sync == SyncOk && storedKey == Some(key)) {
        StatusAgrees(digest, docs, EntriesOf(found), old(rows), sid, target);
      }
      StatusStored(EntriesOf(found), old(rows), sid, target);
      reply := Done;
    }

    /** The activate and deactivate endpoints. */
    method SetStatus(sid: string, target: Status) returns (reply: Reply)
      requires Inv() && target != Archived
      modifies this, store
      ensures Inv()
      ensures reply.Refused? && sync == SyncOk ==> Stores() == old(Stores())
      ensures reply.Done? ==>
                && docs == old(docs)
                && old(Effective(store.docs)).Ok? && sid in EntriesOf(old(Effective(store.docs)).value)
                && Stands(store.docs, clock, WithStatus(EntriesOf(old(Effective(store.docs)).value), sid, target))
                && rows == Refreshed(old(rows), WithStatus(EntriesOf(old(Effective(store.docs)).value), sid, target))
                && StatusSet(EntriesOf(old(Effective(store.docs)).value), EntriesOf(Effective(store.docs).value), sid, target)
                && StatusShown(old(rows), rows, EntriesOf(Effective(store.docs).value), sid, target)
    {
      if target == Active && IsLegacy(sid) {
        return Refused(400);
      }
      if * {
        return Refused(503);
      }
      var fetched := Fetch();
      if fetched.Err? {
        if fetched.error.CallFailed? {
          return Refused(500);
        }
        MarkNeedsResync();
        return Refused(503);
      }
      if fetched.value.None? {
        MarkNeedsResync();
        return Refused(409);
      }
      if sid !in EntriesOf(fetched.value) {
        return Refused(404);
      }
      reply := ChangeStatus(fetched.value, sid, target);
    }

    /** The four steps of `replace`: store the new document, publish the map, drop the
        old document, change the table. */
    method Promote(found: Option<AliasDoc>, row: CriteriaRow, sid: string, newSid: string, documentId: string, local: string)
      returns (reply: Reply, ghost stored: seq<CloudDoc>)
      requires Inv() && FreshIds(digest, docs, newSid, documentId) && IsLegacy(sid)
      requires Effective(store.docs) == Ok(found) && sid in EntriesOf(found)
      requires row in rows && row.stableId == Some(sid)
      modifies this, store
      ensures Inv()
      ensures reply.Refused? ==> sync == NeedsResync
      ensures reply.Done? ==>
                && DocStored(old(docs), stored, CloudDoc(documentId, Some(newSid)))
                && docs == DocsWithout(stored, row.documentId)
                && Stands(store.docs, clock, Promoted(EntriesOf(found), sid, newSid))
                && rows == Swapped(old(rows), row, PromotedRow(old(rows), newSid, documentId, EntriesOf(found)[sid].alias, local))
    {
      var entries := EntriesOf(found);
      var uploaded := StoreDocument(CloudDoc(documentId, Some(newSid)));
      stored := docs;
      if !uploaded {
        MarkNeedsResync();
        return Refused(500), stored;
      }
      var time := Now();
      var published := Publish(time, Promoted(entries, sid, newSid), found);
      if !published {
        MarkNeedsResync();
        return Refused(500), stored;
      }
      var dropped := DropDocument(row.documentId);
      if !dropped {
        MarkNeedsResync();
        return Refused(500), stored;
      }
      var added := PromotedRow(rows, newSid, documentId, entries[sid].alias, local);
      SwappedDistinct(rows, row, added);
      var committed := Commit(Swapped(rows, row, added));
      if !committed {
        MarkNeedsResync();
        return Refused(500), stored;
      }
      if old(sync == SyncOk && storedKey == Some(key)) {
        PromoteAgrees(digest, old(docs), stored, entries, old(rows), row, newSid, added);
      }
      reply := Done;
    }

    /** The replace endpoint: a surrogate criterion gives way to a real one. */
    method ReplaceLegacy(sid: string, newSid: string, documentId: string, local: string)
      returns (reply: Reply, ghost row: CriteriaRow, ghost stored: seq<CloudDoc>)
      requires Inv() && FreshIds(digest, docs, newSid, documentId)
      modifies this, store
      ensures Inv()
      ensures reply.Refused? && sync == SyncOk ==> Stores() == old(Stores())
      ensures reply.Done? ==>
                && IsLegacy(sid) && row in old(rows) && row.stableId == Some(sid)
                && DocStored(old(docs), stored, CloudDoc(documentId, Some(newSid)))
                && docs == DocsWithout(stored, row.documentId)
                && old(Effective(store.docs)).Ok? && sid in EntriesOf(old(Effective(store.docs)).value)
                && Stands(store.docs, clock, Promoted(EntriesOf(old(Effective(store.docs)).value), sid, newSid))
                && rows == Swapped(old(rows), row,
                     PromotedRow(old(rows), newSid, documentId, EntriesOf(old(Effective(store.docs)).value)[sid].alias, local))
                && GaveWay(EntriesOf(old(Effective(store.docs)).value), EntriesOf(Effective(store.docs).value), sid, newSid)
                && RowGaveWay(old(rows), rows, row, newSid, documentId, EntriesOf(old(Effective(store.docs)).value)[sid].alias, local)
    {
      row, stored := CriteriaRow(0, None, "", Active, None, ""), [];
      if !IsLegacy(sid) {
        return Refused(400), row, stored;
      }
      if * {
        return Refused(503), row, stored;
      }
      if * {
        return Refused(400), row, stored;
      }
      var fetched := Fetch();
      if fetched.Err? {
        if fetched.error.CallFailed? {
          return Refused(500), row, stored;
        }
        MarkNeedsResync();
        return Refused(503), row, stored;
      }
      if fetched.value.None? {
        MarkNeedsResync();
        return Refused(409), row, stored;
      }
      if sid !in EntriesOf(fetched.value) {
        return Refused(404), row, stored;
      }
      var found := Having(rows, sid);
      if |found| > 1 {
        return Refused(500), row, stored;
      }
      if found == [] {
        return Refused(404), row, stored;
      }
      HavingOne(rows, sid, found[0]);
      row := found[0];
      PromotedMeans(EntriesOf(fetched.value), sid, newSid);
      SwappedMeans(rows, row, newSid, documentId, EntriesOf(fetched.value)[sid].alias, local);
      reply, stored := Promote(fetched.value, found[0], sid, newSid, documentId, local);
    }

    // -------------------------------------------------------------- reconcile

    /** The rebuild of the table inside one transaction. It may raise before any document
        and then be rolled back or, when the transaction is the caller's, be committed as
        far as it got. */
    method Rebuild(ids: map<string, string>, cleaned: Entries, time: int) returns (committed: bool, ghost n: nat)
      requires Valid() && Identifies(digest, docs, ids) && forall d | d in docs :: Sid(digest, d) in cleaned
      modifies this`rows, `sync, `storedKey, `storedTime
      ensures DistinctIds(rows)
      ensures committed ==> rows == Rebuilt(digest, old(rows), docs, cleaned)
      ensures committed ==> sync == SyncOk && storedKey == Some(key) && storedTime == Some(time)
      ensures !committed ==> sync == old(sync) && storedKey == old(storedKey)
      ensures !committed ==> rows == old(rows) || CutOff(digest, old(rows), rows, docs, cleaned, n)
    {
      var current := Survivors(rows, ids.Values);
      SurvivorsDistinct(rows, Sids(digest, docs));
      n := 0;
      for i := 0 to |docs|
        invariant n == i && CutOff(digest, rows, current, docs, cleaned, n)
        invariant DistinctIds(current) && rows == old(rows)
        invariant sync == old(sync) && storedKey == old(storedKey)
      {
        assert docs[..i + 1][..i] == docs[..i];
        if * {
          if * {
            rows := current;
          }
          return false, n;
        }
        assert docs[i] in docs;
        var sid := ids[docs[i].documentId];
        UpsertDistinct(current, sid, docs[i].documentId, cleaned[sid]);
        current := Upsert(current, sid, docs[i].documentId, cleaned[sid]);
        n := n + 1;
      }
      assert docs[..|docs|] == docs;
      if * {
        if * {
          rows := current;
        }
        return false, n;
      }
      rows, sync, storedKey, storedTime := current, SyncOk, Some(key), Some(time);
      committed := true;
    }

    /** What the reconcile publishes, before the table is touched. */
    method PublishCleaned(ids: map<string, string>, found: Option<AliasDoc>) returns (published: bool, cleaned: Entries, time: int)
      requires Valid() && Effective(store.docs) == Ok(found) && Identifies(digest, docs, ids)
      modifies this`clock, store
      ensures Valid()
      ensures cleaned == Reconciled(digest, EntriesOf(found), docs)
      ensures published ==> Effective(store.docs).Ok? && EntriesOf(Effective(store.docs).value) == cleaned
      ensures cleaned == EntriesOf(found) ==> published && Effective(store.docs) == Ok(found)
    {
      var entries := EntriesOf(found);
      cleaned := Clean(digest, ids, entries, docs);
      time := Now();
      published := true;
      if cleaned != entries {
        published := Publish(time, cleaned, found);
      } else if found.Some? {
        time := found.value.time;
      }
    }

    /** The body of `reconcile` up to its `except`. */
    method Attempt(guard: Option<AliasDoc>) returns (committed: bool)
      requires Valid() && (guard.Some? ==> Effective(store.docs) == Ok(guard))
      modifies this, store
      ensures Valid() && docs == old(docs) && migrated == old(migrated)
      ensures committed ==> sync == SyncOk && storedKey == Some(key)
      ensures committed ==> Completes(digest, docs, old(Effective(store.docs)), old(rows), Effective(store.docs), rows)
      ensures !committed ==> sync == old(sync) && storedKey == old(storedKey)
      ensures !committed && old(Synced()) ==> Stores() == old(Stores())
    {
      if * {
        return false;
      }
      var ids := StableIds(digest, docs);
      var found := guard;
      if guard.None? {
        var fetched := Fetch();
        if fetched.Err? {
          return false;
        }
        found := fetched.value;
      }
      if old(Synced()) {
        AgreeReconciled(digest, docs, EntriesOf(found));
      }
      var published, cleaned, time := PublishCleaned(ids, found);
      if !published {
        return false;
      }
      ReconciledEntries(digest, EntriesOf(found), docs);
      ghost var n: nat;
      committed, n := Rebuild(ids, cleaned, time);
      if !committed && old(Synced()) && rows != old(rows) {
        CutOffFixed(digest, docs, cleaned, old(rows), rows, n);
      }
    }

    /** `reconcile`. A skip hides no difference; a completed run leaves agreement; a failure
        that leaves the state `ok` has changed nothing. */
    method Reconcile(swallowErrors: bool) returns (outcome: Outcome)
      requires Inv()
      modifies this, store
      ensures Inv() && docs == old(docs)
      ensures outcome.Skipped? ==> Synced() && Stores() == old(Stores())
      ensures outcome.Completed? ==> sync == SyncOk && storedKey == Some(key) && Synced()
      ensures outcome.Completed? ==> Completes(digest, docs, old(Effective(store.docs)), old(rows), Effective(store.docs), rows)
      ensures outcome.Failed? && sync == SyncOk && storedKey == Some(key) ==> Stores() == old(Stores())
    {
      if * {
        return Failed;
      }
      var keyChanged := storedKey != Some(key);
      var guard: Option<AliasDoc> := None;
      if !keyChanged && sync == SyncOk && migrated && storedTime.Some? {
        var fetched := Fetch();
        if fetched.Ok? && fetched.value.Some? {
          guard := fetched.value;
          if guard.value.time == storedTime.value {
            return Skipped;
          }
        }
      }
      if * {
        migrated := true;
      }
      var committed := Attempt(guard);
      if committed {
        ReconcileAgrees(digest, docs, EntriesOf(old(Effective(store.docs)).value), old(rows));
        return Completed;
      }
      outcome := Failed;
      if swallowErrors && !keyChanged {
        return;
      }
      if * {
        // The caller's transaction is rolled back after all, the marks with it.
        return;
      }
      sync := if keyChanged then SyncError else NeedsResync;
    }

    // ------------------------------------------------------------------- runs

    method Handle(r: Request)
      requires Inv() && (r.Upload? || r.Replace? ==> FreshIds(digest, docs, r.sid, r.documentId))
      requires r.SetTo? ==> r.status != Archived
      modifies this, store
      ensures Inv()
    {
      match r
      case Upload(sid, documentId, local) =>
        var reply := UploadCriteria(sid, documentId, local);
      case Delete(sid) =>
        var reply := DeleteCriteria(sid);
      case Replace(legacy, sid, documentId, local) =>
        var reply, row, stored := ReplaceLegacy(legacy, sid, documentId, local);
      case Alias(sid, alias) =>
        var reply := PatchAlias(sid, alias);
      case SetTo(sid, status) =>
        var reply := SetStatus(sid, status);
      case Resync(swallowErrors) =>
        var outcome := Reconcile(swallowErrors);
    }

    /** Every run of requests, with any call failing at any point, from any state that does
        not claim to be synchronised: wherever the run stops, `ok` under the current key
        means that the three stores agree. Requests whose ids are not fresh or whose status
        no endpoint sends do not occur. */
    method Serve(requests: seq<Request>)
      requires Inv()
      modifies this, store
      ensures Inv()
      ensures sync == SyncOk && storedKey == Some(key) ==> Synced()
    {
      for i := 0 to |requests|
        invariant Inv()
      {
        var r := requests[i];
        if (r.Upload? || r.Replace? ==> FreshIds(digest, docs, r.sid, r.documentId)) && (r.SetTo? ==> r.status != Archived) {
          Handle(r);
        }
      }
    }
  }
}
