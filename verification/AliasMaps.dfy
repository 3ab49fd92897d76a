/** The alias map in the cloud store: a set of documents of which the newest valid one
    counts. Every cloud call may take effect or not, and then return or raise. */
module AliasMaps {
  import opened Wrappers

  datatype Status = Active | Uploaded | Archived

  datatype Entry = Entry(alias: Option<string>, status: Status)

  /** An alias-map document as the store lists it. One that does not parse may still
      show when it was written. */
  datatype AliasDoc =
    | Good(name: nat, time: int, entries: map<string, Entry>)
    | Bad(name: nat, known: Option<int>)

  datatype FetchError = ParseFailed(name: nat) | CallFailed

  type Fetched = Result<Option<AliasDoc>, FetchError>

  predicate DistinctNames(docs: seq<AliasDoc>) {
    forall i, j | 0 <= i < j < |docs| :: docs[i].name != docs[j].name
  }

  // ------------------------------------------------- the document that counts

  /** The newest document that parses, the first listed of equal age. */
  function Newest(docs: seq<AliasDoc>): (r: Option<AliasDoc>)
    ensures r.Some? ==> r.value.Good?
  {
    if docs == [] then None
    else
      var n := |docs| - 1;
      var best := Newest(docs[..n]);
      if docs[n].Good? && (best.None? || best.value.time < docs[n].time) then Some(docs[n]) else best
  }

  /** A document that does not parse and may be at least as new as time `t`. */
  predicate Doubtful(d: AliasDoc, t: int) { d.Bad? && (d.known.None? || d.known.value >= t) }

  function FirstDoubtful(docs: seq<AliasDoc>, t: int): Option<nat> {
    if docs == [] then None
    else
      var n := |docs| - 1;
      var before := FirstDoubtful(docs[..n], t);
      if before.None? && Doubtful(docs[n], t) then Some(docs[n].name) else before
  }

  /** What the stored documents stand for. */
  function Effective(docs: seq<AliasDoc>): (r: Fetched)
    ensures r.Ok? && r.value.Some? ==> r.value.value.Good?
  {
    if docs == [] then Ok(None)
    else
      var newest := Newest(docs);
      if newest.None? then Err(ParseFailed(docs[0].name))
      else
        var doubt := FirstDoubtful(docs, newest.value.time);
        if doubt.Some? then Err(ParseFailed(doubt.value)) else Ok(newest)
  }

  lemma {:induction false} NewestIs(docs: seq<AliasDoc>)
    ensures Newest(docs).None? <==> forall d | d in docs :: d.Bad?
    ensures Newest(docs).Some? ==>
              && Newest(docs).value in docs && Newest(docs).value.Good?
              && forall d | d in docs && d.Good? :: d.time <= Newest(docs).value.time
  {
    if docs != [] {
      var n := |docs| - 1;
      NewestIs(docs[..n]);
      assert docs == docs[..n] + [docs[n]];
      assert docs[n] in docs;
    }
  }

  lemma {:induction false} FirstDoubtfulIs(docs: seq<AliasDoc>, t: int)
    ensures FirstDoubtful(docs, t).None? <==> forall d | d in docs :: !Doubtful(d, t)
  {
    if docs != [] {
      var n := |docs| - 1;
      FirstDoubtfulIs(docs[..n], t);
      assert docs == docs[..n] + [docs[n]];
    }
  }

  /** The alias map is readable exactly when there is no document, or one that parses
      and is certainly newer than every document that does not. */
  lemma EffectiveIs(docs: seq<AliasDoc>)
    ensures Effective(docs).Ok? <==>
            docs == [] || (Newest(docs).Some? && forall d | d in docs :: !Doubtful(d, Newest(docs).value.time))
    ensures Effective(docs) == Ok(None) <==> docs == []
    ensures Effective(docs).Ok? && docs != [] ==> Effective(docs) == Ok(Newest(docs))
  {
    NewestIs(docs);
    if Newest(docs).Some? {
      FirstDoubtfulIs(docs, Newest(docs).value.time);
    }
  }

  // ---------------------------------------------------------------- deleting

  /** The store without the documents of these names. */
  function Without(docs: seq<AliasDoc>, gone: set<nat>): seq<AliasDoc> {
    if docs == [] then []
    else
      var n := |docs| - 1;
      if docs[n].name in gone then Without(docs[..n], gone) else Without(docs[..n], gone) + [docs[n]]
  }

  lemma {:induction false} WithoutMembers(docs: seq<AliasDoc>, gone: set<nat>, d: AliasDoc)
    ensures d in Without(docs, gone) <==> d in docs && d.name !in gone
  {
    if docs != [] {
      var n := |docs| - 1;
      WithoutMembers(docs[..n], gone, d);
      assert docs == docs[..n] + [docs[n]];
    }
  }

  lemma {:induction false} WithoutNames(docs: seq<AliasDoc>, gone: set<nat>)
    requires DistinctNames(docs)
    ensures DistinctNames(Without(docs, gone))
  {
    if docs != [] {
      var n := |docs| - 1;
      WithoutNames(docs[..n], gone);
      var rest := Without(docs[..n], gone);
      forall k | 0 <= k < |rest| ensures rest[k].name != docs[n].name {
        WithoutMembers(docs[..n], gone, rest[k]);
        var i :| 0 <= i < n && docs[..n][i] == rest[k];
      }
    }
  }

  lemma {:induction false} WithoutTwice(docs: seq<AliasDoc>, gone: set<nat>, more: set<nat>)
    ensures Without(Without(docs, gone), more) == Without(docs, gone + more)
  {
    if docs != [] {
      var n := |docs| - 1;
      WithoutTwice(docs[..n], gone, more);
      var rest := Without(docs[..n], gone);
      if docs[n].name !in gone {
        assert (rest + [docs[n]])[..|rest|] == rest;
      }
    }
  }

  lemma {:induction false} NothingGone(docs: seq<AliasDoc>)
    ensures Without(docs, {}) == docs
  {
    if docs != [] {
      NothingGone(docs[..|docs| - 1]);
    }
  }

  lemma {:induction false} NewestWithout(docs: seq<AliasDoc>, gone: set<nat>)
    requires Newest(docs).Some? && Newest(docs).value.name !in gone
    ensures Newest(Without(docs, gone)) == Newest(docs)
  {
    var n := |docs| - 1;
    var rest := Without(docs[..n], gone);
    NewestIs(docs[..n]);
    if Newest(docs) == Newest(docs[..n]) {
      NewestWithout(docs[..n], gone);
    } else {
      NewestIs(rest);
      if Newest(rest).Some? {
        WithoutMembers(docs[..n], gone, Newest(rest).value);
      }
    }
    assert (rest + [docs[n]])[..|rest|] == rest;
  }

  /** Deleting any documents but the one that counts changes nothing. */
  lemma EffectiveWithout(docs: seq<AliasDoc>, gone: set<nat>)
    requires Effective(docs).Ok?
    requires Effective(docs).value.Some? ==> Effective(docs).value.value.name !in gone
    ensures Effective(Without(docs, gone)) == Effective(docs)
  {
    EffectiveIs(docs);
    if docs != [] {
      NewestWithout(docs, gone);
      var rest, newest := Without(docs, gone), Newest(docs).value;
      forall d | d in rest ensures !Doubtful(d, newest.time) {
        WithoutMembers(docs, gone, d);
      }
      NewestIs(rest);
      EffectiveIs(rest);
    }
  }

  // --------------------------------------------------------------- uploading

  /** No valid document was written after `t`. */
  predicate NoneLater(docs: seq<AliasDoc>, t: int) {
    forall d | d in docs && d.Good? :: d.time <= t
  }

  lemma NewestInserted(docs: seq<AliasDoc>, at: nat, d: AliasDoc)
    requires at <= |docs| && d.Good? && NoneLater(docs, d.time - 1)
    ensures Newest(docs[..at] + [d] + docs[at..]) == Some(d)
  {
    var all := docs[..at] + [d] + docs[at..];
    NewestIs(all);
    assert d in all;
    assert forall x | x in all :: x in docs || x == d;
  }

  /** A strictly newer document counts from the moment it is stored, wherever it is
      listed. */
  lemma EffectiveInserted(docs: seq<AliasDoc>, at: nat, d: AliasDoc)
    requires Effective(docs).Ok? && at <= |docs| && d.Good? && NoneLater(docs, d.time - 1)
    ensures Effective(docs[..at] + [d] + docs[at..]) == Ok(Some(d))
  {
    var all := docs[..at] + [d] + docs[at..];
    EffectiveIs(docs);
    NewestIs(docs);
    NewestInserted(docs, at, d);
    forall x | x in all ensures !Doubtful(x, d.time) {
      assert x in docs || x == d;
    }
    EffectiveIs(all);
  }

  lemma InsertedNames(docs: seq<AliasDoc>, at: nat, d: AliasDoc)
    requires DistinctNames(docs) && at <= |docs| && forall x | x in docs :: x.name != d.name
    ensures DistinctNames(docs[..at] + [d] + docs[at..])
  {
  }

  function FreeName(docs: seq<AliasDoc>): (name: nat)
    ensures forall d | d in docs :: d.name < name
  {
    if docs == [] then 0
    else
      var n := |docs| - 1;
      assert docs == docs[..n] + [docs[n]];
      var free := FreeName(docs[..n]);
      if docs[n].name < free then free else docs[n].name + 1
  }

  // ----------------------------------------------------------------- sorting

  predicate NewestFirst(docs: seq<AliasDoc>) {
    (forall d | d in docs :: d.Good?)
    && forall i, j | 0 <= i < j < |docs| :: docs[i].Good? && docs[j].Good? && docs[j].time <= docs[i].time
  }

  /** Into its place, after those of the same age. */
  function Place(sorted: seq<AliasDoc>, d: AliasDoc): seq<AliasDoc>
    requires d.Good? && forall x | x in sorted :: x.Good?
  {
    if sorted == [] then [d]
    else if sorted[0].time < d.time then [d] + sorted
    else [sorted[0]] + Place(sorted[1..], d)
  }

  lemma {:induction false} PlaceKeeps(sorted: seq<AliasDoc>, d: AliasDoc)
    requires d.Good? && forall x | x in sorted :: x.Good?
    ensures |Place(sorted, d)| == |sorted| + 1
    ensures multiset(Place(sorted, d)) == multiset(sorted) + multiset{d}
    ensures Place(sorted, d)[0] == if sorted == [] || sorted[0].time < d.time then d else sorted[0]
  {
    if sorted != [] && sorted[0].time >= d.time {
      assert sorted == [sorted[0]] + sorted[1..];
      PlaceKeeps(sorted[1..], d);
    }
  }

  lemma PlaceMembers(sorted: seq<AliasDoc>, d: AliasDoc, x: AliasDoc)
    requires d.Good? && forall x | x in sorted :: x.Good?
    ensures x in Place(sorted, d) <==> x in sorted || x == d
  {
    PlaceKeeps(sorted, d);
    assert x in Place(sorted, d) <==> x in multiset(Place(sorted, d));
    assert x in sorted <==> x in multiset(sorted);
  }

  lemma {:induction false} Placed(sorted: seq<AliasDoc>, d: AliasDoc)
    requires NewestFirst(sorted) && d.Good?
    requires DistinctNames(sorted) && forall x | x in sorted :: x.name != d.name
    ensures NewestFirst(Place(sorted, d)) && DistinctNames(Place(sorted, d))
  {
    if sorted != [] && sorted[0].time >= d.time {
      Placed(sorted[1..], d);
      var rest := Place(sorted[1..], d);
      forall x | x in rest ensures x.Good? && x.time <= sorted[0].time && x.name != sorted[0].name {
        PlaceMembers(sorted[1..], d, x);
      }
    }
  }

  /** The valid documents in listing order. */
  function Valids(docs: seq<AliasDoc>): seq<AliasDoc> {
    if docs == [] then []
    else
      var n := |docs| - 1;
      if docs[n].Good? then Valids(docs[..n]) + [docs[n]] else Valids(docs[..n])
  }

  /** The documents that do not parse, in listing order. */
  function Bads(docs: seq<AliasDoc>): seq<AliasDoc> {
    if docs == [] then []
    else
      var n := |docs| - 1;
      if docs[n].Bad? then Bads(docs[..n]) + [docs[n]] else Bads(docs[..n])
  }

  lemma {:induction false} ValidsMembers(docs: seq<AliasDoc>, d: AliasDoc)
    ensures d in Valids(docs) <==> d in docs && d.Good?
    ensures d in Bads(docs) <==> d in docs && d.Bad?
  {
    if docs != [] {
      var n := |docs| - 1;
      assert docs == docs[..n] + [docs[n]];
      ValidsMembers(docs[..n], d);
    }
  }

  lemma {:induction false} ValidsNames(docs: seq<AliasDoc>)
    requires DistinctNames(docs)
    ensures DistinctNames(Valids(docs))
  {
    if docs != [] {
      var n := |docs| - 1;
      ValidsNames(docs[..n]);
      forall d | d in Valids(docs[..n]) ensures d.name != docs[n].name {
        ValidsMembers(docs[..n], d);
      }
    }
  }

  lemma {:induction false} NewestOfValids(docs: seq<AliasDoc>)
    ensures Newest(Valids(docs)) == Newest(docs)
  {
    if docs != [] {
      var n := |docs| - 1;
      NewestOfValids(docs[..n]);
      var v := Valids(docs[..n]);
      if docs[n].Good? {
        assert (v + [docs[n]])[..|v|] == v;
      }
    }
  }

  lemma {:induction false} DoubtOfBads(docs: seq<AliasDoc>, t: int)
    ensures FirstDoubtful(Bads(docs), t) == FirstDoubtful(docs, t)
  {
    if docs != [] {
      var n := |docs| - 1;
      DoubtOfBads(docs[..n], t);
      var b := Bads(docs[..n]);
      if docs[n].Bad? {
        assert (b + [docs[n]])[..|b|] == b;
      }
    }
  }

  lemma {:induction false} AllBad(docs: seq<AliasDoc>)
    requires Valids(docs) == []
    ensures Bads(docs) == docs
  {
    if docs != [] {
      var n := |docs| - 1;
      AllBad(docs[..n]);
      assert docs == docs[..n] + [docs[n]];
    }
  }

  /** The same documents, newest first, led by the one that counts. */
  ghost predicate SortOf(sorted: seq<AliasDoc>, docs: seq<AliasDoc>) {
    && NewestFirst(sorted) && DistinctNames(sorted)
    && multiset(sorted) == multiset(docs)
    && Newest(docs) == (if sorted == [] then None else Some(sorted[0]))
  }

  lemma SortStep(sorted: seq<AliasDoc>, docs: seq<AliasDoc>, d: AliasDoc)
    requires SortOf(sorted, docs) && d.Good? && forall x | x in docs :: x.name != d.name
    ensures SortOf(Place(sorted, d), docs + [d])
  {
    forall x | x in sorted ensures x.name != d.name {
      assert x in multiset(docs);
    }
    Placed(sorted, d);
    PlaceKeeps(sorted, d);
    assert (docs + [d])[..|docs|] == docs;
  }

  /** The stable sort: the first of the result is the document that counts. */
  method SortNewestFirst(docs: seq<AliasDoc>) returns (sorted: seq<AliasDoc>)
    requires DistinctNames(docs) && forall d | d in docs :: d.Good?
    ensures SortOf(sorted, docs)
  {
    sorted := [];
    for i := 0 to |docs|
      invariant SortOf(sorted, docs[..i])
    {
      assert docs[..i + 1] == docs[..i] + [docs[i]];
      SortStep(sorted, docs[..i], docs[i]);
      sorted := Place(sorted, docs[i]);
    }
    assert docs[..|docs|] == docs;
  }

  // ----------------------------------------------------------------- service

  /** The first document that may be as new as `t`. */
  method FindDoubtful(docs: seq<AliasDoc>, t: int) returns (doubt: Option<nat>)
    ensures doubt == FirstDoubtful(docs, t)
  {
    doubt := None;
    for i := 0 to |docs|
      invariant doubt == FirstDoubtful(docs[..i], t)
    {
      assert docs[..i + 1][..i] == docs[..i];
      if doubt.None? && docs[i].Bad? && (docs[i].known.None? || docs[i].known.value >= t) {
        doubt := Some(docs[i].name);
      }
    }
    assert docs[..|docs|] == docs;
  }

  /** The two lists `fetch` sorts the listing into. */
  method Split(docs: seq<AliasDoc>) returns (parsed: seq<AliasDoc>, unparseable: seq<AliasDoc>)
    ensures parsed == Valids(docs) && unparseable == Bads(docs)
  {
    parsed, unparseable := [], [];
    for i := 0 to |docs|
      invariant parsed == Valids(docs[..i]) && unparseable == Bads(docs[..i])
    {
      assert docs[..i + 1][..i] == docs[..i];
      if docs[i].Good? {
        parsed := parsed + [docs[i]];
      } else {
        unparseable := unparseable + [docs[i]];
      }
    }
    assert docs[..|docs|] == docs;
  }

  /** A document `fetch` may delete once it has found the one that counts. */
  predicate Stale(d: AliasDoc, newest: AliasDoc)
    requires newest.Good?
  {
    if d.Good? then d.name != newest.name && d.time <= newest.time
    else d.known.Some? && d.known.value < newest.time
  }

  /** Only stale documents have gone. */
  ghost predicate Cleaned(before: seq<AliasDoc>, after: seq<AliasDoc>, found: Option<AliasDoc>) {
    exists gone: set<nat> :: CleanedBy(before, after, found, gone)
  }

  predicate CleanedBy(before: seq<AliasDoc>, after: seq<AliasDoc>, found: Option<AliasDoc>, gone: set<nat>) {
    && after == Without(before, gone)
    && (found.None? ==> gone == {})
    && (found.Some? ==> found.value.Good? && found.value.name !in gone
                        && forall d | d in before && d.name in gone :: Stale(d, found.value))
  }

  /** The new document was stored, anywhere in the listing, under a name of its own. */
  ghost predicate Stored(before: seq<AliasDoc>, after: seq<AliasDoc>, d: AliasDoc) {
    exists at: nat :: Inserts(before, after, at, d)
  }

  predicate Inserts(before: seq<AliasDoc>, after: seq<AliasDoc>, at: nat, d: AliasDoc) {
    at <= |before| && after == before[..at] + [d] + before[at..] && forall x | x in before :: x.name != d.name
  }

  /** The alias map now stands at `time` with these entries. */
  predicate Stands(docs: seq<AliasDoc>, time: int, entries: map<string, Entry>) {
    var e := Effective(docs);
    e.Ok? && e.value.Some? && e.value.value.Good? && e.value.value.time == time && e.value.value.entries == entries
  }

  class AliasStore {
    var docs: seq<AliasDoc>

    constructor (docs: seq<AliasDoc>)
      ensures this.docs == docs
    {
      this.docs := docs;
    }

    /** One delete call: the document may be gone whether or not the call returned. */
    method Delete(name: nat) returns (returned: bool)
      modifies this
      ensures docs == old(docs) || docs == Without(old(docs), {name})
      ensures returned ==> docs == Without(old(docs), {name})
    {
      returned := false;
      if * {
        docs := Without(docs, {name});
        returned := *;
      }
    }

    /** One upload call, waited for: the document may be stored whether or not the
        caller learns of it. */
    method Upload(time: int, entries: map<string, Entry>) returns (name: Option<nat>)
      requires DistinctNames(docs)
      modifies this
      ensures docs == old(docs) || exists d: AliasDoc ::
                d == Good(d.name, time, entries) && Stored(old(docs), docs, d)
      ensures name.Some? ==> Stored(old(docs), docs, Good(name.value, time, entries))
    {
      name := None;
      if * {
        var d := Good(FreeName(docs), time, entries);
        var at: nat :| at <= |docs|;
        assert Inserts(docs, docs[..at] + [d] + docs[at..], at, d);
        docs := docs[..at] + [d] + docs[at..];
        if * {
          name := Some(d.name);
        }
      }
    }

    /** The best-effort deletes at the end of `fetch`. */
    method CleanUp(newest: AliasDoc, names: seq<nat>)
      requires Effective(docs) == Ok(Some(newest)) && newest.Good?
      requires forall k | 0 <= k < |names| :: names[k] != newest.name
      requires forall d | d in docs && d.name in names :: Stale(d, newest)
      modifies this
      ensures Cleaned(old(docs), docs, Some(newest))
    {
      ghost var gone: set<nat> := {};
      NothingGone(docs);
      for i := 0 to |names|
        invariant docs == Without(old(docs), gone) && newest.name !in gone
        invariant forall name | name in gone :: name in names
      {
        ghost var before := docs;
        var returned := Delete(names[i]);
        WithoutTwice(old(docs), gone, {names[i]});
        gone := if docs == before then gone else gone + {names[i]};
      }
      assert CleanedBy(old(docs), docs, Some(newest), gone);
    }

    /** `fetch`: the newest document that parses, unless another may be newer. */
    method Fetch() returns (r: Fetched)
      requires DistinctNames(docs)
      modifies this
      ensures r == Effective(old(docs)) || r == Err(CallFailed)
      ensures r.Err? ==> docs == old(docs)
      ensures r.Ok? ==> Cleaned(old(docs), docs, r.value)
    {
      if * {
        return Err(CallFailed);
      }
      assert CleanedBy(docs, docs, None, {}) by { NothingGone(docs); }
      if docs == [] {
        return Ok(None);
      }
      var parsed, unparseable := Split(docs);
      NewestOfValids(docs);
      NewestIs(docs);
      if parsed == [] {
        AllBad(docs);
        return Err(ParseFailed(unparseable[0].name));
      }
      ValidsNames(docs);
      forall d | d in parsed ensures d.Good? { ValidsMembers(docs, d); }
      var sorted := SortNewestFirst(parsed);
      var newest := sorted[0];
      var doubt := FindDoubtful(unparseable, newest.time);
      DoubtOfBads(docs, newest.time);
      if doubt.Some? {
        return Err(ParseFailed(doubt.value));
      }
      forall d | d in sorted || d in unparseable ensures d in docs && (d in unparseable ==> d.Bad?) {
        assert d in sorted <==> d in multiset(parsed);
        ValidsMembers(docs, d);
      }
      var names := StaleNames(docs, sorted, unparseable);
      CleanUp(newest, names);
      r := Ok(Some(newest));
    }

    /** `replace`: upload first, and only then delete the old document. */
    method Replace(time: int, entries: map<string, Entry>, oldName: Option<nat>) returns (name: Option<nat>)
      requires DistinctNames(docs) && Effective(docs).Ok? && NoneLater(docs, time - 1)
      requires oldName.Some? ==> Effective(docs).value.Some? && Effective(docs).value.value.name == oldName.value
      modifies this
      ensures Effective(docs) == Effective(old(docs)) || Stands(docs, time, entries)
      ensures name.Some? ==> Stands(docs, time, entries)
      ensures DistinctNames(docs) && NoneLater(docs, time)
    {
      if * {
        return None;
      }
      name := Upload(time, entries);
      if docs != old(docs) {
        ghost var d: AliasDoc :| d == Good(d.name, time, entries) && Stored(old(docs), docs, d);
        StoredStands(old(docs), docs, d);
      }
      if name.None? {
        return None;
      }
      ghost var d := Good(name.value, time, entries);
      StoredStands(old(docs), docs, d);
      if oldName.Some? {
        ghost var stored := docs;
        var returned := Delete(oldName.value);
        OldDeleted(old(docs), stored, d, oldName.value);
        if !returned {
          return None;
        }
      }
    }
  }

  /** The names to clean up: the older valid documents, then the older broken ones. */
  method StaleNames(ghost docs: seq<AliasDoc>, sorted: seq<AliasDoc>, unparseable: seq<AliasDoc>) returns (names: seq<nat>)
    requires DistinctNames(docs) && sorted != [] && NewestFirst(sorted) && DistinctNames(sorted)
    requires forall d | d in sorted || d in unparseable :: d in docs
    requires forall d | d in unparseable :: d.Bad?
    ensures forall k | 0 <= k < |names| :: names[k] != sorted[0].name
    ensures forall d | d in docs && d.name in names :: Stale(d, sorted[0])
  {
    var newest := sorted[0];
    names := [];
    for i := 1 to |sorted|
      invariant forall name | name in names :: exists d :: d in docs && d.name == name && Stale(d, newest)
      invariant forall k | 0 <= k < |names| :: names[k] != newest.name
    {
      names := names + [sorted[i].name];
    }
    for i := 0 to |unparseable|
      invariant forall name | name in names :: exists d :: d in docs && d.name == name && Stale(d, newest)
      invariant forall k | 0 <= k < |names| :: names[k] != newest.name
    {
      var bad := unparseable[i];
      if bad.known.Some? && bad.known.value < newest.time {
        names := names + [bad.name];
      }
    }
  }

  // ------------------------------------------------------------- never lost

  lemma NoneLaterWithout(docs: seq<AliasDoc>, gone: set<nat>, t: int)
    requires NoneLater(docs, t)
    ensures NoneLater(Without(docs, gone), t)
  {
    forall d | d in Without(docs, gone) && d.Good? ensures d.time <= t {
      WithoutMembers(docs, gone, d);
    }
  }

  lemma StoredStands(before: seq<AliasDoc>, after: seq<AliasDoc>, d: AliasDoc)
    requires DistinctNames(before) && Effective(before).Ok? && d.Good? && NoneLater(before, d.time - 1) && Stored(before, after, d)
    ensures Effective(after) == Ok(Some(d)) && DistinctNames(after)
    ensures NoneLater(after, d.time)
  {
    var at: nat :| Inserts(before, after, at, d);
    EffectiveInserted(before, at, d);
    InsertedNames(before, at, d);
    assert forall x | x in after :: x in before || x == d;
  }

  lemma OldDeleted(before: seq<AliasDoc>, after: seq<AliasDoc>, d: AliasDoc, name: nat)
    requires DistinctNames(before) && Effective(before).Ok? && d.Good? && NoneLater(before, d.time - 1) && Stored(before, after, d)
    requires Effective(before).value.Some? && Effective(before).value.value.name == name
    ensures Effective(Without(after, {name})) == Ok(Some(d)) && DistinctNames(Without(after, {name}))
    ensures NoneLater(Without(after, {name}), d.time)
  {
    StoredStands(before, after, d);
    EffectiveIs(before);
    NewestIs(before);
    EffectiveWithout(after, {name});
    WithoutNames(after, {name});
    NoneLaterWithout(after, {name}, d.time);
  }

  /** However far a clean-up got, fetching again finds the same document, and it is
      still there. */
  lemma FetchAgain(before: seq<AliasDoc>, after: seq<AliasDoc>)
    requires DistinctNames(before) && Effective(before).Ok? && Cleaned(before, after, Effective(before).value)
    ensures Effective(after) == Effective(before) && DistinctNames(after)
    ensures forall t | NoneLater(before, t) :: NoneLater(after, t)
  {
    var gone :| CleanedBy(before, after, Effective(before).value, gone);
    EffectiveWithout(before, gone);
    WithoutNames(before, gone);
    forall t | NoneLater(before, t) ensures NoneLater(after, t) {
      NoneLaterWithout(before, gone, t);
    }
  }
}
