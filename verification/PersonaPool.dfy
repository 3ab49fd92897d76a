/** Drawing simulated students from the pool: one from each level in turn, never the same
    one twice, whatever the random generator picks. */
module PersonaPool {
  import opened Wrappers

  datatype Level = High | Average | Low | Poor

  datatype Persona = Persona(id: nat, grade: nat, level: Level)

  datatype SampleError = EmptyBucket(level: Level)

  predicate DistinctIds(rows: seq<Persona>) {
    forall i, j | 0 <= i < j < |rows| :: rows[i].id != rows[j].id
  }

  /** The levels are drawn from in this order: one level, or all four shuffled. */
  predicate IsOrder(order: seq<Level>) {
    (|order| == 1 || |order| == 4) && forall i, j | 0 <= i < j < |order| :: order[i] != order[j]
  }

  predicate InGrade(p: Persona, grade: Option<nat>) { grade.Some? ==> p.grade == grade.value }

  /** The rows of one level and grade, in order. */
  function Bucket(rows: seq<Persona>, grade: Option<nat>, level: Level): seq<Persona> {
    if rows == [] then []
    else
      var n := |rows| - 1;
      var before := Bucket(rows[..n], grade, level);
      if InGrade(rows[n], grade) && rows[n].level == level then before + [rows[n]] else before
  }

  lemma {:induction false} BucketMembers(rows: seq<Persona>, grade: Option<nat>, level: Level, p: Persona)
    ensures p in Bucket(rows, grade, level) <==> p in rows && InGrade(p, grade) && p.level == level
  {
    if rows != [] {
      var n := |rows| - 1;
      assert rows == rows[..n] + [rows[n]];
      BucketMembers(rows[..n], grade, level, p);
    }
  }

  lemma {:induction false} BucketDistinct(rows: seq<Persona>, grade: Option<nat>, level: Level)
    requires DistinctIds(rows)
    ensures DistinctIds(Bucket(rows, grade, level))
  {
    if rows != [] {
      var n := |rows| - 1;
      BucketDistinct(rows[..n], grade, level);
      forall p | p in Bucket(rows[..n], grade, level) ensures p.id != rows[n].id {
        BucketMembers(rows[..n], grade, level, p);
      }
    }
  }

  /** How many of the first `n` draws fall to the `j`-th level of the order. */
  function Share(n: nat, levels: nat, j: nat): nat
    requires (levels == 1 || levels == 4) && j < levels
  {
    if levels == 1 then n else (n + 3 - j) / 4
  }

  lemma ShareStep(n: nat, levels: nat, j: nat)
    requires (levels == 1 || levels == 4) && j < levels
    ensures Share(n + 1, levels, j) == Share(n, levels, j) + (if j == n % levels then 1 else 0)
    ensures Share(0, levels, j) == 0
  {
  }

  lemma {:induction false} ShareGrows(i: nat, n: nat, levels: nat, j: nat)
    requires (levels == 1 || levels == 4) && j < levels && i <= n
    ensures Share(i, levels, j) <= Share(n, levels, j)
  {
  }

  function Drawn(picked: seq<Persona>, level: Level): nat {
    if picked == [] then 0
    else Drawn(picked[..|picked| - 1], level) + (if picked[|picked| - 1].level == level then 1 else 0)
  }

  /** Without the record at `k`, as `list.remove` leaves the list. */
  function Removed(bucket: seq<Persona>, k: nat): seq<Persona>
    requires k < |bucket|
  {
    bucket[..k] + bucket[k + 1..]
  }

  predicate Suits(pool: seq<Persona>, grade: Option<nat>, p: Persona) { p in pool && InGrade(p, grade) }

  /** What a bucket may still hold. */
  predicate BucketLeft(pool: seq<Persona>, grade: Option<nat>, picked: seq<Persona>, bucket: seq<Persona>, lv: Level) {
    DistinctIds(bucket) && forall p | p in bucket :: Suits(pool, grade, p) && p.level == lv && p !in picked
  }

  predicate PickedWell(pool: seq<Persona>, grade: Option<nat>, order: seq<Level>, picked: seq<Persona>) {
    DistinctIds(picked) && forall p | p in picked :: Suits(pool, grade, p) && p.level in order
  }

  predicate SharedOut(pool: seq<Persona>, grade: Option<nat>, order: seq<Level>, picked: seq<Persona>, bucket: seq<Persona>, j: nat)
    requires IsOrder(order) && j < |order|
  {
    && Drawn(picked, order[j]) == Share(|picked|, |order|, j)
    && |bucket| + Share(|picked|, |order|, j) == |Bucket(pool, grade, order[j])|
  }

  /** What the draws have left in the buckets. */
  ghost predicate Left(pool: seq<Persona>, grade: Option<nat>, order: seq<Level>, picked: seq<Persona>, buckets: map<Level, seq<Persona>>)
    requires IsOrder(order)
  {
    && (forall lv: Level :: lv in buckets && BucketLeft(pool, grade, picked, buckets[lv], lv))
    && PickedWell(pool, grade, order, picked)
    && (forall j | 0 <= j < |order| :: SharedOut(pool, grade, order, picked, buckets[order[j]], j))
  }

  lemma SameId(pool: seq<Persona>, p: Persona, q: Persona)
    requires DistinctIds(pool) && p in pool && q in pool && p.id == q.id
    ensures p == q
  {
    var i :| 0 <= i < |pool| && pool[i] == p;
    var j :| 0 <= j < |pool| && pool[j] == q;
  }

  lemma PickOne(pool: seq<Persona>, grade: Option<nat>, order: seq<Level>, picked: seq<Persona>, record: Persona)
    requires DistinctIds(pool) && PickedWell(pool, grade, order, picked)
    requires Suits(pool, grade, record) && record.level in order && record !in picked
    ensures PickedWell(pool, grade, order, picked + [record])
  {
    forall i | 0 <= i < |picked| ensures picked[i].id != record.id {
      assert picked[i] in picked;
      if picked[i].id == record.id {
        SameId(pool, picked[i], record);
      }
    }
  }

  lemma OtherBucket(pool: seq<Persona>, grade: Option<nat>, picked: seq<Persona>, bucket: seq<Persona>, lv: Level, record: Persona)
    requires BucketLeft(pool, grade, picked, bucket, lv) && record.level != lv
    ensures BucketLeft(pool, grade, picked + [record], bucket, lv)
  {
  }

  lemma SameBucket(pool: seq<Persona>, grade: Option<nat>, picked: seq<Persona>, bucket: seq<Persona>, lv: Level, k: nat)
    requires BucketLeft(pool, grade, picked, bucket, lv) && k < |bucket|
    ensures BucketLeft(pool, grade, picked + [bucket[k]], Removed(bucket, k), lv)
  {
    var rest := Removed(bucket, k);
    forall i | 0 <= i < |rest| ensures rest[i] in bucket && rest[i].id != bucket[k].id {
      assert rest[i] == bucket[if i < k then i else i + 1];
    }
  }

  lemma DrawnMore(picked: seq<Persona>, record: Persona, lv: Level)
    ensures Drawn(picked + [record], lv) == Drawn(picked, lv) + (if record.level == lv then 1 else 0)
  {
    assert (picked + [record])[..|picked|] == picked;
  }

  lemma DrawLeft(pool: seq<Persona>, grade: Option<nat>, order: seq<Level>, picked: seq<Persona>, buckets: map<Level, seq<Persona>>, k: nat)
    requires DistinctIds(pool) && IsOrder(order) && Left(pool, grade, order, picked, buckets)
    requires k < |buckets[order[|picked| % |order|]]|
    ensures var lv := order[|picked| % |order|];
      Left(pool, grade, order, picked + [buckets[lv][k]], buckets[lv := Removed(buckets[lv], k)])
  {
    var at := |picked| % |order|;
    var lv := order[at];
    var record := buckets[lv][k];
    var picked', buckets' := picked + [record], buckets[lv := Removed(buckets[lv], k)];
    assert record in buckets[lv];
    PickOne(pool, grade, order, picked, record);
    forall x: Level ensures x in buckets' && BucketLeft(pool, grade, picked', buckets'[x], x) {
      if x == lv {
        SameBucket(pool, grade, picked, buckets[lv], lv, k);
      } else {
        OtherBucket(pool, grade, picked, buckets[x], x, record);
      }
    }
    forall j | 0 <= j < |order| ensures SharedOut(pool, grade, order, picked', buckets'[order[j]], j) {
      ShareStep(|picked|, |order|, j);
      DrawnMore(picked, record, order[j]);
      assert SharedOut(pool, grade, order, picked, buckets[order[j]], j);
    }
  }

  /** The pool can serve every level its share. */
  predicate Enough(pool: seq<Persona>, grade: Option<nat>, order: seq<Level>, n: nat)
    requires IsOrder(order)
  {
    forall j | 0 <= j < |order| :: Share(n, |order|, j) <= |Bucket(pool, grade, order[j])|
  }

  /** `sample`, for any random choices: it completes exactly when every level has enough
      records for its share; then the records are distinct, from the pool, of the grade, and
      each level has its share, so that with all four no two counts differ by more than one. */
  method Sample(pool: seq<Persona>, grade: Option<nat>, order: seq<Level>, n: nat) returns (r: Result<seq<Persona>, SampleError>)
    requires DistinctIds(pool) && IsOrder(order)
    ensures r.Ok? <==> Enough(pool, grade, order, n)
    ensures r.Ok? ==>
              && |r.value| == n && DistinctIds(r.value)
              && (forall p | p in r.value :: p in pool && InGrade(p, grade) && p.level in order)
              && (forall j | 0 <= j < |order| :: Drawn(r.value, order[j]) == Share(n, |order|, j))
    ensures r.Ok? && |order| == 4 ==>
              forall j, k | 0 <= j < 4 && 0 <= k < 4 :: Drawn(r.value, order[j]) <= Drawn(r.value, order[k]) + 1
  {
    var buckets := map[High := Bucket(pool, grade, High), Average := Bucket(pool, grade, Average),
                       Low := Bucket(pool, grade, Low), Poor := Bucket(pool, grade, Poor)];
    var picked: seq<Persona> := [];
    forall lv: Level ensures lv in buckets && buckets[lv] == Bucket(pool, grade, lv) {
      match lv case High => case Average => case Low => case Poor =>
    }
    StartLeft(pool, grade, order, buckets);
    for i := 0 to n
      invariant |picked| == i && Left(pool, grade, order, picked, buckets)
    {
      var lv := order[i % |order|];
      if buckets[lv] == [] {
        ShareStep(i, |order|, i % |order|);
        ShareGrows(i + 1, n, |order|, i % |order|);
        return Err(EmptyBucket(lv));
      }
      var k: nat :| k < |buckets[lv]|;
      DrawLeft(pool, grade, order, picked, buckets, k);
      picked, buckets := picked + [buckets[lv][k]], buckets[lv := Removed(buckets[lv], k)];
    }
    r := Ok(picked);
    forall j, k | 0 <= j < |order| && 0 <= k < |order| ensures Drawn(picked, order[j]) <= Drawn(picked, order[k]) + 1 {
      assert SharedOut(pool, grade, order, picked, buckets[order[j]], j);
      assert SharedOut(pool, grade, order, picked, buckets[order[k]], k);
    }
  }

  lemma StartLeft(pool: seq<Persona>, grade: Option<nat>, order: seq<Level>, buckets: map<Level, seq<Persona>>)
    requires DistinctIds(pool) && IsOrder(order)
    requires forall lv: Level :: lv in buckets && buckets[lv] == Bucket(pool, grade, lv)
    ensures Left(pool, grade, order, [], buckets)
  {
    forall lv: Level ensures BucketLeft(pool, grade, [], buckets[lv], lv) {
      BucketDistinct(pool, grade, lv);
      forall p | p in buckets[lv] ensures Suits(pool, grade, p) && p.level == lv {
        BucketMembers(pool, grade, lv, p);
      }
    }
    forall j | 0 <= j < |order| ensures SharedOut(pool, grade, order, [], buckets[order[j]], j) {
      ShareStep(0, |order|, j);
    }
  }
}
