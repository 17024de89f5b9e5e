/** The stored-bytes counter against the bytes that are really in a bucket. */
module StoredBytes {
  import opened Prelude
  import opened BlobStore
  import opened BlobSafety

  ghost function Sizes(objects: map<Loc, Bytes>, bucket: string): map<Loc, int> {
    map loc | loc in objects && loc.bucket == bucket :: |objects[loc]|
  }

  /** The bytes of all objects in the bucket. */
  ghost function Stored(store: Store, bucket: string): int {
    Total(Sizes(store.objects, bucket))
  }

  ghost function Counts(counter: map<Account, int>, repository: string): map<Account, int> {
    map a | a in counter && a.repository == repository :: counter[a]
  }

  /** The counter of the repository summed over users. */
  ghost function Counted(store: Store, repository: string): int {
    Total(Counts(store.counter, repository))
  }

  function At<K>(m: map<K, int>, k: K): int {
    if k in m then m[k] else 0
  }

  /** What separates the counter from the truth: zero when every stored or
      overwritten byte has been counted, clean-up failures apart. */
  ghost function Gap(store: Store, b: string): int {
    Stored(store, b) + At(store.overwritten, b) - At(store.abandoned, b) - Counted(store, b)
  }

  lemma StoredPut(store: Store, loc: Loc, body: Bytes, b: string)
    ensures Stored(store.(objects := store.objects[loc := body]), b) == Stored(store, b)
      + (if loc.bucket == b then |body| - (if loc in store.objects then |store.objects[loc]| else 0) else 0)
  {
    var objects := store.objects[loc := body];
    if loc.bucket == b {
      assert Sizes(objects, b) == Sizes(store.objects, b)[loc := |body|];
      TotalUpdate(Sizes(store.objects, b), loc, |body|);
    } else {
      assert Sizes(objects, b) == Sizes(store.objects, b);
    }
  }

  lemma StoredDelete(store: Store, loc: Loc, b: string)
    ensures Stored(store.(objects := store.objects - {loc}), b) ==
      Stored(store, b) - (if loc.bucket == b && loc in store.objects then |store.objects[loc]| else 0)
  {
    var objects := store.objects - {loc};
    if loc.bucket == b && loc in store.objects {
      assert Sizes(objects, b) == Sizes(store.objects, b) - {loc};
      TotalRemove(Sizes(store.objects, b), loc);
    } else {
      assert Sizes(objects, b) == Sizes(store.objects, b);
    }
  }

  lemma CountedCount(store: Store, auth: Auth, n: int, b: string)
    ensures Counted(Count(store, auth, n), b) == Counted(store, b) + (if auth.repository == b then n else 0)
  {
    var a := Account(auth.user, auth.repository);
    var counter := Count(store, auth, n).counter;
    if auth.repository == b {
      assert Counts(counter, b) == Counts(store.counter, b)[a := counter[a]];
      TotalUpdate(Counts(store.counter, b), a, counter[a]);
    } else {
      assert Counts(counter, b) == Counts(store.counter, b);
    }
  }

  /** A written object is counted exactly when its content matches. */
  lemma WrittenGap(h: Hash, store: Store, job: Job, b: string)
    requires Uploads(job) && job.request.contentLength == |job.request.body|
    ensures Gap(Written(h, store, job), b) == Gap(store, b)
      + (if Target(job).bucket == b && !Matches(h, Target(job), job.request.body) then |job.request.body| else 0)
  {
    var loc, body := Target(job), job.request.body;
    StoredPut(store, loc, body, b);
    var lost := if loc in store.objects then |store.objects[loc]| else 0;
    var written := store.(objects := store.objects[loc := body], overwritten := Bump(store.overwritten, loc.bucket, lost));
    assert Stored(written, b) == Stored(store.(objects := store.objects[loc := body]), b);
    assert Counted(written, b) == Counted(store, b);
    assert Gap(written, b) == Gap(store, b) + (if loc.bucket == b then |body| else 0);
    CountedCount(written, job.auth, job.request.contentLength, b);
    assert Stored(Count(written, job.auth, job.request.contentLength), b) == Stored(written, b);
  }

  // ---- Accounting over every interleaving ---------------------------------------

  /** The bytes a job in flight has put in bucket `b` but will not count. */
  function Unsettled(job: Job, b: string): int {
    if job.pc == Landed && Uploads(job) && Target(job).bucket == b then |job.request.body| else 0
  }

  ghost function Dues(jobs: map<nat, Job>, b: string): map<nat, int> {
    map id | id in jobs :: Unsettled(jobs[id], b)
  }

  /** What all jobs in flight owe to bucket `b`. */
  ghost function Due(jobs: map<nat, Job>, b: string): int {
    Total(Dues(jobs, b))
  }

  lemma DueSet(jobs: map<nat, Job>, id: nat, job: Job, b: string)
    ensures Due(jobs[id := job], b) == Due(jobs, b) + Unsettled(job, b) - (if id in jobs then Unsettled(jobs[id], b) else 0)
  {
    assert Dues(jobs[id := job], b) == Dues(jobs, b)[id := Unsettled(job, b)];
    TotalUpdate(Dues(jobs, b), id, Unsettled(job, b));
  }

  lemma DueDrop(jobs: map<nat, Job>, id: nat, b: string)
    ensures Due(jobs - {id}, b) == Due(jobs, b) - (if id in jobs then Unsettled(jobs[id], b) else 0)
  {
    if id in jobs {
      assert Dues(jobs - {id}, b) == Dues(jobs, b) - {id};
      TotalRemove(Dues(jobs, b), id);
    } else {
      assert jobs - {id} == jobs;
    }
  }

  function SizeAt(store: Store, loc: Loc): int {
    if loc in store.objects then |store.objects[loc]| else 0
  }

  /** The size a deletion has measured, or that a clean-up's own put had. */
  function Expected(job: Job): int {
    match job.pc
    case Measured(size) => size
    case _ => if Uploads(job) then |job.request.body| else 0
  }

  /** By how much a deletion that storage accepts mistakes what it removes. */
  function Drift(s: State, e: Event, b: string): int {
    if e.DeleteObject? && e.ok && e.id in s.jobs && s.jobs[e.id].pc != Called && Target(s.jobs[e.id]).bucket == b
    then Expected(s.jobs[e.id]) - SizeAt(s.store, Target(s.jobs[e.id])) else 0
  }

  /** The drift of a run, deletions and late clean-ups together. */
  ghost function Drifts(h: Hash, s: State, es: seq<Event>, b: string): int
    decreases |es|
  {
    if es == [] then 0 else Drift(s, es[0], b) + Drifts(h, Apply(h, s, es[0]), es[1..], b)
  }

  /** The gap, debts of requests in flight settled. */
  ghost function Balance(s: State, b: string): int {
    Gap(s.store, b) - Due(s.jobs, b)
  }

  lemma {:induction false} AccountPut(h: Hash, s: State, id: nat, ok: bool, b: string)
    requires id in s.jobs && Uploads(s.jobs[id]) && s.jobs[id].pc == Called
    ensures Balance(Put(h, s, id, ok), b) == Balance(s, b)
  {
    var job := s.jobs[id];
    DueDrop(s.jobs, id, b);
    if job.request.contentLength == |job.request.body| {
      WrittenGap(h, s.store, job, b);
      DueSet(s.jobs, id, job.(pc := Landed), b);
    }
  }

  lemma {:induction false} AccountHead(s: State, id: nat, ok: bool, b: string)
    requires id in s.jobs && s.jobs[id].pc == Called
    ensures Balance(Head(s, id, ok), b) == Balance(s, b)
  {
    DueDrop(s.jobs, id, b);
    DueSet(s.jobs, id, s.jobs[id].(pc := Measured(SizeAt(s.store, Target(s.jobs[id])))), b);
  }

  /** Removing an object and counting `n` moves the gap by what the two differ. */
  lemma {:induction false} RemovedGap(store: Store, loc: Loc, auth: Auth, n: int, b: string)
    ensures Gap(Count(store.(objects := store.objects - {loc}), auth, n), b) == Gap(store, b)
      - (if loc.bucket == b then SizeAt(store, loc) else 0) - (if auth.repository == b then n else 0)
  {
    var removed := store.(objects := store.objects - {loc});
    StoredDelete(store, loc, b);
    assert Counted(removed, b) == Counted(store, b);
    CountedCount(removed, auth, n, b);
    assert Stored(Count(removed, auth, n), b) == Stored(removed, b);
  }

  lemma {:induction false} RemovedNothing(store: Store, loc: Loc, b: string)
    ensures Gap(store.(objects := store.objects - {loc}), b) == Gap(store, b) - (if loc.bucket == b then SizeAt(store, loc) else 0)
  {
    StoredDelete(store, loc, b);
    assert Counted(store.(objects := store.objects - {loc}), b) == Counted(store, b);
  }

  /** A deletion takes the measured size off the counter, whatever it removed. */
  lemma {:induction false} DeleteMeasured(s: State, id: nat, b: string)
    requires id in s.jobs && s.jobs[id].pc.Measured?
    ensures Gap(Delete(s, id, true).store, b) == Gap(s.store, b) + Drift(s, DeleteObject(id, true), b)
  {
    var job, loc := s.jobs[id], Target(s.jobs[id]);
    if job.pc.size > 0 { RemovedGap(s.store, loc, job.auth, 0 - job.pc.size, b); } else { RemovedNothing(s.store, loc, b); }
  }

  lemma {:induction false} AccountMeasured(s: State, id: nat, ok: bool, b: string)
    requires id in s.jobs && s.jobs[id].pc.Measured?
    ensures Balance(Delete(s, id, ok), b) == Balance(s, b) + Drift(s, DeleteObject(id, ok), b)
  {
    DueDrop(s.jobs, id, b);
    if ok { DeleteMeasured(s, id, b); }
  }

  lemma {:induction false} AccountCleanUp(s: State, id: nat, ok: bool, b: string)
    requires id in s.jobs && s.jobs[id].pc == Landed
    ensures Balance(Delete(s, id, ok), b) == Balance(s, b) + Drift(s, DeleteObject(id, ok), b)
  {
    var job, loc := s.jobs[id], Target(s.jobs[id]);
    DueDrop(s.jobs, id, b);
    if ok {
      var removed := s.store.(objects := s.store.objects - {loc});
      StoredDelete(s.store, loc, b);
      assert Counted(removed, b) == Counted(s.store, b);
    } else {
      var n := if Uploads(job) then |job.request.body| else 0;
      var left := s.store.(orphans := s.store.orphans + {loc}, abandoned := Bump(s.store.abandoned, loc.bucket, n));
      assert Stored(left, b) == Stored(s.store, b) && Counted(left, b) == Counted(s.store, b);
    }
  }

  lemma {:induction false} AccountStep(h: Hash, s: State, e: Event, b: string)
    ensures Balance(Apply(h, s, e), b) == Balance(s, b) + Drift(s, e, b)
  {
    match e
    case Arrive(id, path, auth, request) =>
      DueDrop(s.jobs, id, b);
      DueSet(s.jobs, id, Job(auth, request, Called), b);
    case PutObject(id, ok) =>
      if id in s.jobs && s.jobs[id].pc == Called && Uploads(s.jobs[id]) { AccountPut(h, s, id, ok, b); }
    case HeadObject(id, ok) =>
      if id in s.jobs && s.jobs[id].pc == Called && !Uploads(s.jobs[id]) { AccountHead(s, id, ok, b); }
    case DeleteObject(id, ok) =>
      if id in s.jobs && s.jobs[id].pc.Measured? { AccountMeasured(s, id, ok, b); }
      if id in s.jobs && s.jobs[id].pc == Landed { AccountCleanUp(s, id, ok, b); }
  }

  /** Accounting over every interleaving: up to what jobs in flight owe, a run
      moves the gap by exactly what its deletions and late clean-ups mistook. */
  lemma {:induction false} Accounting(h: Hash, s: State, es: seq<Event>, b: string)
    ensures Balance(Run(h, s, es), b) == Balance(s, b) + Drifts(h, s, es, b)
    decreases |es|
  {
    if es != [] {
      AccountStep(h, s, es[0], b);
      Accounting(h, Apply(h, s, es[0]), es[1..], b);
    }
  }

  /** The counter summed over users plus the bytes failed clean-ups left behind is
      the bytes in the bucket plus the bytes of overwritten configs. */
  ghost predicate CounterIsRight(store: Store, b: string) {
    Counted(store, b) + At(store.abandoned, b) == Stored(store, b) + At(store.overwritten, b)
  }

  /** After any run from an empty store, however its requests overlapped, the
      counter is right exactly when the mistakes add up to nothing. */
  lemma {:induction false} CounterIsRightIff(h: Hash, es: seq<Event>, b: string)
    requires Run(h, EMPTY, es).jobs == map[]
    ensures CounterIsRight(Run(h, EMPTY, es).store, b) <==> Drifts(h, EMPTY, es, b) == 0
  {
    assert Sizes(map[], b) == map[] && Counts(map[], b) == map[] && Dues(map[], b) == map[];
    Accounting(h, EMPTY, es, b);
  }

  // ---- Deletions that do not overlap -------------------------------------------------

  /** Bucket `b` gets a request that passes its guards. */
  predicate Admitted(s: State, e: Event, b: string) {
    && e.Arrive? && e.auth.repository == b && e.id !in s.jobs && e.id !in s.replies
    && Refusal(e.path, e.auth, e.request) == None
  }

  /** Both requests upload; uploads of one key do not disturb each other. */
  predicate BothUpload(a: Job, b: Job) {
    Uploads(a) && Uploads(b)
  }

  /** No admitted deletion in bucket `b` meets another request on its key. */
  ghost predicate ArrivesApart(s: State, e: Event, b: string) {
    Admitted(s, e, b) ==>
      forall id | id in s.jobs && Target(s.jobs[id]) == Target(Job(e.auth, e.request, Called)) ::
        BothUpload(s.jobs[id], Job(e.auth, e.request, Called))
  }

  ghost predicate ApartRun(h: Hash, s: State, es: seq<Event>, b: string)
    decreases |es|
  {
    es == [] || (ArrivesApart(s, es[0], b) && ApartRun(h, Apply(h, s, es[0]), es[1..], b))
  }

  /** Two requests in flight on one key. */
  predicate Meet(s: State, i: nat, j: nat, b: string) {
    i in s.jobs && j in s.jobs && i != j && Target(s.jobs[i]) == Target(s.jobs[j]) && Target(s.jobs[i]).bucket == b
  }

  /** In bucket `b`: requests that meet upload and at most one owes a clean-up, and
      whoever will remove an object knows what is stored there. */
  ghost predicate ApartState(h: Hash, s: State, b: string) {
    && WellFormed(h, s)
    && (forall i, j | Meet(s, i, j, b) ::
          BothUpload(s.jobs[i], s.jobs[j]) && !(s.jobs[i].pc == Landed && s.jobs[j].pc == Landed))
    && (forall id | id in s.jobs && Target(s.jobs[id]).bucket == b && s.jobs[id].pc == Landed :: Owns(s, id, Target(s.jobs[id])))
    && (forall id | id in s.jobs && Target(s.jobs[id]).bucket == b && s.jobs[id].pc.Measured? :: Knows(s, id))
  }

  /** The object at the request's key has the size measured. */
  ghost predicate Knows(s: State, id: nat)
    requires id in s.jobs && s.jobs[id].pc.Measured?
  {
    var loc := Target(s.jobs[id]);
    loc in s.store.objects && |s.store.objects[loc]| == s.jobs[id].pc.size
  }

  /** Only request `id` and what is stored at its key change. */
  ghost predicate Local(s: State, s': State, id: nat, loc: Loc) {
    && (forall i | i != id :: i in s'.jobs <==> i in s.jobs)
    && (forall i | i != id && i in s.jobs :: s'.jobs[i] == s.jobs[i])
    && (forall l | l != loc :: l in s'.store.objects <==> l in s.store.objects)
    && (forall l | l != loc && l in s.store.objects :: s'.store.objects[l] == s.store.objects[l])
  }

  /** Whoever else is on the key has not touched it yet, or it did not change. */
  ghost predicate Unnoticed(s: State, s': State, id: nat, loc: Loc) {
    || s'.store.objects == s.store.objects
    || forall i | i in s.jobs && i != id && Target(s.jobs[i]) == loc :: s.jobs[i].pc == Called
  }

  ghost predicate Fits(s: State, s': State, id: nat, loc: Loc) {
    id in s'.jobs ==>
      && Target(s'.jobs[id]) == loc
      && (s'.jobs[id].pc == Landed ==> Owns(s', id, loc))
      && (s'.jobs[id].pc.Measured? ==> Knows(s', id))
      && forall i | i in s.jobs && i != id && Target(s.jobs[i]) == loc ::
           BothUpload(s.jobs[i], s'.jobs[id]) && !(s.jobs[i].pc == Landed && s'.jobs[id].pc == Landed)
  }

  lemma {:induction false} ApartStepIf(h: Hash, s: State, s': State, id: nat, loc: Loc, b: string)
    requires ApartState(h, s, b) && WellFormed(h, s') && Local(s, s', id, loc)
    requires loc.bucket == b ==> Unnoticed(s, s', id, loc) && Fits(s, s', id, loc)
    requires id in s'.jobs ==> Target(s'.jobs[id]) == loc
    ensures ApartState(h, s', b)
  {
    forall i, j | Meet(s', i, j, b)
      ensures BothUpload(s'.jobs[i], s'.jobs[j]) && !(s'.jobs[i].pc == Landed && s'.jobs[j].pc == Landed)
    {
      if i != id && j != id { assert Meet(s, i, j, b); }
    }
  }

  lemma {:induction false} ApartArrive(h: Hash, s: State, e: Event, b: string)
    requires ApartState(h, s, b) && e.Arrive? && ArrivesApart(s, e, b)
    ensures ApartState(h, Apply(h, s, e), b)
  {
    WellFormedStep(h, s, e);
    if e.id !in s.jobs { ApartStepIf(h, s, Apply(h, s, e), e.id, Target(Job(e.auth, e.request, Called)), b); }
  }

  /** A key on which a clean-up is owed is a blob's, so it is put conditionally. */
  lemma {:induction false} LandedBlocks(h: Hash, s: State, id: nat, i: nat, b: string)
    requires ApartState(h, s, b) && Meet(s, id, i, b) && s.jobs[i].pc == Landed && Uploads(s.jobs[id])
    ensures Conditional(s.jobs[id]) && Target(s.jobs[id]) in s.store.objects
  {
    TargetReachable(h, s, i);
    assert Owns(s, i, Target(s.jobs[i]));
  }

  lemma {:induction false} ApartPut(h: Hash, s: State, id: nat, ok: bool, b: string)
    requires id in s.jobs && Uploads(s.jobs[id]) && s.jobs[id].pc == Called
    requires ApartState(h, s, b) && WellFormed(h, Put(h, s, id, ok))
    ensures ApartState(h, Put(h, s, id, ok), b)
  {
    var s', loc := Put(h, s, id, ok), Target(s.jobs[id]);
    if loc.bucket == b && s'.store.objects != s.store.objects {
      forall i | i in s.jobs && i != id && Target(s.jobs[i]) == loc ensures s.jobs[i].pc == Called && Uploads(s.jobs[i]) {
        assert Meet(s, id, i, b);
        if s.jobs[i].pc == Landed { LandedBlocks(h, s, id, i, b); }
      }
    }
    PutLocal(h, s, id, ok);
    ApartStepIf(h, s, s', id, loc, b);
  }

  lemma {:induction false} PutLocal(h: Hash, s: State, id: nat, ok: bool)
    requires id in s.jobs && Uploads(s.jobs[id])
    ensures var s', loc := Put(h, s, id, ok), Target(s.jobs[id]);
      && Local(s, s', id, loc)
      && (id in s'.jobs ==> s'.jobs[id] == s.jobs[id].(pc := Landed) && Owns(s', id, loc) && s'.store.objects == s.store.objects[loc := s.jobs[id].request.body])
      && (id in s'.jobs && Conditional(s.jobs[id]) ==> loc !in s.store.objects)
  {
  }

  lemma {:induction false} ApartHead(h: Hash, s: State, id: nat, ok: bool, b: string)
    requires id in s.jobs && s.jobs[id].pc == Called && !Uploads(s.jobs[id])
    requires ApartState(h, s, b) && WellFormed(h, Head(s, id, ok))
    ensures ApartState(h, Head(s, id, ok), b)
  {
    var s', loc := Head(s, id, ok), Target(s.jobs[id]);
    forall i | i in s.jobs && i != id && Target(s.jobs[i]) == loc && loc.bucket == b
      ensures BothUpload(s.jobs[i], s.jobs[id])
    {
      assert Meet(s, i, id, b);
    }
    ApartStepIf(h, s, s', id, loc, b);
  }

  lemma {:induction false} ApartDelete(h: Hash, s: State, id: nat, ok: bool, b: string)
    requires id in s.jobs && s.jobs[id].pc != Called
    requires ApartState(h, s, b) && WellFormed(h, Delete(s, id, ok))
    ensures ApartState(h, Delete(s, id, ok), b)
  {
    var s', loc := Delete(s, id, ok), Target(s.jobs[id]);
    forall i | i in s.jobs && i != id && Target(s.jobs[i]) == loc && loc.bucket == b ensures s.jobs[i].pc == Called {
      assert Meet(s, i, id, b);
    }
    ApartStepIf(h, s, s', id, loc, b);
  }

  lemma {:induction false} ApartStep(h: Hash, s: State, e: Event, b: string)
    requires ApartState(h, s, b) && ArrivesApart(s, e, b)
    ensures ApartState(h, Apply(h, s, e), b)
  {
    WellFormedStep(h, s, e);
    match e
    case Arrive(_, _, _, _) => ApartArrive(h, s, e, b);
    case PutObject(id, ok) =>
      if id in s.jobs && s.jobs[id].pc == Called && Uploads(s.jobs[id]) { ApartPut(h, s, id, ok, b); }
    case HeadObject(id, ok) =>
      if id in s.jobs && s.jobs[id].pc == Called && !Uploads(s.jobs[id]) { ApartHead(h, s, id, ok, b); }
    case DeleteObject(id, ok) =>
      if id in s.jobs && s.jobs[id].pc != Called { ApartDelete(h, s, id, ok, b); }
  }

  lemma {:induction false} NoDrift(h: Hash, s: State, e: Event, b: string)
    requires ApartState(h, s, b)
    ensures Drift(s, e, b) == 0
  {
    if e.DeleteObject? && e.id in s.jobs && Target(s.jobs[e.id]).bucket == b {
      assert s.jobs[e.id].pc.Measured? ==> Knows(s, e.id);
      assert s.jobs[e.id].pc == Landed ==> Owns(s, e.id, Target(s.jobs[e.id]));
    }
  }

  /** As long as no admitted deletion in the bucket overlaps another request on its
      key nothing is mistaken there; uploads, other keys and other buckets
      interleave at will. */
  lemma {:induction false} BalancedRun(h: Hash, s: State, es: seq<Event>, b: string)
    requires ApartState(h, s, b) && ApartRun(h, s, es, b)
    ensures ApartState(h, Run(h, s, es), b) && Drifts(h, s, es, b) == 0
    ensures Balance(Run(h, s, es), b) == Balance(s, b)
    decreases |es|
  {
    if es != [] {
      ApartStep(h, s, es[0], b);
      NoDrift(h, s, es[0], b);
      AccountStep(h, s, es[0], b);
      BalancedRun(h, Apply(h, s, es[0]), es[1..], b);
    }
  }

  /** Conservation: after any run from an empty store in which no admitted deletion
      in the bucket overlaps another request on its key, refused, failed,
      mismatching and overlapping uploads included, the counter is right. */
  lemma {:induction false} StoredBytesConservation(h: Hash, es: seq<Event>, b: string)
    requires ApartRun(h, EMPTY, es, b) && Run(h, EMPTY, es).jobs == map[]
    ensures CounterIsRight(Run(h, EMPTY, es).store, b)
  {
    BalancedRun(h, EMPTY, es, b);
    CounterIsRightIff(h, es, b);
  }

  lemma PutOverwrites(h: Hash, s: State, id: nat, ok: bool, b: string)
    requires id in s.jobs && Uploads(s.jobs[id])
    requires s.jobs[id].auth.repository == b ==> s.jobs[id].auth.writeOnce
    ensures At(Put(h, s, id, ok).store.overwritten, b) == At(s.store.overwritten, b)
  {
  }

  lemma StepOverwrites(h: Hash, s: State, e: Event, b: string)
    requires forall id | id in s.jobs && s.jobs[id].auth.repository == b :: s.jobs[id].auth.writeOnce
    ensures At(Apply(h, s, e).store.overwritten, b) == At(s.store.overwritten, b)
  {
    if e.PutObject? && e.id in s.jobs && Uploads(s.jobs[e.id]) { PutOverwrites(h, s, e.id, e.ok, b); }
  }

  lemma {:induction false} NothingOverwritten(h: Hash, s: State, es: seq<Event>, b: string)
    requires WriteOnce(h, s, b) && OnlyWriteOnce(es, b) && At(s.store.overwritten, b) == 0
    ensures At(Run(h, s, es).store.overwritten, b) == 0
    decreases |es|
  {
    if es != [] {
      WriteOnceStep(h, s, es[0], b, Loc(b, CONFIG));
      StepOverwrites(h, s, es[0], b);
      NothingOverwritten(h, Apply(h, s, es[0]), es[1..], b);
    }
  }

  /** The arriving request is for a lock. */
  ghost predicate LocksApart(s: State, e: Event, b: string) {
    e.Arrive? && TypeOf(Target(Job(e.auth, e.request, Called)).key) == "locks" ==> ArrivesApart(s, e, b)
  }

  ghost predicate LocksApartRun(h: Hash, s: State, es: seq<Event>, b: string)
    decreases |es|
  {
    es == [] || (LocksApart(s, es[0], b) && LocksApartRun(h, Apply(h, s, es[0]), es[1..], b))
  }

  /** In a write-once repository only locks can be deleted. */
  lemma {:induction false} OnlyLocksMeet(h: Hash, s: State, e: Event, b: string)
    requires WriteOnce(h, s, b) && ArrivesWriteOnce(e, b) && LocksApart(s, e, b)
    ensures ArrivesApart(s, e, b)
  {
    if Admitted(s, e, b) && TypeOf(Target(Job(e.auth, e.request, Called)).key) != "locks" {
      var job := Job(e.auth, e.request, Called);
      if e.request.DeleteBlob? { BlobKeyParts(e.request.blobType, e.request.name); }
      forall id | id in s.jobs && Target(s.jobs[id]) == Target(job) ensures BothUpload(s.jobs[id], job) {
        TargetReachable(h, s, id);
      }
    }
  }

  lemma {:induction false} LocksSuffice(h: Hash, s: State, es: seq<Event>, b: string)
    requires WriteOnce(h, s, b) && OnlyWriteOnce(es, b) && LocksApartRun(h, s, es, b)
    ensures ApartRun(h, s, es, b)
    decreases |es|
  {
    if es != [] {
      assert es[0] in es;
      OnlyLocksMeet(h, s, es[0], b);
      WriteOnceStep(h, s, es[0], b, Loc(b, CONFIG));
      LocksSuffice(h, Apply(h, s, es[0]), es[1..], b);
    }
  }

  /** A write-once repository overwrites nothing and deletes only locks, so there the
      counter is exact, as long as clean-ups succeed and no lock's deletion overlaps
      another request on the lock. */
  lemma {:induction false} WriteOnceCounterIsExact(h: Hash, es: seq<Event>, b: string)
    requires LocksApartRun(h, EMPTY, es, b) && OnlyWriteOnce(es, b) && Run(h, EMPTY, es).jobs == map[]
    ensures var store := Run(h, EMPTY, es).store; Counted(store, b) + At(store.abandoned, b) == Stored(store, b)
  {
    LocksSuffice(h, EMPTY, es, b);
    StoredBytesConservation(h, es, b);
    NothingOverwritten(h, EMPTY, es, b);
  }

  // ---- One request at a time ---------------------------------------------------

  /** The events of one request served alone; those that do not apply to it
      change nothing. `first` and `second` say whether its storage calls succeed. */
  function Script(auth: Auth, request: Request, first: bool, second: bool): seq<Event> {
    [Arrive(0, auth.repository, auth, request), PutObject(0, first), HeadObject(0, first), DeleteObject(0, second)]
  }

  /** The store after a request served alone. */
  function Serve(h: Hash, store: Store, auth: Auth, request: Request, first: bool, second: bool): State {
    Run(h, State(store, map[], map[]), Script(auth, request, first, second))
  }

  lemma ServeSteps(h: Hash, store: Store, auth: Auth, request: Request, first: bool, second: bool)
    ensures var e := Script(auth, request, first, second);
      Serve(h, store, auth, request, first, second) ==
      Apply(h, Apply(h, Apply(h, Apply(h, State(store, map[], map[]), e[0]), e[1]), e[2]), e[3])
  {
    var e := Script(auth, request, first, second);
    var s := State(store, map[], map[]);
    RunFrom(h, s, e, 0);
    var s1 := Apply(h, s, e[0]); RunFrom(h, s1, e, 1);
    var s2 := Apply(h, s1, e[1]); RunFrom(h, s2, e, 2);
    RunFrom(h, Apply(h, s2, e[2]), e, 3);
  }

  lemma {:induction false} NoArrivals(h: Hash, s: State, es: seq<Event>, b: string)
    requires forall e | e in es :: !e.Arrive?
    ensures ApartRun(h, s, es, b)
    decreases |es|
  {
    if es != [] {
      assert es[0] in es;
      NoArrivals(h, Apply(h, s, es[0]), es[1..], b);
    }
  }

  /** Serving one request, however its storage calls go, answers it and leaves
      the counter exactly as far from the truth as it was, in every bucket. */
  lemma {:induction false} ServeConserves(h: Hash, store: Store, auth: Auth, request: Request, first: bool, second: bool, b: string)
    ensures var s := Serve(h, store, auth, request, first, second);
      s.jobs == map[] && 0 in s.replies && Gap(s.store, b) == Gap(store, b)
  {
    var s0, e := State(store, map[], map[]), Script(auth, request, first, second);
    NoArrivals(h, Apply(h, s0, e[0]), e[1..], b);
    assert ArrivesApart(s0, e[0], b);
    BalancedRun(h, s0, e, b);
    Answered(h, store, auth, request, first, second);
    assert Dues(map[], b) == map[];
  }

  /** The request has been answered, or is the only one in flight. */
  predicate Alone(s: State) {
    (s.jobs == map[] && 0 in s.replies) || s.jobs.Keys == {0}
  }

  lemma AnsweredPut(h: Hash, s: State, e: seq<Event>, auth: Auth, request: Request, first: bool, second: bool)
    requires s.jobs == map[] && s.replies == map[] && e == Script(auth, request, first, second)
    ensures var s2 := Apply(h, Apply(h, s, e[0]), e[1]);
      Alone(s2) && (s2.jobs != map[] ==> s2.jobs[0].pc == Landed || (s2.jobs[0].pc == Called && !Uploads(s2.jobs[0])))
  {
    var s1 := Apply(h, s, e[0]);
    assert s1.jobs == map[0 := Job(auth, request, Called)] || (s1.jobs == map[] && 0 in s1.replies);
  }

  lemma Answered(h: Hash, store: Store, auth: Auth, request: Request, first: bool, second: bool)
    ensures Serve(h, store, auth, request, first, second).jobs == map[]
    ensures 0 in Serve(h, store, auth, request, first, second).replies
  {
    ServeSteps(h, store, auth, request, first, second);
    var s, e := State(store, map[], map[]), Script(auth, request, first, second);
    AnsweredPut(h, s, e, auth, request, first, second);
    var s3 := Apply(h, Apply(h, Apply(h, s, e[0]), e[1]), e[2]);
    assert Alone(s3) && (s3.jobs != map[] ==> s3.jobs[0].pc != Called);
  }

  // ---- Why requests on one key must not overlap ------------------------------------------

  lemma MeasureConfig(h: Hash, s: State, id: nat, auth: Auth)
    requires !auth.writeOnce && Loc(auth.repository, CONFIG) in s.store.objects
    requires id !in s.jobs && id !in s.replies
    ensures Apply(h, Apply(h, s, Arrive(id, "", auth, DeleteConfig)), HeadObject(id, true)) ==
      s.(jobs := s.jobs[id := Job(auth, DeleteConfig, Measured(|s.store.objects[Loc(auth.repository, CONFIG)]|))])
  {
    var s1 := Apply(h, s, Arrive(id, "", auth, DeleteConfig));
    assert s1 == s.(jobs := s.jobs[id := Job(auth, DeleteConfig, Called)]);
  }

  /** Two config deletions that both measured the object before either removed
      it: the size is taken off the counter twice. */
  lemma OverlappingDeletionsMiscount(h: Hash, s: State, auth: Auth, loc: Loc)
    requires !auth.writeOnce && loc == Loc(auth.repository, CONFIG)
    requires loc in s.store.objects && s.store.objects[loc] != []
    requires s.jobs == map[] && 0 !in s.replies && 1 !in s.replies
    ensures var e := [Arrive(0, "", auth, DeleteConfig), HeadObject(0, true),
                      Arrive(1, "", auth, DeleteConfig), HeadObject(1, true),
                      DeleteObject(0, true), DeleteObject(1, true)];
      && Run(h, s, e).jobs == map[]
      && Gap(Run(h, s, e).store, loc.bucket) == Gap(s.store, loc.bucket) + |s.store.objects[loc]|
  {
    var e := [Arrive(0, "", auth, DeleteConfig), HeadObject(0, true),
              Arrive(1, "", auth, DeleteConfig), HeadObject(1, true),
              DeleteObject(0, true), DeleteObject(1, true)];
    MeasureConfig(h, s, 0, auth);
    var s2 := Apply(h, Apply(h, s, e[0]), e[1]);
    MeasureConfig(h, s2, 1, auth);
    DeleteTwice(h, Apply(h, Apply(h, s2, e[2]), e[3]), loc);
    RunOfSix(h, s, e);
  }

  lemma {:induction false} DeleteTwice(h: Hash, s: State, loc: Loc)
    requires loc in s.store.objects && s.jobs.Keys == {0, 1}
    requires forall id | id in s.jobs ::
      Target(s.jobs[id]) == loc && s.jobs[id].pc == Measured(|s.store.objects[loc]|)
    ensures var s' := Apply(h, Apply(h, s, DeleteObject(0, true)), DeleteObject(1, true));
      s'.jobs == map[] && Gap(s'.store, loc.bucket) == Gap(s.store, loc.bucket) + |s.store.objects[loc]|
  {
    var s' := Delete(s, 0, true);
    assert Apply(h, s, DeleteObject(0, true)) == s';
    assert s'.jobs.Keys == {1} && s'.jobs[1] == s.jobs[1] && s'.store.objects == s.store.objects - {loc};
    assert Apply(h, s', DeleteObject(1, true)) == Delete(s', 1, true);
    DeleteMeasured(s, 0, loc.bucket);
    DeleteMeasured(s', 1, loc.bucket);
  }

  lemma {:induction false} RunOfSix(h: Hash, s: State, e: seq<Event>)
    requires |e| == 6
    ensures Run(h, s, e) ==
      Apply(h, Apply(h, Apply(h, Apply(h, Apply(h, Apply(h, s, e[0]), e[1]), e[2]), e[3]), e[4]), e[5])
  {
    RunFrom(h, s, e, 0);
    var s1 := Apply(h, s, e[0]); RunFrom(h, s1, e, 1);
    var s2 := Apply(h, s1, e[1]); RunFrom(h, s2, e, 2);
    var s3 := Apply(h, s2, e[2]); RunFrom(h, s3, e, 3);
    var s4 := Apply(h, s3, e[3]); RunFrom(h, s4, e, 4);
    RunFrom(h, Apply(h, s4, e[4]), e, 5);
  }
}
