/** What michael's interleaved requests can never do to stored objects. */
module BlobSafety {
  import opened Prelude
  import opened BlobStore

  // ---- Invariants of every run -------------------------------------------

  /** Requests in flight passed the guards; only a blob upload with the wrong
      content owes a clean-up; only a deletion has measured its object. */
  ghost predicate WellFormed(h: Hash, s: State) {
    forall id | id in s.jobs ::
      && id !in s.replies
      && Refusal("", s.jobs[id].auth, s.jobs[id].request) == None
      && (s.jobs[id].pc == Landed ==>
            s.jobs[id].request.SaveBlob? && !Matches(h, Target(s.jobs[id]), s.jobs[id].request.body))
      && (s.jobs[id].pc.Measured? ==> !Uploads(s.jobs[id]))
  }

  lemma WellFormedStep(h: Hash, s: State, e: Event)
    requires WellFormed(h, s)
    ensures WellFormed(h, Apply(h, s, e))
  {
  }

  predicate ReachableKey(key: string) {
    || key == CONFIG
    || (ValidBlobType(TypeOf(key)) && ValidBlobName(NameOf(key)) && key == BlobKey(TypeOf(key), NameOf(key)))
  }

  /** Request `id` put the object that is now at `loc`, found its hash wrong and
      has not yet tried to remove it. */
  ghost predicate Owns(s: State, id: nat, loc: Loc) {
    && id in s.jobs && s.jobs[id].pc == Landed && Uploads(s.jobs[id])
    && Target(s.jobs[id]) == loc
    && loc in s.store.objects && s.store.objects[loc] == s.jobs[id].request.body
  }

  // ---- The three things a step can do ---------------------------------------

  /** Request `id` stored its object and, if the hash was wrong, owes a clean-up. */
  ghost predicate Wrote(h: Hash, s: State, s': State, id: nat) {
    && id in s.jobs && s.jobs[id].pc == Called && Uploads(s.jobs[id])
    && (Conditional(s.jobs[id]) ==> Target(s.jobs[id]) !in s.store.objects)
    && s'.store.objects == s.store.objects[Target(s.jobs[id]) := s.jobs[id].request.body]
    && s'.store.orphans == s.store.orphans
    && s'.jobs == (if Matches(h, Target(s.jobs[id]), s.jobs[id].request.body)
                   then s.jobs - {id} else s.jobs[id := s.jobs[id].(pc := Landed)])
  }

  /** Request `id` deleted the object at its key and is finished. */
  ghost predicate Removed(s: State, s': State, id: nat) {
    && id in s.jobs && s.jobs[id].pc != Called
    && s'.store.objects == s.store.objects - {Target(s.jobs[id])}
    && s'.store.orphans == s.store.orphans
    && s'.jobs == s.jobs - {id}
  }

  /** No object changed; a failed clean-up is remembered. */
  ghost predicate Idle(s: State, s': State, id: nat) {
    && s'.store.objects == s.store.objects
    && s.store.orphans <= s'.store.orphans
    && s'.jobs - {id} == s.jobs - {id}
    && (id in s'.jobs && id in s.jobs && s'.jobs[id] != s.jobs[id] ==>
          s'.jobs[id].pc.Measured? && s'.jobs[id] == s.jobs[id].(pc := s'.jobs[id].pc)
          && s.jobs[id].pc == Called && !Uploads(s.jobs[id]))
    && (id in s'.jobs && id !in s.jobs ==> s'.jobs[id].pc == Called)
    && (id !in s'.jobs && id in s.jobs && s.jobs[id].pc == Landed ==> Target(s.jobs[id]) in s'.store.orphans)
  }

  lemma PutCases(h: Hash, s: State, id: nat, ok: bool)
    requires id in s.jobs && Uploads(s.jobs[id]) && s.jobs[id].pc == Called
    ensures var s' := Put(h, s, id, ok); Wrote(h, s, s', id) || Idle(s, s', id)
  {
  }

  lemma HeadCases(s: State, id: nat, ok: bool)
    requires id in s.jobs && s.jobs[id].pc == Called && !Uploads(s.jobs[id])
    ensures Idle(s, Head(s, id, ok), id)
  {
  }

  lemma DeleteCases(s: State, id: nat, ok: bool)
    requires id in s.jobs && s.jobs[id].pc != Called
    ensures var s' := Delete(s, id, ok); Removed(s, s', id) || Idle(s, s', id)
  {
  }

  lemma StepCases(h: Hash, s: State, e: Event)
    ensures var s' := Apply(h, s, e); Wrote(h, s, s', e.id) || Removed(s, s', e.id) || Idle(s, s', e.id)
    ensures e.id !in s.jobs && e.id in Apply(h, s, e).jobs ==>
      e.Arrive? && Apply(h, s, e).jobs[e.id].auth == e.auth
  {
    match e
    case Arrive(id, path, auth, request) =>
    case PutObject(id, ok) =>
      if id in s.jobs && s.jobs[id].pc == Called && Uploads(s.jobs[id]) { PutCases(h, s, id, ok); }
    case HeadObject(id, ok) =>
      if id in s.jobs && s.jobs[id].pc == Called && !Uploads(s.jobs[id]) { HeadCases(s, id, ok); }
    case DeleteObject(id, ok) =>
      if id in s.jobs && s.jobs[id].pc != Called { DeleteCases(s, id, ok); }
  }

  // ---- Content addressing ---------------------------------------------------

  /** Every stored object has a legal key, and an object whose hash is not its
      name is owned by an upload in flight or was left by a failed clean-up. */
  ghost predicate ContentAddressed(h: Hash, s: State) {
    && WellFormed(h, s)
    && forall loc | loc in s.store.objects ::
         && ReachableKey(loc.key)
         && (Matches(h, loc, s.store.objects[loc]) || loc in s.store.orphans || exists id :: Owns(s, id, loc))
  }

  lemma TargetReachable(h: Hash, s: State, id: nat)
    requires WellFormed(h, s) && id in s.jobs
    ensures ReachableKey(Target(s.jobs[id]).key)
    ensures s.jobs[id].request.SaveBlob? ==> Target(s.jobs[id]).key != CONFIG
    ensures s.jobs[id].request.DeleteBlob? && s.jobs[id].auth.writeOnce ==> TypeOf(Target(s.jobs[id]).key) == "locks"
  {
    match s.jobs[id].request
    case SaveBlob(t, n, _, _) => BlobKeyParts(t, n);
    case DeleteBlob(t, n) => BlobKeyParts(t, n);
    case _ =>
  }

  lemma {:induction false} ContentAddressedStep(h: Hash, s: State, e: Event)
    requires ContentAddressed(h, s)
    ensures ContentAddressed(h, Apply(h, s, e))
  {
    WellFormedStep(h, s, e);
    StepCases(h, s, e);
    if e.id in s.jobs { TargetReachable(h, s, e.id); }
    ContentAddressedCases(h, s, Apply(h, s, e), e.id);
  }

  lemma ContentAddressedCases(h: Hash, s: State, s': State, e: nat)
    requires ContentAddressed(h, s) && WellFormed(h, s')
    requires e in s.jobs ==> ReachableKey(Target(s.jobs[e]).key)
    requires Wrote(h, s, s', e) || Removed(s, s', e) || Idle(s, s', e)
    ensures ContentAddressed(h, s')
  {
    forall loc | loc in s'.store.objects
      ensures ReachableKey(loc.key)
      ensures Matches(h, loc, s'.store.objects[loc]) || loc in s'.store.orphans || exists id :: Owns(s', id, loc)
    {
      if Wrote(h, s, s', e) && loc == Target(s.jobs[e]) {
        assert !Matches(h, loc, s'.store.objects[loc]) ==> Owns(s', e, loc);
      } else if !Matches(h, loc, s.store.objects[loc]) && loc !in s.store.orphans {
        var id :| Owns(s, id, loc);
        assert id != e ==> id in s'.jobs - {e} || Wrote(h, s, s', e) || Removed(s, s', e) || id in s.jobs - {e};
        if loc !in s'.store.orphans { assert Owns(s', id, loc); }
      }
    }
  }

  lemma {:induction false} ContentAddressedRun(h: Hash, s: State, es: seq<Event>)
    requires ContentAddressed(h, s)
    ensures ContentAddressed(h, Run(h, s, es))
    decreases |es|
  {
    if es != [] {
      ContentAddressedStep(h, s, es[0]);
      ContentAddressedRun(h, Apply(h, s, es[0]), es[1..]);
    }
  }

  /** In every run from an empty store, write-once or not: when no upload owes
      a clean-up and none has failed, each blob's hash is its name. */
  lemma BlobsAreNamedByTheirHash(h: Hash, es: seq<Event>)
    ensures var s := Run(h, EMPTY, es);
      (forall id | id in s.jobs :: s.jobs[id].pc != Landed) && s.store.orphans == {} ==>
        forall loc | loc in s.store.objects && loc.key != CONFIG ::
          ValidBlobType(TypeOf(loc.key)) && h(s.store.objects[loc]) == NameOf(loc.key)
  {
    ContentAddressedRun(h, EMPTY, es);
  }

  // ---- Write-once durability ---------------------------------------------------

  /** The config and every blob that is not a lock. */
  predicate Protected(key: string) {
    TypeOf(key) != "locks"
  }

  /** A late clean-up on repository `r`, locks aside. */
  ghost predicate Owed(s: State, r: string, id: nat) {
    id in s.jobs && s.jobs[id].pc == Landed && Target(s.jobs[id]).bucket == r && Protected(Target(s.jobs[id]).key)
  }

  /** All requests in flight on `r` are write-once and every owed clean-up still
      owns the wrong object it put, each at a place of its own. */
  ghost predicate WriteOnce(h: Hash, s: State, r: string) {
    WellFormed(h, s) && Ownership(s, r)
  }

  ghost predicate Ownership(s: State, r: string) {
    && (forall id | id in s.jobs && s.jobs[id].auth.repository == r :: s.jobs[id].auth.writeOnce)
    && (forall id | Owed(s, r, id) :: Owns(s, id, Target(s.jobs[id])))
    && (forall i, j | Owed(s, r, i) && Owed(s, r, j) && i != j :: Target(s.jobs[i]) != Target(s.jobs[j]))
  }

  predicate ArrivesWriteOnce(e: Event, r: string) {
    e.Arrive? && e.auth.repository == r ==> e.auth.writeOnce
  }

  predicate OnlyWriteOnce(es: seq<Event>, r: string) {
    forall e | e in es :: ArrivesWriteOnce(e, r)
  }

  /** An object a write-once repository must never lose. */
  predicate Durable(h: Hash, s: State, loc: Loc) {
    Protected(loc.key) && loc in s.store.objects && Matches(h, loc, s.store.objects[loc])
  }

  lemma {:induction false} WriteOnceStep(h: Hash, s: State, e: Event, r: string, loc: Loc)
    requires WriteOnce(h, s, r) && ArrivesWriteOnce(e, r)
    ensures WriteOnce(h, Apply(h, s, e), r)
    ensures loc.bucket == r && Durable(h, s, loc) ==>
      Durable(h, Apply(h, s, e), loc) && Apply(h, s, e).store.objects[loc] == s.store.objects[loc]
  {
    WellFormedStep(h, s, e);
    StepCases(h, s, e);
    if e.id in s.jobs { TargetReachable(h, s, e.id); }
    OwnershipCases(h, s, Apply(h, s, e), e.id, r);
    DurableCases(h, s, Apply(h, s, e), e.id, r, loc);
  }

  /** A deletion on a write-once repository is either owed or hits a lock. */
  ghost predicate Harmless(s: State, id: nat) {
    id in s.jobs && s.jobs[id].auth.writeOnce && s.jobs[id].pc.Measured? ==> !Protected(Target(s.jobs[id]).key)
  }

  lemma DurableCases(h: Hash, s: State, s': State, e: nat, r: string, loc: Loc)
    requires WriteOnce(h, s, r)
    requires Harmless(s, e)
    requires Wrote(h, s, s', e) || Removed(s, s', e) || Idle(s, s', e)
    ensures loc.bucket == r && Durable(h, s, loc) ==>
      Durable(h, s', loc) && s'.store.objects[loc] == s.store.objects[loc]
  {
    if e in s.jobs && Target(s.jobs[e]) == loc && loc.bucket == r && Durable(h, s, loc) {
      assert Owed(s, r, e) ==> Owns(s, e, loc);
    }
  }

  lemma OwnershipCases(h: Hash, s: State, s': State, e: nat, r: string)
    requires Ownership(s, r) && Harmless(s, e)
    requires e in s'.jobs && e !in s.jobs && s'.jobs[e].auth.repository == r ==> s'.jobs[e].auth.writeOnce
    requires Wrote(h, s, s', e) || Removed(s, s', e) || Idle(s, s', e)
    ensures Ownership(s', r)
  {
    forall id | id in s'.jobs && id != e
      ensures id in s.jobs && s'.jobs[id] == s.jobs[id]
    {
      assert id in s'.jobs - {e};
      assert s'.jobs - {e} == s.jobs - {e};
    }
    forall id | Owed(s', r, id)
      ensures Owns(s', id, Target(s'.jobs[id]))
      ensures id != e ==> Owed(s, r, id)
    {
      if id != e {
        assert Owed(s, r, id);
        if Removed(s, s', e) && Target(s.jobs[e]) == Target(s.jobs[id]) {
          assert Owed(s, r, e);
        }
      }
    }
    if Owed(s', r, e) && Wrote(h, s, s', e) {
      forall i | Owed(s', r, i) && i != e ensures Target(s'.jobs[i]) != Target(s'.jobs[e]) {
        assert Owns(s, i, Target(s.jobs[i]));
      }
    }
  }

  /** Write-once durability under every interleaving: from a state in which no
      old request can still destroy anything, as long as every later request on
      `r` carries writeOnce, the config and every non-lock blob whose content
      matches its name keep the same bytes. */
  lemma {:induction false} WriteOnceDurability(h: Hash, s: State, es: seq<Event>, r: string, loc: Loc)
    requires WriteOnce(h, s, r) && OnlyWriteOnce(es, r)
    requires loc.bucket == r
    ensures WriteOnce(h, Run(h, s, es), r)
    ensures Durable(h, s, loc) ==>
      loc in Run(h, s, es).store.objects && Run(h, s, es).store.objects[loc] == s.store.objects[loc]
    decreases |es|
  {
    if es != [] {
      WriteOnceStep(h, s, es[0], r, loc);
      WriteOnceDurability(h, Apply(h, s, es[0]), es[1..], r, loc);
    }
  }

  /** An upload answered 200 is stored, and in a write-once repository it stays
      readable with exactly the bytes sent, whatever runs after it. */
  lemma AcknowledgedUploadIsPermanent(h: Hash, s: State, id: nat, ok: bool, es: seq<Event>)
    requires id in s.jobs && s.jobs[id].pc == Called && Uploads(s.jobs[id])
    requires WriteOnce(h, s, s.jobs[id].auth.repository)
    requires OnlyWriteOnce(es, s.jobs[id].auth.repository)
    requires Protected(Target(s.jobs[id]).key)
    ensures var s' := Apply(h, s, PutObject(id, ok));
      id in s'.replies && s'.replies[id] == 200 ==>
        && Target(s.jobs[id]) !in s.store.objects
        && Target(s.jobs[id]) in Run(h, s', es).store.objects
        && Run(h, s', es).store.objects[Target(s.jobs[id])] == s.jobs[id].request.body
  {
    var loc := Target(s.jobs[id]);
    WriteOnceStep(h, s, PutObject(id, ok), loc.bucket, loc);
    WriteOnceDurability(h, Apply(h, s, PutObject(id, ok)), es, loc.bucket, loc);
  }

  /** Once no request with the power to overwrite or delete is left on `r`, and
      no clean-up is owed there, durability applies from that state on. */
  ghost predicate Drained(s: State, r: string) {
    forall id | id in s.jobs && s.jobs[id].auth.repository == r ::
      s.jobs[id].auth.writeOnce && s.jobs[id].pc != Landed
  }

  lemma DrainedIsWriteOnce(h: Hash, s: State, r: string)
    requires WellFormed(h, s) && Drained(s, r)
    ensures WriteOnce(h, s, r)
  {
  }

  // ---- When a stored blob is safe, locks included -------------------------------

  /** A request in flight that can still remove what is stored at `loc`: one that
      owes a clean-up there, or a deletion that passed its guard. */
  predicate Threatens(job: Job, loc: Loc) {
    Target(job) == loc && (job.pc == Landed || !Uploads(job))
  }

  ghost predicate Unthreatened(s: State, loc: Loc) {
    forall id | id in s.jobs :: !Threatens(s.jobs[id], loc)
  }

  /** The arrival of a deletion of `loc` that no guard refuses. */
  predicate AdmitsDeletion(e: Event, loc: Loc) {
    && e.Arrive? && e.request.DeleteBlob?
    && Refusal(e.path, e.auth, e.request) == None
    && Target(Job(e.auth, e.request, Called)) == loc
  }

  predicate AdmitsNoDeletion(es: seq<Event>, loc: Loc) {
    forall e | e in es :: !AdmitsDeletion(e, loc)
  }

  /** The blob at `loc` keeps its bytes in every continuation that admits no
      deletion of it. */
  ghost predicate KeepsBytes(h: Hash, s: State, loc: Loc)
    requires loc in s.store.objects
  {
    forall es | AdmitsNoDeletion(es, loc) ::
      loc in Run(h, s, es).store.objects && Run(h, s, es).store.objects[loc] == s.store.objects[loc]
  }

  /** What one step does to an unthreatened blob: nothing. */
  lemma UnthreatenedCases(h: Hash, s: State, s': State, e: nat, loc: Loc)
    requires WellFormed(h, s) && loc in s.store.objects && loc.key != CONFIG && Unthreatened(s, loc)
    requires e in s.jobs && s.jobs[e].request.SaveConfig? ==> Target(s.jobs[e]).key == CONFIG
    requires e in s'.jobs && e !in s.jobs ==> !Threatens(s'.jobs[e], loc)
    requires Wrote(h, s, s', e) || Removed(s, s', e) || Idle(s, s', e)
    ensures Unthreatened(s', loc)
    ensures loc in s'.store.objects && s'.store.objects[loc] == s.store.objects[loc]
  {
    forall id | id in s'.jobs && id != e ensures id in s.jobs && s'.jobs[id] == s.jobs[id] {
      assert id in s'.jobs - {e};
      assert s'.jobs - {e} == s.jobs - {e};
    }
    if e in s.jobs { assert !Threatens(s.jobs[e], loc); }
  }

  lemma {:induction false} UnthreatenedStep(h: Hash, s: State, e: Event, loc: Loc)
    requires WellFormed(h, s) && loc in s.store.objects && loc.key != CONFIG && Unthreatened(s, loc)
    requires !AdmitsDeletion(e, loc)
    ensures Unthreatened(Apply(h, s, e), loc)
    ensures loc in Apply(h, s, e).store.objects && Apply(h, s, e).store.objects[loc] == s.store.objects[loc]
  {
    StepCases(h, s, e);
    UnthreatenedCases(h, s, Apply(h, s, e), e.id, loc);
  }

  lemma {:induction false} UnthreatenedRun(h: Hash, s: State, es: seq<Event>, loc: Loc)
    requires WellFormed(h, s) && loc in s.store.objects && loc.key != CONFIG && Unthreatened(s, loc)
    requires AdmitsNoDeletion(es, loc)
    ensures WellFormed(h, Run(h, s, es)) && Unthreatened(Run(h, s, es), loc)
    ensures loc in Run(h, s, es).store.objects && Run(h, s, es).store.objects[loc] == s.store.objects[loc]
    decreases |es|
  {
    if es != [] {
      WellFormedStep(h, s, es[0]);
      UnthreatenedStep(h, s, es[0], loc);
      UnthreatenedRun(h, Apply(h, s, es[0]), es[1..], loc);
    }
  }

  /** The storage calls with which a threat removes the object. */
  function Strike(id: nat, job: Job): seq<Event> {
    if job.pc == Called then [HeadObject(id, true), DeleteObject(id, true)] else [DeleteObject(id, true)]
  }

  lemma {:induction false} StrikeRemoves(h: Hash, s: State, id: nat, loc: Loc)
    requires id in s.jobs && loc in s.store.objects && Threatens(s.jobs[id], loc)
    ensures loc !in Run(h, s, Strike(id, s.jobs[id])).store.objects
  {
    var es := Strike(id, s.jobs[id]);
    RunFrom(h, s, es, 0);
    if s.jobs[id].pc == Called {
      var s1 := Apply(h, s, es[0]);
      assert s1.jobs[id] == s.jobs[id].(pc := Measured(|s.store.objects[loc]|));
      RunFrom(h, s1, es, 1);
    }
  }

  /** Exactly when a stored blob is safe, a lock or any other, write-once or not:
      as long as no deletion of it is admitted it keeps its bytes in every run if
      and only if no request in flight owes a clean-up at its key or is already
      deleting it. */
  lemma {:induction false} BlobIsSafeIff(h: Hash, s: State, loc: Loc)
    requires WellFormed(h, s) && loc in s.store.objects && loc.key != CONFIG
    ensures KeepsBytes(h, s, loc) <==> Unthreatened(s, loc)
  {
    if Unthreatened(s, loc) {
      forall es | AdmitsNoDeletion(es, loc)
        ensures loc in Run(h, s, es).store.objects && Run(h, s, es).store.objects[loc] == s.store.objects[loc]
      {
        UnthreatenedRun(h, s, es, loc);
      }
    } else {
      var id :| id in s.jobs && Threatens(s.jobs[id], loc);
      StrikeRemoves(h, s, id, loc);
      assert AdmitsNoDeletion(Strike(id, s.jobs[id]), loc);
    }
  }

  /** A write-once repository admits no deletion of a blob that is not a lock. */
  lemma {:induction false} WriteOnceAdmitsNoDeletion(es: seq<Event>, r: string, loc: Loc)
    requires OnlyWriteOnce(es, r) && loc.bucket == r && Protected(loc.key)
    ensures AdmitsNoDeletion(es, loc)
  {
    forall e | e in es ensures !AdmitsDeletion(e, loc) {
      if AdmitsDeletion(e, loc) { BlobKeyParts(e.request.blobType, e.request.name); }
    }
  }

  /** What a failed clean-up leaves in a write-once repository is there for good:
      whatever runs afterwards, the wrong bytes stay under that name, and every
      upload to it that storage does not fail, the right content included, is
      answered 403. */
  lemma {:induction false} LeftoverIsPermanent(h: Hash, s: State, es: seq<Event>, r: string, loc: Loc, id: nat)
    requires WellFormed(h, s) && OnlyWriteOnce(es, r) && loc.bucket == r && Protected(loc.key)
    requires loc in s.store.objects && !Matches(h, loc, s.store.objects[loc]) && Unthreatened(s, loc)
    ensures var s' := Run(h, s, es);
      && loc in s'.store.objects && s'.store.objects[loc] == s.store.objects[loc]
      && (id in s'.jobs && Uploads(s'.jobs[id]) && Target(s'.jobs[id]) == loc
          && s'.jobs[id].request.contentLength == |s'.jobs[id].request.body| ==>
            Apply(h, s', PutObject(id, true)) == Finish(s', id, s'.store, 403))
  {
    WriteOnceAdmitsNoDeletion(es, r, loc);
    UnthreatenedRun(h, s, es, loc);
    var s' := Run(h, s, es);
    if id in s'.jobs && Target(s'.jobs[id]) == loc { assert !Threatens(s'.jobs[id], loc); }
  }

  /** Under write-once tokens only an owed clean-up threatens a protected blob. */
  lemma {:induction false} OnlyOwedThreatens(h: Hash, s: State, r: string, loc: Loc)
    requires WriteOnce(h, s, r) && loc.bucket == r && Protected(loc.key)
    requires forall id | Owed(s, r, id) :: Target(s.jobs[id]) != loc
    ensures Unthreatened(s, loc)
  {
    forall id | id in s.jobs ensures !Threatens(s.jobs[id], loc) {
      TargetReachable(h, s, id);
    }
  }

  /** So it is from the moment a clean-up fails. */
  lemma {:induction false} FailedCleanUpIsPermanent(h: Hash, s: State, r: string, owner: nat, es: seq<Event>, id: nat)
    requires WriteOnce(h, s, r) && OnlyWriteOnce(es, r) && Owed(s, r, owner)
    ensures var loc, s' := Target(s.jobs[owner]), Run(h, Apply(h, s, DeleteObject(owner, false)), es);
      && loc in s'.store.objects && s'.store.objects[loc] == s.jobs[owner].request.body
      && (id in s'.jobs && Uploads(s'.jobs[id]) && Target(s'.jobs[id]) == loc
          && s'.jobs[id].request.contentLength == |s'.jobs[id].request.body| ==>
            Apply(h, s', PutObject(id, true)) == Finish(s', id, s'.store, 403))
  {
    var loc, s1 := Target(s.jobs[owner]), Apply(h, s, DeleteObject(owner, false));
    WriteOnceStep(h, s, DeleteObject(owner, false), r, loc);
    assert Owns(s, owner, loc);
    assert s1.store.objects == s.store.objects && s1.jobs == s.jobs - {owner};
    forall i | Owed(s1, r, i) ensures Target(s1.jobs[i]) != loc { assert Owed(s, r, i) && i != owner; }
    OnlyOwedThreatens(h, s1, r, loc);
    LeftoverIsPermanent(h, s1, es, r, loc, id);
  }

  // ---- Why the conditions are needed -----------------------------------------

  const WRITER := Auth("u", "r", true)

  function LockLoc(name: string): Loc {
    Loc("r", BlobKey("locks", name))
  }

  function Upload(name: string, body: Bytes): Request {
    SaveBlob("locks", name, body, |body|)
  }

  lemma UploadLock(h: Hash, s: State, id: nat, name: string, body: Bytes)
    requires ValidBlobName(name)
    requires id !in s.jobs && id !in s.replies && LockLoc(name) !in s.store.objects
    ensures var s' := Apply(h, Apply(h, s, Arrive(id, "r", WRITER, Upload(name, body))), PutObject(id, true));
      && s'.store.objects == s.store.objects[LockLoc(name) := body]
      && s'.jobs == (if h(body) == name then s.jobs else s.jobs[id := Job(WRITER, Upload(name, body), Landed)])
      && s'.replies == (if h(body) == name then s.replies[id := 200] else s.replies)
  {
    BlobKeyParts("locks", name);
    var s1 := Apply(h, s, Arrive(id, "r", WRITER, Upload(name, body)));
    assert s1 == s.(jobs := s.jobs[id := Job(WRITER, Upload(name, body), Called)]);
    assert s1.jobs - {id} == s.jobs;
  }

  lemma RemoveLock(h: Hash, s: State, id: nat, name: string)
    requires ValidBlobName(name)
    requires id !in s.jobs && id !in s.replies && LockLoc(name) in s.store.objects
    ensures var s' := Apply(h, Apply(h, Apply(h, s, Arrive(id, "r", WRITER, DeleteBlob("locks", name))),
                                     HeadObject(id, true)), DeleteObject(id, true));
      && s'.store.objects == s.store.objects - {LockLoc(name)}
      && s'.jobs == s.jobs
      && s'.replies == s.replies[id := 200]
  {
    var job := Job(WRITER, DeleteBlob("locks", name), Called);
    var s1 := Apply(h, s, Arrive(id, "r", WRITER, DeleteBlob("locks", name)));
    assert s1 == s.(jobs := s.jobs[id := job]);
    var s2 := Apply(h, s1, HeadObject(id, true));
    assert s2 == s.(jobs := s.jobs[id := job.(pc := Measured(|s.store.objects[LockLoc(name)]|))]);
    assert s2.jobs - {id} == s.jobs;
  }

  /** Locks are not covered by durability: a lock may be deleted, so the
      clean-up of a wrong upload can outlive the object it put and remove a good
      lock stored since, all under write-once tokens. */
  lemma LateCleanupCanRemoveAGoodLock(h: Hash, name: string, right: Bytes, wrong: Bytes)
    requires ValidBlobName(name) && h(right) == name && h(wrong) != name
    ensures exists es: seq<Event>, last: Event ::
      && OnlyWriteOnce(es + [last], "r")
      && LockLoc(name) in Run(h, EMPTY, es).store.objects
      && Run(h, EMPTY, es).store.objects[LockLoc(name)] == right
      && LockLoc(name) !in Run(h, EMPTY, es + [last]).store.objects
  {
    var e := [Arrive(0, "r", WRITER, Upload(name, wrong)), PutObject(0, true),
              Arrive(1, "r", WRITER, DeleteBlob("locks", name)), HeadObject(1, true), DeleteObject(1, true),
              Arrive(2, "r", WRITER, Upload(name, right)), PutObject(2, true)];
    var last := DeleteObject(0, true);
    LockHistory(h, name, right, wrong, e);
    RunAppend(h, EMPTY, e, [last]);
    CleanUp(h, Run(h, EMPTY, e), 0, name, wrong);
    assert OnlyWriteOnce(e + [last], "r");
    assert LockLoc(name) in Run(h, EMPTY, e).store.objects;
  }

  lemma CleanUp(h: Hash, s: State, id: nat, name: string, body: Bytes)
    requires id in s.jobs && s.jobs[id] == Job(WRITER, Upload(name, body), Landed)
    ensures LockLoc(name) !in Run(h, s, [DeleteObject(id, true)]).store.objects
  {
    var last := DeleteObject(id, true);
    assert [last][1..] == [];
    assert Run(h, s, [last]) == Run(h, Apply(h, s, last), []);
  }

  lemma LockHistory(h: Hash, name: string, right: Bytes, wrong: Bytes, e: seq<Event>)
    requires ValidBlobName(name) && h(right) == name && h(wrong) != name
    requires e == [Arrive(0, "r", WRITER, Upload(name, wrong)), PutObject(0, true),
                   Arrive(1, "r", WRITER, DeleteBlob("locks", name)), HeadObject(1, true), DeleteObject(1, true),
                   Arrive(2, "r", WRITER, Upload(name, right)), PutObject(2, true)]
    ensures var s := Run(h, EMPTY, e);
      && s.store.objects == map[LockLoc(name) := right]
      && s.jobs == map[0 := Job(WRITER, Upload(name, wrong), Landed)]
  {
    UploadLock(h, EMPTY, 0, name, wrong);
    var s2 := Apply(h, Apply(h, EMPTY, e[0]), e[1]);
    RemoveLock(h, s2, 1, name);
    var s5 := Apply(h, Apply(h, Apply(h, s2, e[2]), e[3]), e[4]);
    UploadLock(h, s5, 2, name, right);
    RunOfSeven(h, EMPTY, e);
  }

  lemma {:induction false} RunOfSeven(h: Hash, s: State, e: seq<Event>)
    requires |e| == 7
    ensures Run(h, s, e) ==
      Apply(h, Apply(h, Apply(h, Apply(h, Apply(h, Apply(h, Apply(h, s, e[0]), e[1]), e[2]), e[3]), e[4]), e[5]), e[6])
  {
    RunFrom(h, s, e, 0);
    var s1 := Apply(h, s, e[0]); RunFrom(h, s1, e, 1);
    var s2 := Apply(h, s1, e[1]); RunFrom(h, s2, e, 2);
    var s3 := Apply(h, s2, e[2]); RunFrom(h, s3, e, 3);
    var s4 := Apply(h, s3, e[3]); RunFrom(h, s4, e, 4);
    var s5 := Apply(h, s4, e[4]); RunFrom(h, s5, e, 5);
    RunFrom(h, Apply(h, s5, e[5]), e, 6);
  }

  lemma RunFrom(h: Hash, s: State, e: seq<Event>, i: nat)
    requires i < |e|
    ensures Run(h, s, e[i..]) == Run(h, Apply(h, s, e[i]), e[i + 1..])
    ensures e[0..] == e && e[|e|..] == []
  {
    assert e[i..][1..] == e[i + 1..];
  }
}
