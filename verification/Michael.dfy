/** The storage client and the request handlers as objects that change in
    place, proved against the step-by-step model served one request at a time. */
module Michael {
  import opened Prelude
  import opened BlobStore
  import opened StoredBytes

  datatype PutResult = Done | PreconditionFailed | ChecksumMismatch | StorageError

  /** The S3 client. `ok` parameters say whether the store accepted a call. */
  class S3Storage {
    const sha256: Hash
    var objects: map<Loc, Bytes>

    constructor (sha256: Hash)
      ensures this.sha256 == sha256 && objects == map[]
    {
      this.sha256 := sha256;
      objects := map[];
    }

    method HeadObject(loc: Loc, ok: bool) returns (size: Option<nat>)
      ensures size == if ok && loc in objects then Some(|objects[loc]|) else None
    {
      if ok && loc in objects { size := Some(|objects[loc]|); } else { size := None; }
    }

    method DeleteObject(loc: Loc, ok: bool) returns (deleted: bool)
      modifies this
      ensures deleted == ok
      ensures objects == if ok then old(objects) - {loc} else old(objects)
    {
      if ok { objects := objects - {loc}; }
      deleted := ok;
    }

    /** Stores first, compares hashes afterwards, and removes what it stored when
        they differ; `sha256Hex` is empty for a config. */
    method PutObject(loc: Loc, body: Bytes, contentLength: int, writeOnce: bool, sha256Hex: string, ok: bool, cleanUpOk: bool)
      returns (r: PutResult)
      modifies this
      ensures r == StorageError <==> !ok || contentLength != |body|
      ensures r == PreconditionFailed <==>
        ok && contentLength == |body| && writeOnce && loc in old(objects)
      ensures r == ChecksumMismatch ==> sha256Hex != "" && sha256(body) != sha256Hex
      ensures r == Done ==> sha256Hex == "" || sha256(body) == sha256Hex
      ensures objects ==
        (match r
         case Done => old(objects)[loc := body]
         case ChecksumMismatch => if cleanUpOk then old(objects) - {loc} else old(objects)[loc := body]
         case _ => old(objects))
    {
      if !ok || contentLength != |body| {
        return StorageError;
      }
      if writeOnce && loc in objects {
        return PreconditionFailed;
      }
      objects := objects[loc := body];
      if sha256Hex != "" {
        var actual := sha256(body);
        if actual != sha256Hex {
          var _ := DeleteObject(loc, cleanUpOk);
          assert cleanUpOk ==> objects == old(objects) - {loc};
          return ChecksumMismatch;
        }
      }
      return Done;
    }
  }

  /** The store and the answer after `request` are the model's, and the counter is
      as far from the truth as before in every bucket. */
  ghost predicate Served(h: Hash, before: Store, after: Store, auth: Auth, request: Request, first: bool, second: bool, status: int) {
    && after == Serve(h, before, auth, request, first, second).store
    && Serve(h, before, auth, request, first, second).replies == map[0 := status]
    && forall b :: Gap(after, b) == Gap(before, b)
  }

  lemma ServedIf(h: Hash, before: Store, after: Store, auth: Auth, request: Request, first: bool, second: bool, status: int)
    requires after == Serve(h, before, auth, request, first, second).store
    requires Serve(h, before, auth, request, first, second).replies == map[0 := status]
    ensures Served(h, before, after, auth, request, first, second, status)
  {
    forall b ensures Gap(after, b) == Gap(before, b) {
      ServeConserves(h, before, auth, request, first, second, b);
    }
  }

  /** The counter of the caller's account moved by `n`, no other moved. */
  ghost predicate Moved(before: Store, after: Store, auth: Auth, n: int) {
    forall a :: At(after.counter, a) == At(before.counter, a) + if a == Account(auth.user, auth.repository) then n else 0
  }

  /** An upload to `loc`: 500 when the put fails or the announced length is wrong, 403
      when the key is taken and the put conditional, 400 when the content is not the
      named one. Only a 200 is counted; a 400 leaves its object exactly when the
      clean-up fails, and everything else leaves the objects alone. */
  ghost predicate Saved(before: Store, after: Store, auth: Auth, loc: Loc, body: Bytes, contentLength: int, conditional: bool, named: bool, put: bool, cleanUp: bool, status: int) {
    && (status == 500 <==> !put || contentLength != |body|)
    && (status == 403 <==> put && contentLength == |body| && conditional && loc in before.objects)
    && (status == 400 <==> put && contentLength == |body| && !(conditional && loc in before.objects) && !named)
    && status in {200, 400, 403, 500}
    && (status == 200 || (status == 400 && !cleanUp) ==> after.objects == before.objects[loc := body])
    && (status == 400 && cleanUp ==> after.objects == before.objects - {loc})
    && (status in {403, 500} ==> after.objects == before.objects)
    && Moved(before, after, auth, if status == 200 then |body| else 0)
  }

  /** A deletion of `loc`: 403 exactly when forbidden; otherwise 200 exactly when the
      object is there and storage accepts both calls, and then exactly that object is
      gone and its size is off the caller's counter. Else nothing changes. */
  ghost predicate Deleted(before: Store, after: Store, auth: Auth, loc: Loc, forbidden: bool, head: bool, delete: bool, status: int) {
    && (status == 403 <==> forbidden)
    && (status == 200 <==> !forbidden && loc in before.objects && head && delete)
    && status in {200, 403, 500}
    && (status == 200 ==> after.objects == before.objects - {loc} && Moved(before, after, auth, -|before.objects[loc]|))
    && (status != 200 ==> after.objects == before.objects && after.counter == before.counter)
  }

  /** The handlers with the counter; the ghost fields are the history that the
      model keeps. Middlewares have already validated blob types and names. */
  class Server {
    const storage: S3Storage
    var counter: map<Account, int>
    ghost var orphans: set<Loc>
    ghost var overwritten: map<string, int>
    ghost var abandoned: map<string, int>

    constructor (storage: S3Storage)
      requires storage.objects == map[]
      ensures this.storage == storage && View() == EMPTY_STORE
    {
      this.storage := storage;
      counter := map[];
      orphans, overwritten, abandoned := {}, map[], map[];
    }

    ghost function View(): Store
      reads this, storage
    {
      Store(storage.objects, counter, orphans, overwritten, abandoned)
    }

    method Add(auth: Auth, n: int)
      modifies this`counter
      ensures counter == Bump(old(counter), Account(auth.user, auth.repository), n)
    {
      var a := Account(auth.user, auth.repository);
      counter := counter[a := (if a in counter then counter[a] else 0) + n];
    }

    method SaveBlob(auth: Auth, blobType: string, name: string, body: Bytes, contentLength: int, first: bool, second: bool)
      returns (status: int)
      requires ValidBlobType(blobType) && ValidBlobName(name)
      modifies this, storage
      ensures Served(storage.sha256, old(View()), View(), auth, Request.SaveBlob(blobType, name, body, contentLength), first, second, status)
      ensures Saved(old(View()), View(), auth, Loc(auth.repository, blobType + "/" + name), body, contentLength, true, storage.sha256(body) == name, first, second, status)
    {
      var loc := Loc(auth.repository, BlobKey(blobType, name));
      ghost var job := Job(auth, Request.SaveBlob(blobType, name, body, contentLength), Called);
      BlobKeyParts(blobType, name);
      SaveSteps(storage.sha256, View(), auth, job.request, first, second);
      var r := storage.PutObject(loc, body, contentLength, true, name, first, second);
      match r {
        case PreconditionFailed => status := 403;
        case StorageError => status := 500;
        case ChecksumMismatch =>
          overwritten := Bump(overwritten, auth.repository, 0);
          if !second {
            orphans := orphans + {loc};
            abandoned := Bump(abandoned, auth.repository, |body|);
          }
          status := 400;
        case Done =>
          overwritten := Bump(overwritten, auth.repository, 0);
          if contentLength > 0 { Add(auth, contentLength); }
          status := 200;
      }
      ServedIf(storage.sha256, old(View()), View(), auth, job.request, first, second, status);
    }

    method SaveConfig(auth: Auth, body: Bytes, contentLength: int, first: bool, second: bool)
      returns (status: int)
      modifies this, storage
      ensures Served(storage.sha256, old(View()), View(), auth, Request.SaveConfig(body, contentLength), first, second, status)
      ensures Saved(old(View()), View(), auth, Loc(auth.repository, "config"), body, contentLength, auth.writeOnce, true, first, second, status)
    {
      var loc := Loc(auth.repository, CONFIG);
      ghost var request := Request.SaveConfig(body, contentLength);
      SaveSteps(storage.sha256, View(), auth, request, first, second);
      ghost var lost := if loc in storage.objects then |storage.objects[loc]| else 0;
      var r := storage.PutObject(loc, body, contentLength, auth.writeOnce, "", first, true);
      if r == PreconditionFailed {
        status := 403;
      } else if r == StorageError {
        status := 500;
      } else {
        overwritten := Bump(overwritten, auth.repository, lost);
        if contentLength > 0 { Add(auth, contentLength); }
        status := 200;
      }
      ServedIf(storage.sha256, old(View()), View(), auth, request, first, second, status);
    }

    method DeleteBlob(auth: Auth, blobType: string, name: string, first: bool, second: bool)
      returns (status: int)
      requires ValidBlobType(blobType) && ValidBlobName(name)
      modifies this, storage
      ensures Served(storage.sha256, old(View()), View(), auth, Request.DeleteBlob(blobType, name), first, second, status)
      ensures Deleted(old(View()), View(), auth, Loc(auth.repository, blobType + "/" + name), auth.writeOnce && blobType != "locks", first, second, status)
    {
      ghost var request := Request.DeleteBlob(blobType, name);
      DeleteSteps(storage.sha256, View(), auth, request, first, second);
      if auth.writeOnce && blobType != "locks" {
        status := 403;
      } else {
        status := Remove(auth, Loc(auth.repository, BlobKey(blobType, name)), first, second);
      }
      ServedIf(storage.sha256, old(View()), View(), auth, request, first, second, status);
    }

    method DeleteConfig(auth: Auth, first: bool, second: bool) returns (status: int)
      modifies this, storage
      ensures Served(storage.sha256, old(View()), View(), auth, Request.DeleteConfig, first, second, status)
      ensures Deleted(old(View()), View(), auth, Loc(auth.repository, "config"), auth.writeOnce, first, second, status)
    {
      DeleteSteps(storage.sha256, View(), auth, Request.DeleteConfig, first, second);
      if auth.writeOnce {
        status := 403;
      } else {
        status := Remove(auth, Loc(auth.repository, CONFIG), first, second);
      }
      ServedIf(storage.sha256, old(View()), View(), auth, Request.DeleteConfig, first, second, status);
    }

    /** The part the two deletion handlers have in common: head, delete, count. */
    method Remove(auth: Auth, loc: Loc, first: bool, second: bool) returns (status: int)
      modifies this, storage
      ensures (View(), status) == Removal(old(View()), auth, loc, first, second)
    {
      var size := storage.HeadObject(loc, first);
      if size == None {
        return 500;
      }
      var deleted := storage.DeleteObject(loc, second);
      if !deleted {
        return 500;
      }
      var n: int := size.value;
      if n > 0 { Add(auth, -n); }
      return 200;
    }
  }

  /** What a deletion that passed its guard does to the store, and its answer. */
  function Removal(store: Store, auth: Auth, loc: Loc, first: bool, second: bool): (Store, int) {
    if !first || loc !in store.objects || !second then (store, 500)
    else
      var removed := store.(objects := store.objects - {loc});
      var size: int := |store.objects[loc]|;
      (if size > 0 then Count(removed, auth, 0 - size) else removed, 200)
  }

  /** A deletion served alone is refused by its guard or is a `Removal`. */
  lemma DeleteSteps(h: Hash, store: Store, auth: Auth, request: Request, first: bool, second: bool)
    requires request.DeleteBlob? || request.DeleteConfig?
    ensures var s := Serve(h, store, auth, request, first, second);
      match Refusal(auth.repository, auth, request)
      case Some(status) => s.store == store && s.replies == map[0 := status]
      case None =>
        var (after, status) := Removal(store, auth, Target(Job(auth, request, Called)), first, second);
        s.store == after && s.replies == map[0 := status]
  {
    ServeSteps(h, store, auth, request, first, second);
    var e := Script(auth, request, first, second);
    var s2 := Apply(h, Apply(h, State(store, map[], map[]), e[0]), e[1]);
    if Refusal(auth.repository, auth, request) == None {
      assert s2 == State(store, map[0 := Job(auth, request, Called)], map[]);
    } else {
      assert s2.store == store && s2.jobs == map[];
    }
  }

  /** An upload served alone, in one expression. */
  lemma SaveSteps(h: Hash, store: Store, auth: Auth, request: Request, first: bool, second: bool)
    requires request.SaveBlob? || request.SaveConfig?
    requires Refusal(auth.repository, auth, request) == None
    ensures var s, job := Serve(h, store, auth, request, first, second), Job(auth, request, Called);
      if !first || request.contentLength != |request.body| then
        s.store == store && s.replies == map[0 := 500]
      else if Conditional(job) && Target(job) in store.objects then
        s.store == store && s.replies == map[0 := 403]
      else if Matches(h, Target(job), request.body) then
        s.store == Written(h, store, job) && s.replies == map[0 := 200]
      else
        var w := Written(h, store, job);
        && s.replies == map[0 := 400]
        && s.store == (if second then w.(objects := w.objects - {Target(job)})
                       else w.(orphans := w.orphans + {Target(job)},
                               abandoned := Bump(w.abandoned, auth.repository, |request.body|)))
  {
    ServeSteps(h, store, auth, request, first, second);
    var e := Script(auth, request, first, second);
    var s1 := Apply(h, State(store, map[], map[]), e[0]);
    assert s1 == State(store, map[0 := Job(auth, request, Called)], map[]);
    assert Apply(h, s1, e[1]) == Put(h, s1, 0, first);
  }

  /** A deletion in the step model, served alone: for every authority, legal type and
      legal name it is answered 403 exactly when the token is write-once and the
      type not "locks"; the config's exactly when the token is write-once. */
  lemma {:induction false} DeleteServed(h: Hash, store: Store, auth: Auth, request: Request, first: bool, second: bool)
    requires request.DeleteBlob? || request.DeleteConfig?
    requires request.DeleteBlob? ==> Routable(request.blobType, request.name)
    ensures var s := Serve(h, store, auth, request, first, second);
      && s.replies.Keys == {0}
      && (match request
          case DeleteBlob(t, n) =>
            Deleted(store, s.store, auth, Loc(auth.repository, t + "/" + n), auth.writeOnce && t != "locks", first, second, s.replies[0])
          case _ =>
            Deleted(store, s.store, auth, Loc(auth.repository, "config"), auth.writeOnce, first, second, s.replies[0]))
  {
    DeleteSteps(h, store, auth, request, first, second);
    if request.DeleteBlob? { RoutableIff(request.blobType, request.name); }
  }

  lemma {:induction false} WrittenMoves(h: Hash, store: Store, job: Job)
    requires Uploads(job) && job.request.contentLength == |job.request.body|
    ensures Written(h, store, job).objects == store.objects[Target(job) := job.request.body]
    ensures Moved(store, Written(h, store, job), job.auth, if Matches(h, Target(job), job.request.body) then |job.request.body| else 0)
  {
  }

  /** An upload in the step model, served alone; a config is put conditionally exactly
      when the token is write-once and has no hash to match. */
  lemma {:induction false} SaveServed(h: Hash, store: Store, auth: Auth, request: Request, first: bool, second: bool)
    requires request.SaveBlob? || request.SaveConfig?
    requires request.SaveBlob? ==> Routable(request.blobType, request.name)
    ensures var s := Serve(h, store, auth, request, first, second);
      && s.replies.Keys == {0}
      && (match request
          case SaveBlob(t, n, body, length) =>
            Saved(store, s.store, auth, Loc(auth.repository, t + "/" + n), body, length, true, h(body) == n, first, second, s.replies[0])
          case SaveConfig(body, length) =>
            Saved(store, s.store, auth, Loc(auth.repository, "config"), body, length, auth.writeOnce, true, first, second, s.replies[0])
          case _ => true)
  {
    if request.SaveBlob? {
      RoutableIff(request.blobType, request.name);
      BlobKeyParts(request.blobType, request.name);
    }
    SaveSteps(h, store, auth, request, first, second);
    if request.contentLength == |request.body| { WrittenMoves(h, store, Job(auth, request, Called)); }
  }
}
