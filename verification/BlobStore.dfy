/** Michael: restic requests served as sequences of storage calls.

    Each storage call is one atomic step and any number of requests is in
    flight. SHA-256 (rendered as lower-case hex) is an arbitrary function `h`;
    a conditional put fails when the key exists (section 13.1.2 of RFC 9110,
    `If-None-Match: *`); a storage call that fails changes nothing. */
module BlobStore {
  import opened Prelude

  type Bytes = seq<bv8>
  type Hash = Bytes -> string

  /** The authority a verified token gives a request. */
  datatype Auth = Auth(user: string, repository: string, writeOnce: bool)

  /** An object's place: the bucket is the repository. */
  datatype Loc = Loc(bucket: string, key: string)

  const CONFIG := "config"

  predicate ValidBlobType(t: string) {
    t in {"data", "index", "keys", "locks", "snapshots"}
  }

  predicate ValidBlobName(n: string) {
    |n| == 64 && forall c | c in n :: 'a' <= c <= 'f' || '0' <= c <= '9'
  }

  function BlobKey(blobType: string, name: string): string {
    blobType + "/" + name
  }

  /** The blob name at the end of an object key. */
  function NameOf(key: string): string {
    if |key| < 64 then key else key[|key| - 64..]
  }

  /** The blob type at the front of an object key. */
  function TypeOf(key: string): string {
    if |key| < 65 then "" else key[..|key| - 65]
  }

  lemma BlobKeyParts(blobType: string, name: string)
    requires |name| == 64
    ensures NameOf(BlobKey(blobType, name)) == name
    ensures TypeOf(BlobKey(blobType, name)) == blobType
    ensures BlobKey(blobType, name) != CONFIG
  {
    var key := BlobKey(blobType, name);
    assert key[|key| - 64..] == name;
    assert key[..|key| - 65] == blobType;
  }

  datatype Request =
    | SaveBlob(blobType: string, name: string, body: Bytes, contentLength: int)
    | DeleteBlob(blobType: string, name: string)
    | SaveConfig(body: Bytes, contentLength: int)
    | DeleteConfig

  /** Where a request in flight stands: no storage call yet, an object stored
      under the wrong name whose removal is still owed, or the size read that
      precedes a deletion. */
  datatype Pc = Called | Landed | Measured(size: nat)

  datatype Job = Job(auth: Auth, request: Request, pc: Pc)

  datatype Account = Account(user: string, repository: string)

  /** The buckets with the stored-bytes counter. The last three fields are
      history: places where a clean-up deletion failed, and per bucket the
      bytes of overwritten configs and of objects such clean-ups left. */
  datatype Store = Store(
    objects: map<Loc, Bytes>,
    counter: map<Account, int>,
    orphans: set<Loc>,
    overwritten: map<string, int>,
    abandoned: map<string, int>)

  datatype State = State(store: Store, jobs: map<nat, Job>, replies: map<nat, int>)

  const EMPTY_STORE := Store(map[], map[], {}, map[], map[])

  const EMPTY := State(EMPTY_STORE, map[], map[])

  function Target(job: Job): Loc {
    Loc(job.auth.repository,
        match job.request
        case SaveBlob(t, n, _, _) => BlobKey(t, n)
        case DeleteBlob(t, n) => BlobKey(t, n)
        case _ => CONFIG)
  }

  /** What the middlewares and the write-once guards answer before any storage
      call is made; None lets the request through. */
  function Refusal(path: string, auth: Auth, request: Request): Option<int> {
    if path != "" && path != auth.repository then Some(400)
    else match request
      case SaveBlob(t, n, _, _) =>
        if ValidBlobType(t) && ValidBlobName(n) then None else Some(400)
      case DeleteBlob(t, n) =>
        if !ValidBlobType(t) || !ValidBlobName(n) then Some(400)
        else if auth.writeOnce && t != "locks" then Some(403)
        else None
      case SaveConfig(_, _) => None
      case DeleteConfig => if auth.writeOnce then Some(403) else None
  }

  predicate Uploads(job: Job) {
    job.request.SaveBlob? || job.request.SaveConfig?
  }

  /** A blob is always put conditionally, a config only in a write-once
      repository. */
  predicate Conditional(job: Job) {
    job.request.SaveBlob? || job.auth.writeOnce
  }

  /** Does the content belong under this key? A config has no hash. */
  predicate Matches(h: Hash, loc: Loc, body: Bytes) {
    loc.key == CONFIG || h(body) == NameOf(loc.key)
  }

  function Bump<K>(m: map<K, int>, k: K, n: int): map<K, int> {
    m[k := (if k in m then m[k] else 0) + n]
  }

  function Count(store: Store, auth: Auth, n: int): Store {
    store.(counter := Bump(store.counter, Account(auth.user, auth.repository), n))
  }

  function Finish(s: State, id: nat, store: Store, status: int): State {
    State(store, s.jobs - {id}, s.replies[id := status])
  }

  datatype Event =
    | Arrive(id: nat, path: string, auth: Auth, request: Request)
    | PutObject(id: nat, ok: bool)
    | HeadObject(id: nat, ok: bool)
    | DeleteObject(id: nat, ok: bool)

  /** One step. An event that the addressed request cannot take changes
      nothing, so every list of events is a run. */
  function Apply(h: Hash, s: State, e: Event): State {
    match e
    case Arrive(id, path, auth, request) =>
      if id in s.jobs || id in s.replies then s
      else (match Refusal(path, auth, request)
            case Some(status) => Finish(s, id, s.store, status)
            case None => s.(jobs := s.jobs[id := Job(auth, request, Called)]))
    case PutObject(id, ok) =>
      if id in s.jobs && s.jobs[id].pc == Called && Uploads(s.jobs[id])
      then Put(h, s, id, ok) else s
    case HeadObject(id, ok) =>
      if id in s.jobs && s.jobs[id].pc == Called && !Uploads(s.jobs[id])
      then Head(s, id, ok) else s
    case DeleteObject(id, ok) =>
      if id in s.jobs && s.jobs[id].pc != Called then Delete(s, id, ok) else s
  }

  /** The store after an upload has been written; a size is counted unless the
      content turns out to be wrong. */
  function Written(h: Hash, store: Store, job: Job): Store
    requires Uploads(job)
  {
    var loc, body := Target(job), job.request.body;
    var lost := if loc in store.objects then |store.objects[loc]| else 0;
    var written := store.(objects := store.objects[loc := body],
                          overwritten := Bump(store.overwritten, loc.bucket, lost));
    if Matches(h, loc, body) && job.request.contentLength > 0
    then Count(written, job.auth, job.request.contentLength) else written
  }

  /** The put, accepted only when the announced length is the body's length;
      the hash is compared after the object has been stored. */
  function Put(h: Hash, s: State, id: nat, ok: bool): State
    requires id in s.jobs && Uploads(s.jobs[id])
  {
    var job := s.jobs[id];
    if !ok || job.request.contentLength != |job.request.body| then Finish(s, id, s.store, 500)
    else if Conditional(job) && Target(job) in s.store.objects then Finish(s, id, s.store, 403)
    else
      var store := Written(h, s.store, job);
      if Matches(h, Target(job), job.request.body) then Finish(s, id, store, 200)
      else State(store, s.jobs[id := job.(pc := Landed)], s.replies)
  }

  function Head(s: State, id: nat, ok: bool): State
    requires id in s.jobs
  {
    var loc := Target(s.jobs[id]);
    if ok && loc in s.store.objects
    then s.(jobs := s.jobs[id := s.jobs[id].(pc := Measured(|s.store.objects[loc]|))])
    else Finish(s, id, s.store, 500)
  }

  /** A deletion, either the handler's own or the clean-up after a checksum
      mismatch, whose failure is ignored. Deleting an absent key succeeds. */
  function Delete(s: State, id: nat, ok: bool): State
    requires id in s.jobs
  {
    var job := s.jobs[id];
    var loc := Target(job);
    var removed := s.store.(objects := s.store.objects - {loc});
    match job.pc
    case Measured(size) =>
      if !ok then Finish(s, id, s.store, 500)
      else Finish(s, id, if size > 0 then Count(removed, job.auth, 0 - size) else removed, 200)
    case _ =>
      if ok then Finish(s, id, removed, 400)
      else
        var left := if Uploads(job) then |job.request.body| else 0;
        Finish(s, id, s.store.(orphans := s.store.orphans + {loc},
                               abandoned := Bump(s.store.abandoned, loc.bucket, left)), 400)
  }

  const HEX := "0123456789abcdef"

  /** The routes of a blob, digit by digit. */
  predicate Routable(t: string, n: string) {
    && (t == "data" || t == "index" || t == "keys" || t == "locks" || t == "snapshots")
    && |n| == 64 && forall i | 0 <= i < 64 :: n[i] in HEX
  }

  /** An arriving request is let in with its token's authority exactly when it names
      the token's repository and a route, and is no deletion that write-once forbids:
      that of a config or of a blob other than a lock. It is answered 403 in that
      last case and 400 in the others; either way nothing stored changes. */
  lemma {:induction false} ArrivalIff(h: Hash, s: State, id: nat, path: string, auth: Auth, request: Request)
    requires id !in s.jobs && id !in s.replies
    ensures var s' := Apply(h, s, Arrive(id, path, auth, request));
      var known := (path == "" || path == auth.repository)
        && (request.SaveBlob? || request.DeleteBlob? ==> Routable(request.blobType, request.name));
      var forbidden := auth.writeOnce && (request.DeleteConfig? || (request.DeleteBlob? && request.blobType != "locks"));
      && s'.store == s.store
      && (if known && !forbidden then s'.jobs == s.jobs[id := Job(auth, request, Called)] && s'.replies == s.replies
          else s'.jobs == s.jobs && s'.replies == s.replies[id := if known then 403 else 400])
  {
    assert s.jobs - {id} == s.jobs;
    if request.SaveBlob? || request.DeleteBlob? { RoutableIff(request.blobType, request.name); }
  }

  lemma {:induction false} RoutableIff(t: string, n: string)
    ensures Routable(t, n) <==> ValidBlobType(t) && ValidBlobName(n)
  {
    forall i | 0 <= i < |n| ensures n[i] in HEX <==> 'a' <= n[i] <= 'f' || '0' <= n[i] <= '9' { HexDigit(n[i]); }
    if ValidBlobName(n) { assert forall i | 0 <= i < 64 :: n[i] in n; }
  }

  lemma {:induction false} HexDigit(c: char)
    ensures c in HEX <==> 'a' <= c <= 'f' || '0' <= c <= '9'
  {
    if '0' <= c <= '9' { assert HEX[c as int - '0' as int] == c; }
    if 'a' <= c <= 'f' { assert HEX[c as int - 'a' as int + 10] == c; }
  }

  function Run(h: Hash, s: State, es: seq<Event>): State
    decreases |es|
  {
    if es == [] then s else Run(h, Apply(h, s, es[0]), es[1..])
  }

  lemma {:induction false} RunAppend(h: Hash, s: State, es: seq<Event>, fs: seq<Event>)
    ensures Run(h, s, es + fs) == Run(h, Run(h, s, es), fs)
    decreases |es|
  {
    if es == [] {
      assert es + fs == fs;
    } else {
      assert (es + fs)[1..] == es[1..] + fs;
      RunAppend(h, Apply(h, s, es[0]), es[1..], fs);
    }
  }
}
