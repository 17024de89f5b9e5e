/** The customer API that issues tokens, and michael behind it: a repository's
    write-once flag from the moment it is switched on to the moment every
    accepted token carries it.

    Times are milliseconds of one clock. A token's expiry is in seconds and it is
    refused from that instant on (section 4.1.4 of RFC 7519). Every customer
    request is two steps, the read of the row with its checks and the write or
    signature, with other requests in between. */
module WormProtocol {
  import opened Prelude
  import opened BlobStore
  import opened BlobSafety

  datatype Row = Row(userId: string, worm: bool)

  datatype Call = Update(worm: Option<bool>) | Remove | CreateUrl

  datatype Failure = NotFound | Unauthorized | BadRequest

  datatype Token = Token(user: string, repository: string, writeOnce: bool, exp: nat)

  /** A customer request that has read its row and passed the checks. */
  datatype Pending = Pending(user: string, id: string, call: Call, seen: Row)

  datatype World = World(
    rows: map<string, Row>,
    used: set<string>,
    pending: map<nat, Pending>,
    tokens: set<Token>,
    now: nat,
    michael: State)

  datatype Step =
    | Create(id: string, user: string, worm: bool)
    | Read(call: nat, user: string, id: string, request: Call)
    | Write(call: nat)
    | Tick(ms: nat)
    | Present(job: nat, token: Token, path: string, blob: Request)
    | Storage(event: Event)

  /** The checks of `get`, `update`, `delete` and `createUrl` on the row read. */
  function Check(rows: map<string, Row>, user: string, id: string, request: Call): Result<Row, Failure> {
    if id !in rows then Err(NotFound)
    else if rows[id].userId != user then Err(Unauthorized)
    else if request.Update? && rows[id].worm && request.worm == Some(false) then Err(BadRequest)
    else if request.Remove? && rows[id].worm then Err(BadRequest)
    else Ok(rows[id])
  }

  /** The row table after the write; updating or deleting a missing row does nothing. */
  function Commit(rows: map<string, Row>, id: string, request: Call): map<string, Row> {
    match request
    case Update(worm) =>
      if id in rows && worm.Some? then rows[id := rows[id].(worm := worm.value)] else rows
    case Remove => rows - {id}
    case CreateUrl => rows
  }

  /** The token a `createUrl` signs at time `now`: issued-at in whole seconds,
      expiry one lifetime later, rounded down to seconds. */
  function Sign(p: Pending, now: nat, lifetimeMs: nat): Token {
    Token(p.user, p.id, p.seen.worm, (now / 1000 * 1000 + lifetimeMs) / 1000)
  }

  predicate Accepted(w: World, t: Token) {
    t in w.tokens && w.now < t.exp * 1000
  }

  /** The authority michael takes from an accepted token. */
  function ToAuth(t: Token): Auth {
    Auth(t.user, t.repository, t.writeOnce)
  }

  function Apply(h: Hash, lifetimeMs: nat, w: World, e: Step): World {
    match e
    case Create(id, user, worm) =>
      if id in w.used then w
      else w.(rows := w.rows[id := Row(user, worm)], used := w.used + {id})
    case Read(call, user, id, request) =>
      (match Check(w.rows, user, id, request)
       case Ok(row) =>
         if call in w.pending then w
         else w.(pending := w.pending[call := Pending(user, id, request, row)])
       case Err(_) => w)
    case Write(call) =>
      if call !in w.pending then w
      else
        var p := w.pending[call];
        w.(pending := w.pending - {call},
           rows := Commit(w.rows, p.id, p.call),
           tokens := if p.call.CreateUrl? then w.tokens + {Sign(p, w.now, lifetimeMs)} else w.tokens)
    case Tick(ms) => w.(now := w.now + ms)
    case Present(job, token, path, blob) =>
      if Accepted(w, token)
      then w.(michael := BlobStore.Apply(h, w.michael, Arrive(job, path, ToAuth(token), blob)))
      else w
    case Storage(event) =>
      if event.Arrive? then w else w.(michael := BlobStore.Apply(h, w.michael, event))
  }

  function Run(h: Hash, lifetimeMs: nat, w: World, es: seq<Step>): World
    decreases |es|
  {
    if es == [] then w else Run(h, lifetimeMs, Apply(h, lifetimeMs, w, es[0]), es[1..])
  }

  // ---- The flag is one-way -----------------------------------------------------

  predicate IsWorm(w: World, r: string) {
    r in w.rows && w.rows[r].worm
  }

  /** A request that read the row before the flag was set and will undo it. */
  predicate Undoes(p: Pending, r: string) {
    p.id == r && (p.call == Update(Some(false)) || p.call == Remove)
  }

  ghost predicate Committed(w: World, r: string) {
    IsWorm(w, r) && r in w.used && forall c | c in w.pending :: !Undoes(w.pending[c], r)
  }

  lemma CommittedStep(h: Hash, lifetimeMs: nat, w: World, e: Step, r: string)
    requires Committed(w, r)
    ensures Committed(Apply(h, lifetimeMs, w, e), r)
  {
  }

  lemma {:induction false} CommittedRun(h: Hash, lifetimeMs: nat, w: World, es: seq<Step>, r: string)
    requires Committed(w, r)
    ensures Committed(Run(h, lifetimeMs, w, es), r)
    decreases |es|
  {
    if es != [] {
      CommittedStep(h, lifetimeMs, w, es[0], r);
      CommittedRun(h, lifetimeMs, Apply(h, lifetimeMs, w, es[0]), es[1..], r);
    }
  }

  ghost predicate WormForever(h: Hash, lifetimeMs: nat, w: World, r: string) {
    forall es: seq<Step> :: IsWorm(Run(h, lifetimeMs, w, es), r)
  }

  /** Exactly when a flag that is on stays on (and so the repository is never
      deleted) in every continuation: no request is between its check and a write
      that switches the flag off or deletes the row. Requests served atomically
      never are. */
  lemma WormIsPermanentIff(h: Hash, lifetimeMs: nat, w: World, r: string)
    requires IsWorm(w, r) && r in w.used
    ensures WormForever(h, lifetimeMs, w, r) <==>
            (forall c | c in w.pending :: !Undoes(w.pending[c], r))
  {
    if forall c | c in w.pending :: !Undoes(w.pending[c], r) {
      forall es: seq<Step> ensures IsWorm(Run(h, lifetimeMs, w, es), r) { CommittedRun(h, lifetimeMs, w, es, r); }
    } else {
      var c :| c in w.pending && Undoes(w.pending[c], r);
      var e := Write(c);
      var es := [e];
      assert es[1..] == [];
      assert Run(h, lifetimeMs, w, es) == Run(h, lifetimeMs, Apply(h, lifetimeMs, w, e), []);
      assert !IsWorm(Run(h, lifetimeMs, w, es), r);
    }
  }

  // ---- Tokens run out ------------------------------------------------------------

  /** No token outlives the lifetime, counted from now. */
  predicate Bounded(w: World, lifetimeMs: nat) {
    forall t | t in w.tokens :: t.exp * 1000 <= w.now + lifetimeMs
  }

  /** `r` is committed, no token without writeOnce is about to be signed for it,
      and those already signed end by `deadline`. */
  ghost predicate Sealed(w: World, r: string, deadline: nat) {
    && Committed(w, r)
    && (forall c | c in w.pending && w.pending[c].id == r :: w.pending[c].seen.worm || !w.pending[c].call.CreateUrl?)
    && (forall t | t in w.tokens && t.repository == r && !t.writeOnce :: t.exp * 1000 <= deadline)
  }

  /** A token lives for the lifetime, less at most the two fractions of a second that
      rounding takes off, and never for longer. */
  lemma SignedWithin(p: Pending, now: nat, lifetimeMs: nat)
    ensures Sign(p, now, lifetimeMs).exp * 1000 <= now + lifetimeMs <= Sign(p, now, lifetimeMs).exp * 1000 + 1998
  {
  }

  lemma BoundedStep(h: Hash, lifetimeMs: nat, w: World, e: Step)
    requires Bounded(w, lifetimeMs)
    ensures Bounded(Apply(h, lifetimeMs, w, e), lifetimeMs)
  {
    if e.Write? && e.call in w.pending {
      SignedWithin(w.pending[e.call], w.now, lifetimeMs);
    }
  }

  lemma SealedStep(h: Hash, lifetimeMs: nat, w: World, e: Step, r: string, deadline: nat)
    requires Sealed(w, r, deadline)
    ensures Sealed(Apply(h, lifetimeMs, w, e), r, deadline)
  {
  }

  /** The end of the transition: the flag is committed, all requests that run
      with old authority are gone, and the last old token has expired. */
  ghost predicate SwitchedOver(h: Hash, w: World, r: string, deadline: nat) {
    Sealed(w, r, deadline) && deadline <= w.now && BlobSafety.WriteOnce(h, w.michael, r)
  }

  lemma {:induction false} SwitchedOverStep(h: Hash, lifetimeMs: nat, w: World, e: Step, r: string, deadline: nat, loc: Loc)
    requires SwitchedOver(h, w, r, deadline)
    ensures SwitchedOver(h, Apply(h, lifetimeMs, w, e), r, deadline)
    ensures loc.bucket == r && Durable(h, w.michael, loc) ==>
      && Durable(h, Apply(h, lifetimeMs, w, e).michael, loc)
      && Apply(h, lifetimeMs, w, e).michael.store.objects[loc] == w.michael.store.objects[loc]
  {
    SealedStep(h, lifetimeMs, w, e, r, deadline);
    match e
    case Present(job, token, path, blob) =>
      if Accepted(w, token) {
        BlobSafety.WriteOnceStep(h, w.michael, Arrive(job, path, ToAuth(token), blob), r, loc);
      }
    case Storage(event) =>
      if !event.Arrive? { BlobSafety.WriteOnceStep(h, w.michael, event, r, loc); }
    case _ =>
  }

  lemma {:induction false} SwitchedOverRun(h: Hash, lifetimeMs: nat, w: World, es: seq<Step>, r: string, deadline: nat, loc: Loc)
    requires SwitchedOver(h, w, r, deadline)
    requires loc.bucket == r
    ensures var w' := Run(h, lifetimeMs, w, es);
      && SwitchedOver(h, w', r, deadline)
      && (Durable(h, w.michael, loc) ==>
            loc in w'.michael.store.objects && w'.michael.store.objects[loc] == w.michael.store.objects[loc])
    decreases |es|
  {
    if es != [] {
      SwitchedOverStep(h, lifetimeMs, w, es[0], r, deadline, loc);
      SwitchedOverRun(h, lifetimeMs, Apply(h, lifetimeMs, w, es[0]), es[1..], r, deadline, loc);
    }
  }

  /** What holds in every world reached from an empty one. */
  ghost predicate Sound(h: Hash, w: World, lifetimeMs: nat) {
    Bounded(w, lifetimeMs) && WellFormed(h, w.michael) && w.rows.Keys <= w.used
  }

  const START := World(map[], {}, map[], {}, 0, EMPTY)

  lemma {:induction false} SoundRun(h: Hash, lifetimeMs: nat, w: World, es: seq<Step>)
    requires Sound(h, w, lifetimeMs)
    ensures Sound(h, Run(h, lifetimeMs, w, es), lifetimeMs)
    decreases |es|
  {
    if es != [] {
      BoundedStep(h, lifetimeMs, w, es[0]);
      if es[0].Present? {
        WellFormedStep(h, w.michael, Arrive(es[0].job, es[0].path, ToAuth(es[0].token), es[0].blob));
      }
      if es[0].Storage? { WellFormedStep(h, w.michael, es[0].event); }
      SoundRun(h, lifetimeMs, Apply(h, lifetimeMs, w, es[0]), es[1..]);
    }
  }

  lemma {:induction false} SealedRun(h: Hash, lifetimeMs: nat, w: World, es: seq<Step>, r: string, deadline: nat)
    requires Sealed(w, r, deadline)
    ensures Sealed(Run(h, lifetimeMs, w, es), r, deadline)
    decreases |es|
  {
    if es != [] {
      SealedStep(h, lifetimeMs, w, es[0], r, deadline);
      SealedRun(h, lifetimeMs, Apply(h, lifetimeMs, w, es[0]), es[1..], r, deadline);
    }
  }

  /** No customer request on `r` is between its read and its write. */
  predicate Quiet(w: World, r: string) {
    forall c | c in w.pending :: w.pending[c].id != r
  }

  /** The whole protocol. Take any run that reaches a world where `r` is
      write-once with no customer request on it half done, then any continuation
      lasting at least the token lifetime after which the requests michael
      admitted with old tokens are gone. From there on, in every continuation, the
      flag is on, the row exists, michael accepts only write-once tokens for `r`,
      and the config and all good non-lock blobs keep their bytes. */
  lemma WormEndToEnd(h: Hash, lifetimeMs: nat, past: seq<Step>, wait: seq<Step>, future: seq<Step>, r: string, loc: Loc, t: Token)
    requires var on := Run(h, lifetimeMs, START, past);
      IsWorm(on, r) && Quiet(on, r)
    requires var on := Run(h, lifetimeMs, START, past);
      var over := Run(h, lifetimeMs, on, wait);
      on.now + lifetimeMs <= over.now && Drained(over.michael, r)
    requires loc.bucket == r
    ensures var over := Run(h, lifetimeMs, Run(h, lifetimeMs, START, past), wait);
      var end := Run(h, lifetimeMs, over, future);
      && IsWorm(end, r)
      && (Accepted(end, t) && t.repository == r ==> t.writeOnce)
      && (Durable(h, over.michael, loc) ==>
            loc in end.michael.store.objects && end.michael.store.objects[loc] == over.michael.store.objects[loc])
  {
    var on := Run(h, lifetimeMs, START, past);
    SoundRun(h, lifetimeMs, START, past);
    SealedRun(h, lifetimeMs, on, wait, r, on.now + lifetimeMs);
    SoundRun(h, lifetimeMs, on, wait);
    var over := Run(h, lifetimeMs, on, wait);
    DrainedIsWriteOnce(h, over.michael, r);
    SwitchedOverRun(h, lifetimeMs, over, future, r, on.now + lifetimeMs, loc);
  }

  // ---- Whose requests do what ------------------------------------------------------

  /** Repositories keep their owner; requests half done and tokens are its owner's. */
  ghost predicate Owned(w: World) {
    && w.rows.Keys <= w.used
    && (forall c | c in w.pending :: w.pending[c].id in w.used && (w.pending[c].id in w.rows ==> w.rows[w.pending[c].id].userId == w.pending[c].user))
    && (forall t | t in w.tokens :: t.repository in w.used && (t.repository in w.rows ==> w.rows[t.repository].userId == t.user))
  }

  lemma {:induction false} OwnedStep(h: Hash, lifetimeMs: nat, w: World, e: Step)
    requires Owned(w)
    ensures Owned(Apply(h, lifetimeMs, w, e))
  {
  }

  lemma {:induction false} OwnedFrom(h: Hash, lifetimeMs: nat, w: World, es: seq<Step>)
    requires Owned(w)
    ensures Owned(Run(h, lifetimeMs, w, es))
    decreases |es|
  {
    if es != [] {
      OwnedStep(h, lifetimeMs, w, es[0]);
      OwnedFrom(h, lifetimeMs, Apply(h, lifetimeMs, w, es[0]), es[1..]);
    }
  }

  /** Request `call` writes row `id`. */
  predicate Writes(w: World, e: Step, id: string, user: string) {
    && e.Write? && e.call in w.pending && w.pending[e.call].id == id && w.pending[e.call].user == user
    && !w.pending[e.call].call.CreateUrl?
  }

  /** In every run, in every state of it: a repository's tokens are its owner's, and
      only the write of a request of its owner changes or removes its row. */
  lemma {:induction false} OnlyOwnersAct(h: Hash, lifetimeMs: nat, es: seq<Step>, e: Step, id: string, t: Token)
    requires id in Run(h, lifetimeMs, START, es).rows
    ensures var w := Run(h, lifetimeMs, START, es);
      var w' := Apply(h, lifetimeMs, w, e);
      && (t in w.tokens && t.repository == id ==> t.user == w.rows[id].userId)
      && (id in w'.rows ==> w'.rows[id].userId == w.rows[id].userId)
      && (id !in w'.rows || w'.rows[id] != w.rows[id] ==> Writes(w, e, id, w.rows[id].userId))
  {
    OwnedFrom(h, lifetimeMs, START, es);
  }

  /** Token `t` opens repository `id` for `user` with this flag: michael accepts it
      now and at every moment less than the lifetime, bar two fractions of a second,
      later, and lets requests in with exactly that authority. */
  ghost predicate Opens(h: Hash, lifetimeMs: nat, w: World, t: Token, user: string, id: string, worm: bool) {
    forall ms: nat, job: nat, path: string, blob: Request | ms + 1998 < lifetimeMs ::
      var w' := Apply(h, lifetimeMs, w, Tick(ms));
      Apply(h, lifetimeMs, w', Present(job, t, path, blob)) ==
        w'.(michael := BlobStore.Apply(h, w.michael, Arrive(job, path, Auth(user, id, worm), blob)))
  }

  /** A call served without another in between. From anybody but the owner it does
      nothing. The owner's switches the flag on, never off, and removes the row
      exactly when the flag is off; and its token opens the repository with the
      row's flag. */
  lemma {:induction false} ServedAtOnce(h: Hash, lifetimeMs: nat, w: World, call: nat, user: string, id: string, request: Call)
    requires call !in w.pending
    ensures var w' := Apply(h, lifetimeMs, Apply(h, lifetimeMs, w, Read(call, user, id, request)), Write(call));
      if id !in w.rows || w.rows[id].userId != user then w' == w
      else match request
        case Update(worm) =>
          w' == if worm == Some(true) then w.(rows := w.rows[id := Row(user, true)]) else w
        case Remove =>
          w' == if w.rows[id].worm then w else w.(rows := w.rows - {id})
        case CreateUrl =>
          exists t :: w' == w.(tokens := w.tokens + {t}) && Opens(h, lifetimeMs, w', t, user, id, w.rows[id].worm)
  {
    if id in w.rows && w.rows[id].userId == user {
      var p := Pending(user, id, request, w.rows[id]);
      var w1 := Apply(h, lifetimeMs, w, Read(call, user, id, request));
      var w2 := Apply(h, lifetimeMs, w1, Write(call));
      assert w.pending[call := p] - {call} == w.pending;
      assert w.pending - {call} == w.pending;
      match request
      case Update(_) => assert w.rows[id := w.rows[id]] == w.rows;
      case Remove =>
      case CreateUrl => SignedOpens(h, lifetimeMs, w2, p, w.now);
    } else {
      assert Apply(h, lifetimeMs, w, Read(call, user, id, request)) == w;
    }
  }

  lemma {:induction false} SignedOpens(h: Hash, lifetimeMs: nat, w: World, p: Pending, now: nat)
    requires Sign(p, now, lifetimeMs) in w.tokens && w.now == now
    ensures Opens(h, lifetimeMs, w, Sign(p, now, lifetimeMs), p.user, p.id, p.seen.worm)
  {
    SignedWithin(p, now, lifetimeMs);
  }

  /** In every run: whoever creates a repository under an unused id is its owner, and
      the first token it asks for opens it with the flag it was created with. */
  lemma {:induction false} NewRepositoryOpens(h: Hash, lifetimeMs: nat, past: seq<Step>, call: nat, user: string, id: string, worm: bool)
    requires id !in Run(h, lifetimeMs, START, past).used && call !in Run(h, lifetimeMs, START, past).pending
    ensures var w1 := Apply(h, lifetimeMs, Run(h, lifetimeMs, START, past), Create(id, user, worm));
      var w' := Apply(h, lifetimeMs, Apply(h, lifetimeMs, w1, Read(call, user, id, CreateUrl)), Write(call));
      exists t :: t in w'.tokens && Opens(h, lifetimeMs, w', t, user, id, worm)
  {
    var w1 := Apply(h, lifetimeMs, Run(h, lifetimeMs, START, past), Create(id, user, worm));
    ServedAtOnce(h, lifetimeMs, w1, call, user, id, CreateUrl);
    assert w1.rows[id] == Row(user, worm);
    var w3 := Apply(h, lifetimeMs, Apply(h, lifetimeMs, w1, Read(call, user, id, CreateUrl)), Write(call));
    var t :| w3 == w1.(tokens := w1.tokens + {t}) && Opens(h, lifetimeMs, w3, t, user, id, worm);
    assert t in w3.tokens;
  }

  // ---- The service as an object, one request at a time ---------------------------

  /** The request-scoped service over the repositories table, each request served
      without another in between. */
  class RepositoryService {
    var rows: map<string, Row>

    constructor ()
      ensures rows == map[]
    {
      rows := map[];
    }

    method Get(user: string, id: string) returns (r: Result<Row, Failure>)
      ensures r == Check(rows, user, id, Call.CreateUrl)
      ensures r == Err(NotFound) <==> id !in rows
      ensures r == Err(Unauthorized) <==> id in rows && rows[id].userId != user
      ensures r.Ok? <==> id in rows && rows[id].userId == user
      ensures r.Ok? ==> r.value == rows[id]
    {
      if id !in rows { return Err(NotFound); }
      if rows[id].userId != user { return Err(Unauthorized); }
      return Ok(rows[id]);
    }

    /** The owner can do anything but switch the flag off; a flag that is on survives
        every call. */
    method Update(user: string, id: string, worm: Option<bool>) returns (r: Result<Row, Failure>)
      modifies this
      ensures r.Ok? <==> Check(old(rows), user, id, Call.Update(worm)).Ok?
      ensures r.Err? ==> r == Check(old(rows), user, id, Call.Update(worm))
      ensures r.Ok? ==> rows == Commit(old(rows), id, Call.Update(worm))
      ensures r.Ok? <==> id in old(rows) && old(rows)[id].userId == user && !(old(rows)[id].worm && worm == Some(false))
      ensures r == Err(BadRequest) <==> id in old(rows) && old(rows)[id].userId == user && old(rows)[id].worm && worm == Some(false)
      ensures r == Err(NotFound) <==> id !in old(rows)
      ensures r.Err? ==> rows == old(rows)
      ensures r.Ok? ==> rows == old(rows)[id := r.value] && r.value.userId == user
      ensures r.Ok? ==> r.value.worm == if worm.Some? then worm.value else old(rows)[id].worm
      ensures forall k | k in old(rows) && old(rows)[k].worm :: k in rows && rows[k].worm
    {
      var found := Get(user, id);
      if found.Err? { return found; }
      var repository := found.value;
      if repository.worm && worm.Some? && worm.value != repository.worm {
        return Err(BadRequest);
      }
      if worm.Some? { rows := rows[id := repository.(worm := worm.value)]; }
      return Ok(rows[id]);
    }

    method Delete(user: string, id: string) returns (r: Result<(), Failure>)
      modifies this
      ensures r.Ok? <==> Check(old(rows), user, id, Remove).Ok?
      ensures r.Ok? ==> rows == Commit(old(rows), id, Remove)
      ensures r.Ok? <==> id in old(rows) && old(rows)[id].userId == user && !old(rows)[id].worm
      ensures r == Err(BadRequest) <==> id in old(rows) && old(rows)[id].userId == user && old(rows)[id].worm
      ensures r == Err(NotFound) <==> id !in old(rows)
      ensures r.Err? ==> rows == old(rows)
      ensures r.Ok? ==> rows == old(rows) - {id}
      ensures forall k | k in old(rows) && old(rows)[k].worm :: k in rows && rows[k].worm
    {
      var found := Get(user, id);
      if found.Err? { return Err(found.error); }
      if found.value.worm {
        return Err(BadRequest);
      }
      rows := rows - {id};
      return Ok(());
    }

    /** The owner's token carries the row's flag and expires one lifetime after it was
        issued, less the two fractions of a second that rounding takes off. */
    method CreateUrl(user: string, id: string, now: nat, lifetimeMs: nat) returns (r: Result<Token, Failure>)
      ensures r.Ok? <==> id in rows && rows[id].userId == user
      ensures r.Ok? ==> r.value.user == user && r.value.repository == id && r.value.writeOnce == rows[id].worm
      ensures r.Ok? ==> r.value.exp * 1000 <= now + lifetimeMs <= r.value.exp * 1000 + 1998
      ensures r.Ok? ==> r.value == Sign(Pending(user, id, Call.CreateUrl, rows[id]), now, lifetimeMs)
    {
      var found := Get(user, id);
      if found.Err? { return Err(found.error); }
      var issuedAt := now / 1000;
      return Ok(Token(user, id, found.value.worm, (issuedAt * 1000 + lifetimeMs) / 1000));
    }
  }
}
