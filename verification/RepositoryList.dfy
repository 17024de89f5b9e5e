/** The list that joins the repositories known locally with those the backends
    report. The record of remote repositories is a list per backend, in the order
    the ids were first set. */
module RepositoryList {
  import opened Prelude

  datatype Remote = Remote(id: string, name: string, worm: bool)

  /** `listing` is None when asking the backend throws. */
  datatype Backend = Backend(id: string, backendType: string, listing: Option<seq<Remote>>)

  datatype Local = Local(id: string, remoteId: string, backendId: string, retentionPolicy: Option<string>)

  datatype PathRow = PathRow(id: string, path: string)

  datatype Configuration = Configuration(paths: seq<string>, retentionPolicy: Option<string>)

  datatype Entry = Entry(
    id: string,
    name: string,
    worm: bool,
    configuration: Option<Configuration>,
    backendId: string,
    backendType: string,
    online: bool)

  /** Reading a property of a backend that is not there. */
  datatype Failure = TypeError

  type Pair = (string, string)

  // ---- Records --------------------------------------------------------------------

  predicate Has(record: seq<Remote>, id: string) {
    exists i :: 0 <= i < |record| && record[i].id == id
  }

  ghost predicate Keyed(record: seq<Remote>) {
    forall i, j :: 0 <= i < j < |record| ==> record[i].id != record[j].id
  }

  /** `record[r.id] = r`: an existing key keeps its place. */
  function Put(record: seq<Remote>, r: Remote): seq<Remote> {
    if record == [] then [r]
    else if record[0].id == r.id then [r] + record[1..]
    else [record[0]] + Put(record[1..], r)
  }

  function Lookup(record: seq<Remote>, id: string): Option<Remote> {
    if record == [] then None
    else if record[0].id == id then Some(record[0])
    else Lookup(record[1..], id)
  }

  /** The record without the given keys. */
  function Without(record: seq<Remote>, ids: set<string>): (r: seq<Remote>)
    ensures forall x :: x in r <==> x in record && x.id !in ids
  {
    if record == [] then []
    else (if record[0].id in ids then [] else [record[0]]) + Without(record[1..], ids)
  }

  function PutAll(record: seq<Remote>, list: seq<Remote>): seq<Remote> {
    if list == [] then record else Put(PutAll(record, list[..|list| - 1]), list[|list| - 1])
  }

  /** What the record holds for a backend after its listing, nothing if it threw. */
  function Known(b: Backend): seq<Remote> {
    match b.listing case Some(list) => PutAll([], list) case None => []
  }

  lemma {:induction false} PutKeyed(record: seq<Remote>, r: Remote)
    requires Keyed(record)
    ensures Keyed(Put(record, r))
    ensures forall id :: Has(Put(record, r), id) <==> Has(record, id) || id == r.id
    ensures Lookup(Put(record, r), r.id) == Some(r)
    ensures forall id | id != r.id :: Lookup(Put(record, r), id) == Lookup(record, id)
  {
    if record == [] || record[0].id == r.id {
      forall id ensures Has(Put(record, r), id) <==> Has(record, id) || id == r.id {
        assert forall i | 1 <= i < |record| :: Put(record, r)[i] == record[i];
        assert Put(record, r)[0] == r;
      }
    } else {
      PutKeyed(record[1..], r);
      var rest := Put(record[1..], r);
      assert Put(record, r)[1..] == rest;
      forall id ensures Has(Put(record, r), id) <==> Has(record, id) || id == r.id {
        HasCons(record, id);
        HasCons(Put(record, r), id);
      }
      forall i | 0 <= i < |rest| ensures rest[i].id != record[0].id {
        assert Has(rest, rest[i].id);
        HasNot(record);
      }
    }
  }

  lemma HasCons(record: seq<Remote>, id: string)
    requires record != []
    ensures Has(record, id) <==> record[0].id == id || Has(record[1..], id)
  {
    if Has(record, id) && record[0].id != id {
      var i :| 0 <= i < |record| && record[i].id == id;
      assert record[1..][i - 1].id == id;
    }
    if Has(record[1..], id) {
      var i :| 0 <= i < |record[1..]| && record[1..][i].id == id;
      assert record[i + 1].id == id;
    }
  }

  lemma HasNot(record: seq<Remote>)
    requires Keyed(record) && record != []
    ensures !Has(record[1..], record[0].id)
  {
  }

  lemma {:induction false} LookupHas(record: seq<Remote>, id: string)
    ensures Lookup(record, id).Some? <==> Has(record, id)
    ensures Lookup(record, id).Some? ==> Lookup(record, id).value in record && Lookup(record, id).value.id == id
  {
    if record != [] {
      HasCons(record, id);
      LookupHas(record[1..], id);
    }
  }

  lemma {:induction false} WithoutKeyed(record: seq<Remote>, ids: set<string>)
    requires Keyed(record)
    ensures Keyed(Without(record, ids))
  {
    if record != [] {
      WithoutKeyed(record[1..], ids);
      forall x | x in Without(record[1..], ids) ensures x.id != record[0].id {
        var i :| 0 <= i < |record[1..]| && record[1..][i] == x;
        assert record[i + 1] == x;
      }
    }
  }

  lemma WithoutCons(x: Remote, xs: seq<Remote>, ids: set<string>)
    ensures Without([x] + xs, ids) == (if x.id in ids then [] else [x]) + Without(xs, ids)
  {
    assert ([x] + xs)[1..] == xs;
  }

  lemma {:induction false} WithoutWithout(record: seq<Remote>, a: set<string>, b: set<string>)
    ensures Without(Without(record, a), b) == Without(record, a + b)
  {
    if record != [] {
      WithoutWithout(record[1..], a, b);
      var rest := Without(record[1..], a);
      WithoutCons(record[0], rest, b);
      assert Without(record, a) == if record[0].id in a then rest else [record[0]] + rest;
    }
  }

  lemma {:induction false} WithoutNothing(record: seq<Remote>, ids: set<string>)
    requires forall x | x in record :: x.id !in ids
    ensures Without(record, ids) == record
  {
    if record != [] { WithoutNothing(record[1..], ids); }
  }

  lemma WithoutHas(record: seq<Remote>, ids: set<string>, id: string)
    ensures Has(Without(record, ids), id) <==> Has(record, id) && id !in ids
  {
    var rest := Without(record, ids);
    if Has(rest, id) {
      var i :| 0 <= i < |rest| && rest[i].id == id;
      assert rest[i] in record;
    }
    if Has(record, id) && id !in ids {
      var i :| 0 <= i < |record| && record[i].id == id;
      assert record[i] in rest;
    }
  }

  lemma LookupCons(x: Remote, xs: seq<Remote>, id: string)
    ensures Lookup([x] + xs, id) == if x.id == id then Some(x) else Lookup(xs, id)
  {
    assert ([x] + xs)[1..] == xs;
  }

  lemma {:induction false} WithoutLookup(record: seq<Remote>, ids: set<string>, id: string)
    requires id !in ids
    ensures Lookup(Without(record, ids), id) == Lookup(record, id)
  {
    if record != [] {
      WithoutLookup(record[1..], ids, id);
      var rest := Without(record[1..], ids);
      LookupCons(record[0], rest, id);
      assert Without(record, ids) == if record[0].id in ids then rest else [record[0]] + rest;
    }
  }

  lemma NotFound(record: seq<Remote>, id: string)
    requires Lookup(record, id).None?
    ensures forall x | x in record :: x.id != id
  {
    LookupHas(record, id);
    assert !Has(record, id);
  }

  lemma {:induction false} PutAllKeyed(list: seq<Remote>)
    ensures Keyed(PutAll([], list))
    ensures forall id :: Has(PutAll([], list), id) <==> Has(list, id)
  {
    if list != [] {
      var n := |list| - 1;
      PutAllKeyed(list[..n]);
      PutKeyed(PutAll([], list[..n]), list[n]);
      forall id ensures Has(list, id) <==> Has(list[..n], id) || id == list[n].id {
        if Has(list, id) && id != list[n].id {
          var i :| 0 <= i < |list| && list[i].id == id;
          assert list[..n][i].id == id;
        }
        if Has(list[..n], id) {
          var i :| 0 <= i < n && list[..n][i].id == id;
          assert list[i].id == id;
        }
      }
    }
  }

  // ---- The join as an expression ---------------------------------------------------

  /** The remote ids of backend `b` that the given local rows claim. */
  function Claims(local: seq<Local>, b: string): set<string> {
    set l | l in local && l.backendId == b :: l.remoteId
  }

  function PairOf(l: Local): Pair {
    (l.backendId, l.remoteId)
  }

  function Find(backends: seq<Backend>, id: string): (b: Option<Backend>)
    ensures b.Some? ==> b.value in backends && b.value.id == id
    ensures b.None? ==> forall x | x in backends :: x.id != id
  {
    if backends == [] then None
    else if backends[0].id == id then Some(backends[0])
    else Find(backends[1..], id)
  }

  /** A backend that answered lists this pair. */
  ghost predicate Listed(backends: seq<Backend>, p: Pair) {
    exists b :: b in backends && b.id == p.0 && b.listing.Some? && Has(b.listing.value, p.1)
  }

  /** Listed and not claimed by an earlier local row. */
  ghost predicate Online(backends: seq<Backend>, local: seq<Local>, i: nat)
    requires i < |local|
  {
    Listed(backends, PairOf(local[i])) && forall j | 0 <= j < i :: PairOf(local[j]) != PairOf(local[i])
  }

  function PathsOf(paths: seq<PathRow>, id: string): seq<string> {
    if paths == [] then []
    else (if paths[0].id == id then [paths[0].path] else []) + PathsOf(paths[1..], id)
  }

  /** `picked` is the paths of the rows of `id`, in table order. */
  ghost predicate Picks(paths: seq<PathRow>, id: string, picked: seq<string>) {
    var mine := Filter(paths, (p: PathRow) => p.id == id);
    |picked| == |mine| && forall i | 0 <= i < |picked| :: picked[i] == mine[i].path
  }

  lemma {:induction false} PathsArePicked(paths: seq<PathRow>, id: string)
    ensures Picks(paths, id, PathsOf(paths, id))
  {
    if paths != [] { PathsArePicked(paths[1..], id); }
  }

  /** The entry for a local row, given what is left for its backend. */
  function LocalEntry(b: Backend, left: seq<Remote>, l: Local, paths: seq<PathRow>): Entry {
    var configuration := Some(Configuration(PathsOf(paths, l.id), l.retentionPolicy));
    match Lookup(left, l.remoteId)
    case Some(r) => Entry(l.id, r.name, r.worm, configuration, b.id, b.backendType, true)
    case None => Entry(l.id, "Unknown", false, configuration, b.id, b.backendType, false)
  }

  function RemoteEntries(b: Backend, left: seq<Remote>): seq<Entry> {
    seq(|left|, i requires 0 <= i < |left| =>
      Entry(left[i].id, left[i].name, left[i].worm, None, b.id, b.backendType, true))
  }

  /** What no local row claims of one backend. */
  function RestOf(b: Backend, local: seq<Local>): seq<Entry> {
    RemoteEntries(b, Without(Known(b), Claims(local, b.id)))
  }

  function Tail(backends: seq<Backend>, local: seq<Local>): seq<Entry> {
    if backends == [] then [] else RestOf(backends[0], local) + Tail(backends[1..], local)
  }

  /** Row `i`'s entry: what earlier rows claimed is no longer left for it. */
  function EntryFor(backends: seq<Backend>, local: seq<Local>, paths: seq<PathRow>, i: nat): Result<Entry, Failure>
    requires i < |local|
  {
    match Find(backends, local[i].backendId)
    case None => Err(TypeError)
    case Some(b) => Ok(LocalEntry(b, Without(Known(b), Claims(local[..i], b.id)), local[i], paths))
  }

  function Attempts(backends: seq<Backend>, local: seq<Local>, paths: seq<PathRow>): seq<Result<Entry, Failure>> {
    seq(|local|, i requires 0 <= i < |local| => EntryFor(backends, local, paths, i))
  }

  /** The first `n` values, or the first error among them. */
  function Collect(rs: seq<Result<Entry, Failure>>, n: nat): Result<seq<Entry>, Failure>
    requires n <= |rs|
  {
    if n == 0 then Ok([])
    else
      var before := Collect(rs, n - 1);
      if before.Err? then before
      else if rs[n - 1].Err? then Err(rs[n - 1].error)
      else Ok(before.value + [rs[n - 1].value])
  }

  lemma {:induction false} CollectShape(rs: seq<Result<Entry, Failure>>, n: nat)
    requires n <= |rs|
    ensures Collect(rs, n).Ok? <==> forall i | 0 <= i < n :: rs[i].Ok?
    ensures Collect(rs, n).Ok? ==>
      |Collect(rs, n).value| == n && forall i | 0 <= i < n :: Collect(rs, n).value[i] == rs[i].value
  {
    if n > 0 { CollectShape(rs, n - 1); }
  }

  /** Local rows first, in order, then what no local row claimed. */
  function Join(backends: seq<Backend>, local: seq<Local>, paths: seq<PathRow>): Result<seq<Entry>, Failure> {
    match Collect(Attempts(backends, local, paths), |local|)
    case Err(e) => Err(e)
    case Ok(es) => Ok(es + Tail(backends, local))
  }

  ghost predicate DistinctIds(backends: seq<Backend>) {
    forall i, j :: 0 <= i < j < |backends| ==> backends[i].id != backends[j].id
  }

  // ---- The loops --------------------------------------------------------------------

  method ListRemotes(backends: seq<Backend>) returns (remote: map<string, seq<Remote>>)
    requires DistinctIds(backends)
    ensures remote.Keys == set b | b in backends :: b.id
    ensures forall b | b in backends :: remote[b.id] == Known(b)
  {
    remote := map[];
    for i := 0 to |backends|
      invariant remote.Keys == set b | b in backends[..i] :: b.id
      invariant forall k | 0 <= k < i :: remote[backends[k].id] == Known(backends[k])
    {
      var b := backends[i];
      remote := remote[b.id := []];
      if b.listing.Some? { remote := AddListing(remote, b.id, b.listing.value); }
      assert backends[..i + 1] == backends[..i] + [b];
    }
    assert backends[..|backends|] == backends;
  }

  /** The inner loop: what one backend reports, set id by id. */
  method AddListing(remote: map<string, seq<Remote>>, id: string, list: seq<Remote>) returns (r: map<string, seq<Remote>>)
    requires id in remote && remote[id] == []
    ensures r == remote[id := PutAll([], list)]
  {
    r := remote;
    for k := 0 to |list|
      invariant r == remote[id := PutAll([], list[..k])]
    {
      r := r[id := Put(r[id], list[k])];
      assert list[..k + 1][..k] == list[..k];
    }
    assert list[..|list|] == list;
  }

  /** `remote` holds, per backend, what the first `i` local rows have left. */
  ghost predicate LeftAfter(backends: seq<Backend>, local: seq<Local>, i: nat, remote: map<string, seq<Remote>>)
    requires i <= |local|
  {
    forall b | b in backends :: b.id in remote && remote[b.id] == Without(Known(b), Claims(local[..i], b.id))
  }

  lemma AttemptIs(backends: seq<Backend>, local: seq<Local>, paths: seq<PathRow>, i: nat, remote: map<string, seq<Remote>>, b: Backend)
    requires i < |local| && LeftAfter(backends, local, i, remote) && Find(backends, local[i].backendId) == Some(b)
    ensures b.id in remote && Attempts(backends, local, paths)[i] == Ok(LocalEntry(b, remote[b.id], local[i], paths))
  {
    assert remote[b.id] == Without(Known(b), Claims(local[..i], b.id));
  }

  lemma UnknownFails(backends: seq<Backend>, local: seq<Local>, paths: seq<PathRow>, i: nat)
    requires i < |local| && Find(backends, local[i].backendId) == None
    ensures Collect(Attempts(backends, local, paths), |local|) == Err(TypeError)
  {
    var attempts := Attempts(backends, local, paths);
    assert attempts[i].Err?;
    CollectShape(attempts, |local|);
    assert Collect(attempts, |local|).error == TypeError;
  }

  /** The loop over local rows, which deletes what each row claims from the record.
      A row of an unknown backend makes the lookup throw. */
  method JoinLocal(backends: seq<Backend>, local: seq<Local>, paths: seq<PathRow>, listed: map<string, seq<Remote>>)
    returns (r: Result<seq<Entry>, Failure>, remote: map<string, seq<Remote>>)
    requires LeftAfter(backends, local, 0, listed)
    ensures r == Collect(Attempts(backends, local, paths), |local|)
    ensures r.Ok? ==> LeftAfter(backends, local, |local|, remote)
  {
    ghost var attempts := Attempts(backends, local, paths);
    remote := listed;
    var repositories: seq<Entry> := [];
    for i := 0 to |local|
      invariant Ok(repositories) == Collect(attempts, i)
      invariant LeftAfter(backends, local, i, remote)
    {
      var l := local[i];
      var found := Find(backends, l.backendId);
      if found == None {
        UnknownFails(backends, local, paths, i);
        return Err(TypeError), remote;
      }
      var b := found.value;
      AttemptIs(backends, local, paths, i, remote, b);
      repositories := repositories + [LocalEntry(b, remote[b.id], l, paths)];
      ClaimAll(backends, local, i, remote);
      remote := DeleteClaimed(remote, l);
    }
    r := Ok(repositories);
  }

  /** `delete remoteRepositories[backendId][remoteId]`, where present. */
  method DeleteClaimed(remote: map<string, seq<Remote>>, l: Local) returns (r: map<string, seq<Remote>>)
    requires l.backendId in remote
    ensures r == Claim(remote, l)
  {
    r := remote;
    if Lookup(remote[l.backendId], l.remoteId).Some? {
      r := remote[l.backendId := Without(remote[l.backendId], {l.remoteId})];
    }
  }

  /** The loop over what is left in the record. */
  method ListRest(backends: seq<Backend>, local: seq<Local>, remote: map<string, seq<Remote>>) returns (rest: seq<Entry>)
    requires LeftAfter(backends, local, |local|, remote)
    ensures rest == Tail(backends, local)
  {
    assert local[..|local|] == local;
    rest := [];
    for i := 0 to |backends|
      invariant rest == Tail(backends[..i], local)
    {
      var es := ListRecord(backends[i], remote[backends[i].id]);
      assert es == RestOf(backends[i], local);
      rest := rest + es;
      TailSnoc(backends, local, i);
    }
    assert backends[..|backends|] == backends;
  }

  method ListRecord(b: Backend, record: seq<Remote>) returns (es: seq<Entry>)
    ensures es == RemoteEntries(b, record)
  {
    es := [];
    for k := 0 to |record|
      invariant es == RemoteEntries(b, record)[..k]
    {
      es := es + [Entry(record[k].id, record[k].name, record[k].worm, None, b.id, b.backendType, true)];
    }
  }

  /** The two tables joined through the record of remotes. */
  method GetRepositories(backends: seq<Backend>, local: seq<Local>, paths: seq<PathRow>) returns (r: Result<seq<Entry>, Failure>)
    requires DistinctIds(backends)
    ensures r == Join(backends, local, paths)
  {
    var listed := ListRemotes(backends);
    forall b | b in backends ensures Without(Known(b), Claims(local[..0], b.id)) == Known(b) {
      assert Claims(local[..0], b.id) == {};
      WithoutNothing(Known(b), {});
    }
    var repositories, remote := JoinLocal(backends, local, paths, listed);
    if repositories.Err? { return repositories; }
    var rest := ListRest(backends, local, remote);
    r := Ok(repositories.value + rest);
  }

  lemma {:induction false} TailSnoc(backends: seq<Backend>, local: seq<Local>, i: nat)
    requires i < |backends|
    ensures Tail(backends[..i + 1], local) == Tail(backends[..i], local) + RestOf(backends[i], local)
  {
    TailAppend(backends[..i], backends[i], local);
    assert backends[..i + 1] == backends[..i] + [backends[i]];
  }

  lemma {:induction false} TailAppend(backends: seq<Backend>, b: Backend, local: seq<Local>)
    ensures Tail(backends + [b], local) == Tail(backends, local) + RestOf(b, local)
  {
    if backends == [] {
      assert [] + [b] == [b] && [b][1..] == [];
    } else {
      assert (backends + [b])[1..] == backends[1..] + [b];
      TailAppend(backends[1..], b, local);
    }
  }

  function Claim(remote: map<string, seq<Remote>>, l: Local): map<string, seq<Remote>>
    requires l.backendId in remote
  {
    if Lookup(remote[l.backendId], l.remoteId).Some?
    then remote[l.backendId := Without(remote[l.backendId], {l.remoteId})] else remote
  }

  /** Deleting the claimed key, where present, leaves what the longer list of
      claims leaves. */
  lemma ClaimOne(backends: seq<Backend>, local: seq<Local>, i: nat, remote: map<string, seq<Remote>>, b: Backend)
    requires i < |local| && local[i].backendId in remote && b.id in remote
    requires remote[b.id] == Without(Known(b), Claims(local[..i], b.id))
    ensures Claim(remote, local[i])[b.id] == Without(Known(b), Claims(local[..i + 1], b.id))
  {
    var l := local[i];
    assert local[..i + 1] == local[..i] + [l];
    var before := Claims(local[..i], b.id);
    if b.id == l.backendId {
      assert Claims(local[..i + 1], b.id) == before + {l.remoteId};
      WithoutWithout(Known(b), before, {l.remoteId});
      if Lookup(remote[b.id], l.remoteId).None? {
        NotFound(remote[b.id], l.remoteId);
        WithoutNothing(remote[b.id], {l.remoteId});
      }
    } else {
      assert Claims(local[..i + 1], b.id) == before;
    }
  }

  lemma {:induction false} ClaimAll(backends: seq<Backend>, local: seq<Local>, i: nat, remote: map<string, seq<Remote>>)
    requires i < |local| && LeftAfter(backends, local, i, remote) && local[i].backendId in remote
    ensures LeftAfter(backends, local, i + 1, Claim(remote, local[i]))
  {
    forall b | b in backends
      ensures b.id in Claim(remote, local[i]) && Claim(remote, local[i])[b.id] == Without(Known(b), Claims(local[..i + 1], b.id))
    {
      ClaimOne(backends, local, i, remote, b);
    }
  }

  // ---- What the join promises -----------------------------------------------------

  lemma KnownHas(b: Backend, id: string)
    ensures Keyed(Known(b))
    ensures Has(Known(b), id) <==> b.listing.Some? && Has(b.listing.value, id)
  {
    if b.listing.Some? { PutAllKeyed(b.listing.value); }
  }

  lemma SameBackend(backends: seq<Backend>, a: Backend, b: Backend)
    requires DistinctIds(backends) && a in backends && b in backends && a.id == b.id
    ensures a == b
  {
  }

  /** For a backend of the list: a pair of it is listed exactly when its record has it. */
  lemma ListedIsKnown(backends: seq<Backend>, b: Backend, id: string)
    requires DistinctIds(backends) && b in backends
    ensures Listed(backends, (b.id, id)) <==> Has(Known(b), id)
  {
    KnownHas(b, id);
    if Listed(backends, (b.id, id)) {
      var c :| c in backends && c.id == b.id && c.listing.Some? && Has(c.listing.value, id);
      SameBackend(backends, b, c);
    }
  }

  /** The listing has `r`, and its id never again after it. */
  ghost predicate LastListed(list: seq<Remote>, r: Remote) {
    exists k :: 0 <= k < |list| && list[k] == r && !Has(list[k + 1..], r.id)
  }

  /** The entry's data is what `b` last reported for the remote id. */
  ghost predicate ReportedBy(b: Backend, e: Entry, remoteId: string) {
    && b.id == e.backendId && b.backendType == e.backendType
    && b.listing.Some? && LastListed(b.listing.value, Remote(remoteId, e.name, e.worm))
  }

  lemma {:induction false} LastListedLonger(list: seq<Remote>, r: Remote, x: Remote)
    requires LastListed(list, x) && x.id != r.id
    ensures LastListed(list + [r], x)
  {
    var k :| 0 <= k < |list| && list[k] == x && !Has(list[k + 1..], x.id);
    assert (list + [r])[k] == x;
    var rest := (list + [r])[k + 1..];
    assert rest == list[k + 1..] + [r];
    forall i | 0 <= i < |rest| ensures rest[i].id != x.id {
      if i < |rest| - 1 { assert rest[i] == list[k + 1..][i]; }
    }
  }

  lemma {:induction false} NewIsLastListed(list: seq<Remote>, r: Remote)
    ensures LastListed(list + [r], r)
  {
    assert (list + [r])[|list|] == r && (list + [r])[|list| + 1..] == [];
  }

  lemma {:induction false} FoundIsLast(list: seq<Remote>, id: string)
    requires Lookup(PutAll([], list), id).Some?
    ensures LastListed(list, Lookup(PutAll([], list), id).value)
  {
    if list != [] {
      var before, r := list[..|list| - 1], list[|list| - 1];
      assert list == before + [r];
      PutAllKeyed(before);
      PutKeyed(PutAll([], before), r);
      if id == r.id {
        NewIsLastListed(before, r);
      } else {
        FoundIsLast(before, id);
        LookupHas(PutAll([], before), id);
        LastListedLonger(before, r, Lookup(PutAll([], before), id).value);
      }
    }
  }

  /** Entry `i` is local row `i`, with its configuration; it is online exactly when
      its pair is listed and no earlier row claimed it, and then carries the name
      and flag the backend reported last. */
  ghost predicate Describes(backends: seq<Backend>, local: seq<Local>, paths: seq<PathRow>, i: nat, e: Entry)
    requires i < |local|
  {
    && e.id == local[i].id && e.backendId == local[i].backendId
    && e.configuration.Some? && e.configuration.value.retentionPolicy == local[i].retentionPolicy
    && Picks(paths, local[i].id, e.configuration.value.paths)
    && (exists b :: b in backends && b.id == e.backendId && b.backendType == e.backendType)
    && (e.online <==> Online(backends, local, i))
    && (!e.online ==> e.name == "Unknown" && !e.worm)
    && (e.online ==> exists b :: b in backends && ReportedBy(b, e, local[i].remoteId))
  }

  lemma LocalEntryDescribes(backends: seq<Backend>, local: seq<Local>, paths: seq<PathRow>, i: nat, b: Backend)
    requires i < |local| && DistinctIds(backends) && b in backends && b.id == local[i].backendId
    ensures Describes(backends, local, paths, i, LocalEntry(b, Without(Known(b), Claims(local[..i], b.id)), local[i], paths))
  {
    PathsArePicked(paths, local[i].id);
    var id, claimed := local[i].remoteId, Claims(local[..i], b.id);
    var left := Without(Known(b), claimed);
    LookupHas(left, id);
    LookupHas(Known(b), id);
    ListedIsKnown(backends, b, id);
    WithoutHas(Known(b), claimed, id);
    if id in claimed {
      var l :| l in local[..i] && l.backendId == b.id && l.remoteId == id;
      var j :| 0 <= j < i && local[j] == l;
      assert !Online(backends, local, i);
    } else {
      WithoutLookup(Known(b), claimed, id);
      if Lookup(Known(b), id).Some? { FoundIsLast(b.listing.value, id); }
      forall j | 0 <= j < i ensures PairOf(local[j]) != PairOf(local[i]) { assert local[..i][j] == local[j]; }
    }
  }

  ghost predicate AllFound(backends: seq<Backend>, local: seq<Local>, n: nat)
    requires n <= |local|
  {
    forall i | 0 <= i < n :: Find(backends, local[i].backendId).Some?
  }

  lemma AttemptsFound(backends: seq<Backend>, local: seq<Local>, paths: seq<PathRow>)
    ensures AllFound(backends, local, |local|) <==>
      forall i | 0 <= i < |local| :: Attempts(backends, local, paths)[i].Ok?
  {
    var attempts := Attempts(backends, local, paths);
    assert forall i | 0 <= i < |local| :: attempts[i].Ok? <==> Find(backends, local[i].backendId).Some?;
  }

  lemma AttemptDescribes(backends: seq<Backend>, local: seq<Local>, paths: seq<PathRow>, i: nat)
    requires i < |local| && DistinctIds(backends) && Attempts(backends, local, paths)[i].Ok?
    ensures Describes(backends, local, paths, i, Attempts(backends, local, paths)[i].value)
  {
    LocalEntryDescribes(backends, local, paths, i, Find(backends, local[i].backendId).value);
  }

  /** Listed and claimed by no local row. */
  ghost predicate Unclaimed(backends: seq<Backend>, local: seq<Local>, p: Pair) {
    Listed(backends, p) && forall l | l in local :: PairOf(l) != p
  }

  predicate IsRemoteEntry(e: Entry) {
    e.configuration == None && e.online
  }

  lemma RemoteEntriesShape(b: Backend, local: seq<Local>)
    ensures var es := RestOf(b, local);
      && (forall e | e in es :: IsRemoteEntry(e) && e.backendId == b.id)
      && (forall i, j | 0 <= i < j < |es| :: es[i].id != es[j].id)
      && (forall id :: (exists e :: e in es && e.id == id) <==> Has(Known(b), id) && id !in Claims(local, b.id))
  {
    KnownHas(b, "");
    WithoutKeyed(Known(b), Claims(local, b.id));
    var left := Without(Known(b), Claims(local, b.id));
    var es := RemoteEntries(b, left);
    forall id ensures (exists e :: e in es && e.id == id) <==> Has(Known(b), id) && id !in Claims(local, b.id) {
      WithoutHas(Known(b), Claims(local, b.id), id);
      if Has(left, id) {
        var i :| 0 <= i < |left| && left[i].id == id;
        assert es[i] in es && es[i].id == id;
      }
      if e :| e in es && e.id == id {
        var i :| 0 <= i < |es| && es[i] == e;
        assert left[i].id == id;
      }
    }
  }

  /** In a keyed record every value is found under its key. */
  lemma {:induction false} LookupKeyed(record: seq<Remote>, i: nat)
    requires Keyed(record) && i < |record|
    ensures Lookup(record, record[i].id) == Some(record[i])
  {
    if i > 0 { LookupKeyed(record[1..], i - 1); }
  }

  /** An entry of the rest carries the name and flag its backend reported last. */
  lemma {:induction false} RestReported(b: Backend, local: seq<Local>, i: nat)
    requires i < |RestOf(b, local)|
    ensures var e := RestOf(b, local)[i]; IsRemoteEntry(e) && ReportedBy(b, e, e.id)
  {
    KnownHas(b, "");
    var claimed := Claims(local, b.id);
    var left := Without(Known(b), claimed);
    WithoutKeyed(Known(b), claimed);
    LookupKeyed(left, i);
    assert left[i] in left;
    WithoutLookup(Known(b), claimed, left[i].id);
    FoundIsLast(b.listing.value, left[i].id);
  }

  // ---- The order of the rest ----------------------------------------------------------

  /** Some listing of `a` comes before every listing of `b`. */
  ghost predicate ListedBefore(list: seq<Remote>, a: string, b: string) {
    exists p :: 0 <= p < |list| && list[p].id == a && !Has(list[..p + 1], b)
  }

  ghost predicate InListOrder(list: seq<Remote>, record: seq<Remote>) {
    forall i, j | 0 <= i < j < |record| :: ListedBefore(list, record[i].id, record[j].id)
  }

  lemma {:induction false} PutIds(record: seq<Remote>, r: Remote)
    ensures |record| <= |Put(record, r)| <= |record| + 1
    ensures forall i | 0 <= i < |record| :: Put(record, r)[i].id == record[i].id
    ensures |Put(record, r)| > |record| ==> Put(record, r)[|record|] == r && !Has(record, r.id)
  {
    if record != [] && record[0].id != r.id {
      PutIds(record[1..], r);
      HasCons(record, r.id);
    }
  }

  lemma {:induction false} ListedBeforeLonger(list: seq<Remote>, r: Remote, a: string, b: string)
    requires ListedBefore(list, a, b)
    ensures ListedBefore(list + [r], a, b)
  {
    var p :| 0 <= p < |list| && list[p].id == a && !Has(list[..p + 1], b);
    assert (list + [r])[..p + 1] == list[..p + 1] && (list + [r])[p] == list[p];
  }

  lemma {:induction false} ListedBeforeNew(list: seq<Remote>, r: Remote, a: string)
    requires Has(list, a) && !Has(list, r.id)
    ensures ListedBefore(list + [r], a, r.id)
  {
    var p :| 0 <= p < |list| && list[p].id == a;
    assert (list + [r])[p] == list[p];
    assert forall i | 0 <= i < p + 1 :: (list + [r])[..p + 1][i] == list[i];
  }

  lemma {:induction false} PutAllInOrder(list: seq<Remote>)
    ensures InListOrder(list, PutAll([], list))
  {
    if list != [] {
      var before, r := list[..|list| - 1], list[|list| - 1];
      var record := PutAll([], before);
      assert list == before + [r];
      PutAllInOrder(before);
      PutAllKeyed(before);
      PutIds(record, r);
      forall i, j | 0 <= i < j < |Put(record, r)| ensures ListedBefore(list, Put(record, r)[i].id, Put(record, r)[j].id) {
        if j < |record| {
          ListedBeforeLonger(before, r, record[i].id, record[j].id);
        } else {
          assert Has(record, record[i].id);
          ListedBeforeNew(before, r, record[i].id);
        }
      }
    }
  }

  lemma {:induction false} WithoutInOrder(list: seq<Remote>, record: seq<Remote>, ids: set<string>)
    requires InListOrder(list, record)
    ensures InListOrder(list, Without(record, ids))
  {
    if record != [] {
      var rest := Without(record[1..], ids);
      WithoutInOrder(list, record[1..], ids);
      forall x | x in rest ensures ListedBefore(list, record[0].id, x.id) {
        var i :| 0 <= i < |record[1..]| && record[1..][i] == x;
        assert record[i + 1] == x;
      }
      forall i, j | 0 <= i < j < |Without(record, ids)|
        ensures ListedBefore(list, Without(record, ids)[i].id, Without(record, ids)[j].id)
      {
        if record[0].id !in ids && i == 0 { assert rest[j - 1] in rest; }
      }
    }
  }

  /** Entry `e` comes before `f`: its backend does or, with one backend, its listing. */
  ghost predicate Precedes(backends: seq<Backend>, e: Entry, f: Entry) {
    exists m, n :: 0 <= m <= n < |backends| && backends[m].id == e.backendId && backends[n].id == f.backendId
      && (m == n ==> backends[m].listing.Some? && ListedBefore(backends[m].listing.value, e.id, f.id))
  }

  ghost predicate InOrder(backends: seq<Backend>, es: seq<Entry>) {
    forall i, j | 0 <= i < j < |es| :: Precedes(backends, es[i], es[j])
  }

  /** Every entry carries what a backend last reported for its id. */
  ghost predicate AsReported(backends: seq<Backend>, es: seq<Entry>) {
    forall e | e in es :: ReportedBySome(backends, e)
  }

  ghost predicate ReportedBySome(backends: seq<Backend>, e: Entry) {
    exists b :: b in backends && ReportedBy(b, e, e.id)
  }

  lemma {:induction false} RestInOrder(backends: seq<Backend>, local: seq<Local>)
    requires backends != []
    ensures InOrder(backends, RestOf(backends[0], local))
  {
    var b, es := backends[0], RestOf(backends[0], local);
    if b.listing.Some? {
      var left := Without(Known(b), Claims(local, b.id));
      PutAllInOrder(b.listing.value);
      WithoutInOrder(b.listing.value, Known(b), Claims(local, b.id));
      forall i, j | 0 <= i < j < |es| ensures Precedes(backends, es[i], es[j]) {
        assert ListedBefore(b.listing.value, left[i].id, left[j].id);
      }
    }
  }

  lemma {:induction false} PrecedesLater(backends: seq<Backend>, e: Entry, f: Entry)
    requires backends != [] && Precedes(backends[1..], e, f)
    ensures Precedes(backends, e, f)
  {
    var later := backends[1..];
    var m, n :| 0 <= m <= n < |later| && later[m].id == e.backendId && later[n].id == f.backendId
      && (m == n ==> later[m].listing.Some? && ListedBefore(later[m].listing.value, e.id, f.id));
    assert backends[m + 1] == later[m] && backends[n + 1] == later[n];
  }

  lemma {:induction false} FirstPrecedes(backends: seq<Backend>, e: Entry, f: Entry, b: Backend)
    requires backends != [] && e.backendId == backends[0].id && b in backends[1..] && b.id == f.backendId
    ensures Precedes(backends, e, f)
  {
    var n :| 0 <= n < |backends[1..]| && backends[1..][n] == b;
    assert backends[n + 1] == b && backends[0].id == e.backendId;
  }

  lemma {:induction false} TailAsReported(backends: seq<Backend>, local: seq<Local>)
    ensures AsReported(backends, Tail(backends, local))
  {
    if backends != [] {
      var first, rest := RestOf(backends[0], local), Tail(backends[1..], local);
      TailAsReported(backends[1..], local);
      forall e | e in first ensures ReportedBySome(backends, e) {
        var i :| 0 <= i < |first| && first[i] == e;
        RestReported(backends[0], local, i);
        assert backends[0] in backends;
      }
      forall e | e in rest ensures ReportedBySome(backends, e) {
        assert ReportedBySome(backends[1..], e);
        var b :| b in backends[1..] && ReportedBy(b, e, e.id);
        assert b in backends;
      }
    }
  }

  lemma {:induction false} ConcatInOrder(backends: seq<Backend>, a: seq<Entry>, b: seq<Entry>)
    requires InOrder(backends, a) && InOrder(backends, b)
    requires forall e, f | e in a && f in b :: Precedes(backends, e, f)
    ensures InOrder(backends, a + b)
  {
    forall i, j | 0 <= i < j < |a + b| ensures Precedes(backends, (a + b)[i], (a + b)[j]) {
      if i < |a| <= j { assert a[i] in a && b[j - |a|] in b; }
    }
  }

  lemma {:induction false} LaterInOrder(backends: seq<Backend>, es: seq<Entry>)
    requires backends != [] && InOrder(backends[1..], es)
    ensures InOrder(backends, es)
  {
    forall i, j | 0 <= i < j < |es| ensures Precedes(backends, es[i], es[j]) { PrecedesLater(backends, es[i], es[j]); }
  }

  lemma {:induction false} TailInOrder(backends: seq<Backend>, local: seq<Local>)
    ensures InOrder(backends, Tail(backends, local))
  {
    if backends != [] {
      var first, rest := RestOf(backends[0], local), Tail(backends[1..], local);
      TailInOrder(backends[1..], local);
      TailAsReported(backends[1..], local);
      RestInOrder(backends, local);
      LaterInOrder(backends, rest);
      forall e, f | e in first && f in rest ensures Precedes(backends, e, f) { FirstBeforeRest(backends, local, e, f); }
      ConcatInOrder(backends, first, rest);
    }
  }

  lemma {:induction false} FirstBeforeRest(backends: seq<Backend>, local: seq<Local>, e: Entry, f: Entry)
    requires backends != [] && e in RestOf(backends[0], local) && ReportedBySome(backends[1..], f)
    ensures Precedes(backends, e, f)
  {
    var b :| b in backends[1..] && ReportedBy(b, f, f.id);
    FirstPrecedes(backends, e, f, b);
  }

  function EntryPair(e: Entry): Pair {
    (e.backendId, e.id)
  }

  /** The tail holds every unclaimed pair once and nothing else. */
  lemma {:induction false} TailShape(backends: seq<Backend>, local: seq<Local>)
    requires DistinctIds(backends)
    ensures forall e | e in Tail(backends, local) :: IsRemoteEntry(e)
    ensures forall i, j | 0 <= i < j < |Tail(backends, local)| :: EntryPair(Tail(backends, local)[i]) != EntryPair(Tail(backends, local)[j])
    ensures forall p :: (exists e :: e in Tail(backends, local) && EntryPair(e) == p) <==> Unclaimed(backends, local, p)
  {
    if backends != [] {
      var b, rest := backends[0], backends[1..];
      TailShape(rest, local);
      RemoteEntriesShape(b, local);
      var first := RestOf(b, local);
      forall p ensures (exists e :: e in first && EntryPair(e) == p) <==> p.0 == b.id && Unclaimed(backends, local, p) {
        FirstShape(backends, local, p);
      }
      forall p ensures Unclaimed(backends, local, p) <==>
        (p.0 == b.id && Unclaimed(backends, local, p)) || Unclaimed(rest, local, p)
      {
        RestListed(backends, p);
      }
      forall p | Unclaimed(rest, local, p) ensures p.0 != b.id { RestListed(backends, p); }
      forall e | e in Tail(rest, local) ensures e.backendId != b.id {
        assert Unclaimed(rest, local, EntryPair(e));
      }
      DisjointPairs(first, Tail(rest, local), b.id);
      forall p ensures (exists e :: e in Tail(backends, local) && EntryPair(e) == p) <==> Unclaimed(backends, local, p) {
        if e :| e in Tail(backends, local) && EntryPair(e) == p {
          assert e in first || e in Tail(rest, local);
        }
        if Unclaimed(backends, local, p) {
          if p.0 == b.id {
            var e :| e in first && EntryPair(e) == p;
            assert e in Tail(backends, local);
          } else {
            var e :| e in Tail(rest, local) && EntryPair(e) == p;
            assert e in Tail(backends, local);
          }
        }
      }
    }
  }

  lemma FirstShape(backends: seq<Backend>, local: seq<Local>, p: Pair)
    requires backends != [] && DistinctIds(backends)
    ensures var b := backends[0];
      (exists e :: e in RestOf(b, local) && EntryPair(e) == p) <==>
        p.0 == b.id && Unclaimed(backends, local, p)
  {
    var b := backends[0];
    RemoteEntriesShape(b, local);
    ListedIsKnown(backends, b, p.1);
    var es := RestOf(b, local);
    if p.0 == b.id {
      assert p == (b.id, p.1);
      assert p.1 in Claims(local, b.id) <==> exists l :: l in local && PairOf(l) == p;
      if e :| e in es && e.id == p.1 { assert EntryPair(e) == p; }
    }
  }

  lemma RestListed(backends: seq<Backend>, p: Pair)
    requires backends != [] && DistinctIds(backends)
    ensures Listed(backends[1..], p) <==> Listed(backends, p) && p.0 != backends[0].id
  {
    if Listed(backends[1..], p) {
      var c :| c in backends[1..] && c.id == p.0 && c.listing.Some? && Has(c.listing.value, p.1);
      assert c in backends;
      var i :| 0 <= i < |backends[1..]| && backends[1..][i] == c;
      assert backends[i + 1].id != backends[0].id;
    }
    if Listed(backends, p) && p.0 != backends[0].id {
      var c :| c in backends && c.id == p.0 && c.listing.Some? && Has(c.listing.value, p.1);
      assert c in backends[1..];
    }
  }

  lemma DisjointPairs(a: seq<Entry>, b: seq<Entry>, id: string)
    requires forall e | e in a :: e.backendId == id
    requires forall e | e in b :: e.backendId != id
    requires forall i, j | 0 <= i < j < |a| :: a[i].id != a[j].id
    requires forall i, j | 0 <= i < j < |b| :: EntryPair(b[i]) != EntryPair(b[j])
    ensures forall i, j | 0 <= i < j < |a + b| :: EntryPair((a + b)[i]) != EntryPair((a + b)[j])
  {
    forall i, j | 0 <= i < j < |a + b| ensures EntryPair((a + b)[i]) != EntryPair((a + b)[j]) {
      if i < |a| <= j { assert a[i] in a && b[j - |a|] in b; }
    }
  }

  // ---- Counting ---------------------------------------------------------------------

  ghost function CountOnline(backends: seq<Backend>, local: seq<Local>, n: nat): nat
    requires n <= |local|
  {
    if n == 0 then 0 else CountOnline(backends, local, n - 1) + if Online(backends, local, n - 1) then 1 else 0
  }

  /** Listed pairs that one of the first `n` local rows names. */
  ghost predicate ClaimedBy(local: seq<Local>, n: nat, p: Pair)
    requires n <= |local|
  {
    exists j :: 0 <= j < n && PairOf(local[j]) == p
  }

  ghost function Free(local: seq<Local>, n: nat, listed: set<Pair>): set<Pair>
    requires n <= |local|
  {
    set p | p in listed && !ClaimedBy(local, n, p)
  }

  lemma FreeStep(local: seq<Local>, n: nat, listed: set<Pair>)
    requires n < |local|
    ensures Free(local, n + 1, listed) == Free(local, n, listed) - {PairOf(local[n])}
  {
    forall p ensures ClaimedBy(local, n + 1, p) <==> ClaimedBy(local, n, p) || p == PairOf(local[n]) {
      if p == PairOf(local[n]) { assert PairOf(local[n]) == p; }
    }
  }

  /** Each online row takes exactly one pair out of the listed ones. */
  lemma {:induction false} OnlineTakesOne(backends: seq<Backend>, local: seq<Local>, n: nat, listed: set<Pair>)
    requires n <= |local| && forall p :: p in listed <==> Listed(backends, p)
    ensures |Free(local, n, listed)| == |listed| - CountOnline(backends, local, n)
  {
    if n == 0 {
      assert Free(local, n, listed) == listed;
    } else {
      OnlineTakesOne(backends, local, n - 1, listed);
      FreeStep(local, n - 1, listed);
      assert Online(backends, local, n - 1) <==> PairOf(local[n - 1]) in Free(local, n - 1, listed);
    }
  }

  lemma {:induction false} DistinctSize(es: seq<Entry>, ps: set<Pair>)
    requires forall i, j | 0 <= i < j < |es| :: EntryPair(es[i]) != EntryPair(es[j])
    requires forall p :: p in ps <==> exists e :: e in es && EntryPair(e) == p
    ensures |es| == |ps|
  {
    if es == [] {
      assert ps == {};
    } else {
      var p := EntryPair(es[0]);
      forall q ensures q in ps - {p} <==> exists e :: e in es[1..] && EntryPair(e) == q {
        if q in ps - {p} {
          var e :| e in es && EntryPair(e) == q;
          assert e in es[1..];
        }
        if e :| e in es[1..] && EntryPair(e) == q {
          var i :| 0 <= i < |es[1..]| && es[1..][i] == e;
          assert es[i + 1] == e && e in es;
        }
      }
      DistinctSize(es[1..], ps - {p});
      assert es[0] in es && p in ps;
    }
  }

  lemma TailLength(backends: seq<Backend>, local: seq<Local>, listed: set<Pair>)
    requires DistinctIds(backends) && forall p :: p in listed <==> Listed(backends, p)
    ensures |Tail(backends, local)| == |listed| - CountOnline(backends, local, |local|)
  {
    TailShape(backends, local);
    OnlineTakesOne(backends, local, |local|, listed);
    var tail := Tail(backends, local);
    var left := Free(local, |local|, listed);
    forall p ensures p in left <==> exists e :: e in tail && EntryPair(e) == p {
      UnclaimedIsLeft(backends, local, p);
    }
    DistinctSize(tail, left);
  }

  lemma UnclaimedIsLeft(backends: seq<Backend>, local: seq<Local>, p: Pair)
    ensures Unclaimed(backends, local, p) <==> Listed(backends, p) && !ClaimedBy(local, |local|, p)
  {
    if l :| l in local && PairOf(l) == p {
      var j :| 0 <= j < |local| && local[j] == l;
      assert ClaimedBy(local, |local|, p);
    }
  }

  /** The rest of the list: the unclaimed listed pairs, each once, online and without
      configuration. */
  ghost predicate IsRest(backends: seq<Backend>, local: seq<Local>, rest: seq<Entry>) {
    && (forall e | e in rest :: IsRemoteEntry(e))
    && (forall i, j | 0 <= i < j < |rest| :: EntryPair(rest[i]) != EntryPair(rest[j]))
    && (forall p :: (exists e :: e in rest && EntryPair(e) == p) <==> Unclaimed(backends, local, p))
  }

  /** The local/remote join: it fails exactly when a local row names an unknown
      backend; otherwise every local row comes first, in order, described as above;
      then the rest, as last reported and in the order of the backends and their
      listings; and the length is local + listed - matched. */
  lemma JoinPromises(backends: seq<Backend>, local: seq<Local>, paths: seq<PathRow>, listed: set<Pair>)
    requires DistinctIds(backends) && forall p :: p in listed <==> Listed(backends, p)
    ensures var r := Join(backends, local, paths);
      && (r.Ok? <==> AllFound(backends, local, |local|))
      && (r.Ok? ==>
            && |r.value| == |local| + |listed| - CountOnline(backends, local, |local|)
            && |local| <= |r.value|
            && (forall i | 0 <= i < |local| :: Describes(backends, local, paths, i, r.value[i]))
            && IsRest(backends, local, r.value[|local|..])
            && InOrder(backends, r.value[|local|..]) && AsReported(backends, r.value[|local|..]))
  {
    var attempts := Attempts(backends, local, paths);
    CollectShape(attempts, |local|);
    AttemptsFound(backends, local, paths);
    var es := Collect(attempts, |local|);
    if es.Ok? {
      TailShape(backends, local);
      TailInOrder(backends, local);
      TailAsReported(backends, local);
      assert IsRest(backends, local, Tail(backends, local));
      TailLength(backends, local, listed);
      assert (es.value + Tail(backends, local))[|local|..] == Tail(backends, local);
      forall i | 0 <= i < |local| ensures Describes(backends, local, paths, i, (es.value + Tail(backends, local))[i]) {
        AttemptDescribes(backends, local, paths, i);
      }
    }
  }

  /** The remote pair entry `k` stands for. */
  function RemotePair(local: seq<Local>, es: seq<Entry>, k: nat): Pair
    requires k < |es|
  {
    if k < |local| then PairOf(local[k]) else EntryPair(es[k])
  }

  /** `es` is a join of these tables. */
  ghost predicate Joined(backends: seq<Backend>, local: seq<Local>, paths: seq<PathRow>, es: seq<Entry>) {
    && |local| <= |es|
    && (forall i | 0 <= i < |local| :: Describes(backends, local, paths, i, es[i]))
    && (forall i, j | |local| <= i < j < |es| :: EntryPair(es[i]) != EntryPair(es[j]))
    && (forall i | |local| <= i < |es| :: Unclaimed(backends, local, EntryPair(es[i])))
    && (forall p | Unclaimed(backends, local, p) :: exists i :: |local| <= i < |es| && es[i].online && EntryPair(es[i]) == p)
  }

  /** The rest's properties, by position in the whole list. */
  lemma RestByPosition(backends: seq<Backend>, local: seq<Local>, es: seq<Entry>)
    requires |local| <= |es| && IsRest(backends, local, es[|local|..])
    ensures forall i, j | |local| <= i < j < |es| :: EntryPair(es[i]) != EntryPair(es[j])
    ensures forall i | |local| <= i < |es| :: Unclaimed(backends, local, EntryPair(es[i]))
    ensures forall p | Unclaimed(backends, local, p) :: exists i :: |local| <= i < |es| && es[i].online && EntryPair(es[i]) == p
  {
    var rest := es[|local|..];
    forall i, j | |local| <= i < j < |es| ensures EntryPair(es[i]) != EntryPair(es[j]) {
      assert rest[i - |local|] == es[i] && rest[j - |local|] == es[j];
    }
    forall i | |local| <= i < |es| ensures Unclaimed(backends, local, EntryPair(es[i])) {
      assert es[i] == rest[i - |local|] && es[i] in rest;
    }
    forall p | Unclaimed(backends, local, p) ensures exists i :: |local| <= i < |es| && es[i].online && EntryPair(es[i]) == p {
      var e :| e in rest && EntryPair(e) == p;
      var i :| 0 <= i < |rest| && rest[i] == e;
      assert es[|local| + i] == e;
    }
  }

  lemma JoinIsJoined(backends: seq<Backend>, local: seq<Local>, paths: seq<PathRow>, listed: set<Pair>)
    requires DistinctIds(backends) && forall q :: q in listed <==> Listed(backends, q)
    requires Join(backends, local, paths).Ok?
    ensures Joined(backends, local, paths, Join(backends, local, paths).value)
  {
    JoinPromises(backends, local, paths, listed);
    RestByPosition(backends, local, Join(backends, local, paths).value);
  }

  lemma OnlinePairsDiffer(backends: seq<Backend>, local: seq<Local>, paths: seq<PathRow>, es: seq<Entry>, k: nat, m: nat)
    requires Joined(backends, local, paths, es) && k < m < |es| && es[k].online && es[m].online
    ensures RemotePair(local, es, k) != RemotePair(local, es, m)
    ensures Listed(backends, RemotePair(local, es, k)) && Listed(backends, RemotePair(local, es, m))
  {
    if k < |local| {
      assert Describes(backends, local, paths, k, es[k]);
      assert local[k] in local;
    }
    if m < |local| { assert Describes(backends, local, paths, m, es[m]); }
  }

  lemma ListedPairAppears(backends: seq<Backend>, local: seq<Local>, paths: seq<PathRow>, es: seq<Entry>, p: Pair) returns (k: nat)
    requires Joined(backends, local, paths, es) && Listed(backends, p)
    ensures k < |es| && es[k].online && RemotePair(local, es, k) == p
  {
    if Unclaimed(backends, local, p) {
      k :| |local| <= k < |es| && es[k].online && EntryPair(es[k]) == p;
    } else {
      var l :| l in local && PairOf(l) == p;
      var j :| 0 <= j < |local| && local[j] == l;
      k := FirstWith(local, p, j);
      assert Online(backends, local, k);
      assert Describes(backends, local, paths, k, es[k]);
    }
  }

  /** Every listed pair is in exactly one online entry. */
  lemma ListedPairIsOnlineOnce(backends: seq<Backend>, local: seq<Local>, paths: seq<PathRow>, listed: set<Pair>, p: Pair)
    requires DistinctIds(backends) && forall q :: q in listed <==> Listed(backends, q)
    requires Join(backends, local, paths).Ok? && p in listed
    ensures var es := Join(backends, local, paths).value;
      exists k: nat :: k < |es| && es[k].online && RemotePair(local, es, k) == p
        && forall m: nat | m < |es| && es[m].online && RemotePair(local, es, m) == p :: m == k
  {
    JoinIsJoined(backends, local, paths, listed);
    var es := Join(backends, local, paths).value;
    var k := ListedPairAppears(backends, local, paths, es, p);
    forall m: nat | m < |es| && es[m].online && RemotePair(local, es, m) == p ensures m == k {
      if m < k { OnlinePairsDiffer(backends, local, paths, es, m, k); }
      if k < m { OnlinePairsDiffer(backends, local, paths, es, k, m); }
    }
  }

  lemma {:induction false} FirstWith(local: seq<Local>, p: Pair, j: nat) returns (i: nat)
    requires j < |local| && PairOf(local[j]) == p
    ensures i <= j && PairOf(local[i]) == p && forall k | 0 <= k < i :: PairOf(local[k]) != p
  {
    if k :| 0 <= k < j && PairOf(local[k]) == p { i := FirstWith(local, p, k); } else { i := j; }
  }
}
