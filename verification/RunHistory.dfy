/** Run history rows from `createLog` to their final status, the events about
    them, and the list a client keeps by loading once and replaying events. */
module RunHistory {
  import opened Prelude

  datatype Status = Incomplete | Complete | Failed

  datatype Row = Row(repositoryId: string, start: nat, status: Status, end: Option<nat>)

  datatype Event = RunCreate(id: nat, row: Row) | RunUpdate(id: nat, repositoryId: string, status: Status, end: nat)

  /** Where a `createLog` call stands. Opening: before the row exists. Inserted: the
      row exists, nothing published. Running: the body runs. Settling: the body has
      settled and the final update is awaited. Updated: row updated, not published.
      Aborted: failed before the body. Broken: the update of a failure failed. */
  datatype Phase = Opening | Inserted | Running | Settling(ok: bool) | Updated(ok: bool, end: nat) | Closed(ok: bool) | Aborted | Broken

  /** `callbacks` lists the calls of the callback, true without an error. History:
      how the body settled, whether the first final update failed, and whether a
      bootstrap marked the row while it was incomplete. */
  datatype Call = Call(repositoryId: string, phase: Phase, callbacks: seq<bool>, settled: Option<bool>, faulted: bool, swept: bool)

  datatype State = State(rows: map<nat, Row>, calls: map<nat, Call>, events: seq<Event>)

  const EMPTY := State(map[], map[], [])

  datatype Step =
    | Open(id: nat, repositoryId: string)
    | OpenFail(id: nat)
    | Insert(id: nat, start: nat)
    | Resume(id: nat)
    | Settle(id: nat, ok: bool)
    | UpdateRow(id: nat, end: nat)
    | UpdateFault(id: nat)
    | Publish(id: nat)
    | Bootstrap

  function Final(ok: bool): Status {
    if ok then Complete else Failed
  }

  function InsertRow(rows: map<nat, Row>, id: nat, repositoryId: string, start: nat): map<nat, Row> {
    rows[id := Row(repositoryId, start, Incomplete, None)]
  }

  function Finalize(rows: map<nat, Row>, id: nat, ok: bool, end: nat): map<nat, Row> {
    if id in rows then rows[id := rows[id].(status := Final(ok), end := Some(end))] else rows
  }

  function MarkFailed(row: Row): Row {
    if row.status == Incomplete then row.(status := Failed) else row
  }

  function MarkIncomplete(rows: map<nat, Row>): map<nat, Row> {
    map id | id in rows :: MarkFailed(rows[id])
  }

  predicate At(s: State, id: nat, phase: Phase) {
    id in s.calls && s.calls[id].phase == phase
  }

  function With(s: State, id: nat, call: Call): State {
    s.(calls := s.calls[id := call])
  }

  function Apply(s: State, e: Step): State {
    match e
    case Open(id, r) =>
      if id in s.calls then s else With(s, id, Call(r, Opening, [], None, false, false))
    case OpenFail(id) =>
      if At(s, id, Opening) then With(s, id, s.calls[id].(phase := Aborted, callbacks := [false])) else s
    case Insert(id, start) =>
      if At(s, id, Opening)
      then With(s, id, s.calls[id].(phase := Inserted)).(rows := InsertRow(s.rows, id, s.calls[id].repositoryId, start))
      else s
    case Resume(id) =>
      if At(s, id, Inserted) && id in s.rows
      then With(s, id, s.calls[id].(phase := Running)).(events := s.events + [Created(s, id)])
      else s
    case Settle(id, ok) =>
      if At(s, id, Running)
      then With(s, id, s.calls[id].(phase := Settling(ok), callbacks := s.calls[id].callbacks + [ok], settled := Some(ok)))
      else s
    case UpdateRow(id, end) =>
      if id in s.calls && s.calls[id].phase.Settling?
      then With(s, id, s.calls[id].(phase := Updated(s.calls[id].phase.ok, end)))
             .(rows := Finalize(s.rows, id, s.calls[id].phase.ok, end))
      else s
    case UpdateFault(id) =>
      if At(s, id, Settling(true))
      then With(s, id, s.calls[id].(phase := Settling(false), callbacks := s.calls[id].callbacks + [false], faulted := true))
      else if At(s, id, Settling(false)) then With(s, id, s.calls[id].(phase := Broken))
      else s
    case Publish(id) =>
      if id in s.calls && s.calls[id].phase.Updated?
      then With(s, id, s.calls[id].(phase := Closed(s.calls[id].phase.ok)))
             .(events := s.events + [RunUpdate(id, s.calls[id].repositoryId, Final(s.calls[id].phase.ok), s.calls[id].phase.end)])
      else s
    case Bootstrap =>
      s.(rows := MarkIncomplete(s.rows),
         calls := map id | id in s.calls ::
           if id in s.rows && s.rows[id].status == Incomplete then s.calls[id].(swept := true) else s.calls[id])
  }

  /** The event carries the row as it was inserted. */
  function Created(s: State, id: nat): Event
    requires id in s.rows && id in s.calls
  {
    RunCreate(id, Row(s.calls[id].repositoryId, s.rows[id].start, Incomplete, None))
  }

  function Run(s: State, es: seq<Step>): State
    decreases |es|
  {
    if es == [] then s else Run(Apply(s, es[0]), es[1..])
  }

  // ---- Every row and every callback, in every run ----------------------------------

  /** A call's row and callbacks, exactly. */
  predicate CallExact(c: Call, row: Option<Row>) {
    match c.phase
    case Opening => row == None && c.callbacks == [] && c.settled == None && !c.faulted && !c.swept
    case Aborted => row == None && c.callbacks == [false] && c.settled == None && !c.faulted && !c.swept
    case Inserted => Unfinished(c, row) && c.callbacks == [] && c.settled == None && !c.faulted
    case Running => Unfinished(c, row) && c.callbacks == [] && c.settled == None && !c.faulted
    case Settling(ok) => Unfinished(c, row) && Called(c, ok)
    case Broken => Unfinished(c, row) && Called(c, false)
    case Updated(ok, end) => Ended(c, row, ok) && row.value.end == Some(end)
    case Closed(ok) => Ended(c, row, ok)
  }

  /** Not finalised: Incomplete, or Failed by a bootstrap. */
  predicate Unfinished(c: Call, row: Option<Row>) {
    row.Some? && row.value == Row(c.repositoryId, row.value.start, if c.swept then Failed else Incomplete, None)
  }

  /** The callback ran once with the body's outcome, and once more with an error
      exactly if the body had succeeded and its final update failed. */
  predicate Called(c: Call, ok: bool) {
    && c.settled.Some? && ok == (c.settled.value && !c.faulted) && (c.faulted ==> c.settled.value)
    && c.callbacks == if c.faulted then [true, false] else [c.settled.value]
  }

  predicate Ended(c: Call, row: Option<Row>, ok: bool) {
    && Called(c, ok)
    && row.Some? && row.value.end.Some?
    && row.value == Row(c.repositoryId, row.value.start, Final(ok), row.value.end)
  }

  function RowOf(s: State, id: nat): Option<Row> {
    if id in s.rows then Some(s.rows[id]) else None
  }

  ghost predicate Exact(s: State) {
    && s.rows.Keys <= s.calls.Keys
    && forall id | id in s.calls :: CallExact(s.calls[id], RowOf(s, id))
  }

  lemma {:induction false} ExactInsert(s: State, id: nat, start: nat)
    requires id in s.calls && CallExact(s.calls[id], RowOf(s, id))
    ensures var s' := Apply(s, Insert(id, start)); id in s'.calls && CallExact(s'.calls[id], RowOf(s', id))
  {
  }

  lemma {:induction false} ExactUpdate(s: State, id: nat, end: nat)
    requires id in s.calls && CallExact(s.calls[id], RowOf(s, id))
    ensures var s' := Apply(s, UpdateRow(id, end)); id in s'.calls && CallExact(s'.calls[id], RowOf(s', id))
  {
  }

  lemma {:induction false} ExactFault(s: State, id: nat)
    requires id in s.calls && CallExact(s.calls[id], RowOf(s, id))
    ensures var s' := Apply(s, UpdateFault(id)); id in s'.calls && CallExact(s'.calls[id], RowOf(s', id))
  {
  }

  lemma {:induction false} ExactSettle(s: State, id: nat, ok: bool)
    requires id in s.calls && CallExact(s.calls[id], RowOf(s, id))
    ensures var s' := Apply(s, Settle(id, ok)); id in s'.calls && CallExact(s'.calls[id], RowOf(s', id))
  {
  }

  lemma {:induction false} ExactResume(s: State, id: nat)
    requires id in s.calls && CallExact(s.calls[id], RowOf(s, id))
    ensures var s' := Apply(s, Resume(id)); id in s'.calls && CallExact(s'.calls[id], RowOf(s', id))
  {
  }

  lemma {:induction false} ExactPublish(s: State, id: nat)
    requires id in s.calls && CallExact(s.calls[id], RowOf(s, id))
    ensures var s' := Apply(s, Publish(id)); id in s'.calls && CallExact(s'.calls[id], RowOf(s', id))
  {
  }

  lemma {:induction false} ExactOpen(s: State, id: nat, repositoryId: string)
    requires id in s.calls && CallExact(s.calls[id], RowOf(s, id))
    ensures var s' := Apply(s, Open(id, repositoryId)); id in s'.calls && CallExact(s'.calls[id], RowOf(s', id))
  {
  }

  lemma {:induction false} ExactOpenFail(s: State, id: nat)
    requires id in s.calls && CallExact(s.calls[id], RowOf(s, id))
    ensures var s' := Apply(s, OpenFail(id)); id in s'.calls && CallExact(s'.calls[id], RowOf(s', id))
  {
  }

  lemma {:induction false} ExactBootstrap(s: State, id: nat)
    requires id in s.calls && CallExact(s.calls[id], RowOf(s, id))
    ensures var s' := Apply(s, Bootstrap); id in s'.calls && CallExact(s'.calls[id], RowOf(s', id))
  {
  }

  /** Another call's step changes neither the call nor its row. */
  lemma {:induction false} OtherCall(s: State, e: Step, id: nat)
    requires e != Bootstrap && e.id != id && id in s.calls
    ensures id in Apply(s, e).calls && Apply(s, e).calls[id] == s.calls[id] && RowOf(Apply(s, e), id) == RowOf(s, id)
  {
  }

  lemma {:induction false} ExactCall(s: State, e: Step, id: nat)
    requires id in s.calls && CallExact(s.calls[id], RowOf(s, id))
    ensures id in Apply(s, e).calls && CallExact(Apply(s, e).calls[id], RowOf(Apply(s, e), id))
  {
    if e != Bootstrap && e.id != id {
      OtherCall(s, e, id);
    } else {
      match e
      case Open(_, r) => ExactOpen(s, id, r);
      case OpenFail(_) => ExactOpenFail(s, id);
      case Insert(_, start) => ExactInsert(s, id, start);
      case Resume(_) => ExactResume(s, id);
      case Settle(_, ok) => ExactSettle(s, id, ok);
      case UpdateRow(_, end) => ExactUpdate(s, id, end);
      case UpdateFault(_) => ExactFault(s, id);
      case Publish(_) => ExactPublish(s, id);
      case Bootstrap => ExactBootstrap(s, id);
    }
  }

  lemma {:induction false} ExactStep(s: State, e: Step)
    requires Exact(s)
    ensures Exact(Apply(s, e))
  {
    var s' := Apply(s, e);
    forall id | id in s'.calls ensures CallExact(s'.calls[id], RowOf(s', id)) {
      if id in s.calls { ExactCall(s, e, id); }
    }
  }

  /** In every run, bootstraps and database faults included: the final status is
      Complete exactly when the body succeeded and its update did, a row is
      Incomplete until then unless a bootstrap failed it, and the callback fires
      once, or twice exactly when the update of a success failed. */
  lemma {:induction false} RunsAreExact(s: State, es: seq<Step>)
    requires Exact(s)
    ensures Exact(Run(s, es))
    decreases |es|
  {
    if es != [] {
      ExactStep(s, es[0]);
      RunsAreExact(Apply(s, es[0]), es[1..]);
    }
  }

  /** Right after a bootstrap no row is Incomplete. */
  lemma NothingIncompleteAfterBootstrap(s: State)
    ensures var rows := Apply(s, Bootstrap).rows;
      && rows.Keys == s.rows.Keys && (forall id | id in rows :: rows[id].status != Incomplete)
      && (forall id | id in s.rows && s.rows[id].status != Incomplete :: rows[id] == s.rows[id])
      && (forall id | id in s.rows && s.rows[id].status == Incomplete :: rows[id] == s.rows[id].(status := Failed))
  {
  }

  predicate IsFinished(s: State, id: nat) {
    id in s.calls && id in s.rows && (s.calls[id].phase.Updated? || s.calls[id].phase.Closed?) && s.rows[id].status != Incomplete
  }

  lemma FinishedStep(s: State, e: Step, id: nat)
    requires IsFinished(s, id)
    ensures IsFinished(Apply(s, e), id) && Apply(s, e).rows[id] == s.rows[id]
  {
  }

  lemma {:induction false} FinishedRun(s: State, es: seq<Step>, id: nat)
    requires IsFinished(s, id)
    ensures id in Run(s, es).rows && Run(s, es).rows[id] == s.rows[id]
    decreases |es|
  {
    if es != [] {
      FinishedStep(s, es[0], id);
      FinishedRun(Apply(s, es[0]), es[1..], id);
    }
  }

  /** A row moves once: after its final update it never changes again. */
  lemma {:induction false} FinalIsForever(s: State, es: seq<Step>, id: nat)
    requires Exact(s) && id in s.calls && (s.calls[id].phase.Updated? || s.calls[id].phase.Closed?)
    ensures id in s.rows && id in Run(s, es).rows && Run(s, es).rows[id] == s.rows[id]
  {
    assert CallExact(s.calls[id], RowOf(s, id));
    FinishedRun(s, es, id);
  }

  // ---- The client's list -------------------------------------------------------------

  datatype Entry = Entry(id: nat, row: Row)

  /** The reducers of the run list of repository `r`; undefined stays undefined. */
  function OnRunCreate(data: Option<seq<Entry>>, e: Event, r: string): Option<seq<Entry>>
    requires e.RunCreate?
  {
    if data.Some? && e.row.repositoryId == r then Some([Entry(e.id, e.row)] + data.value) else data
  }

  function Patch(entry: Entry, e: Event): Entry
    requires e.RunUpdate?
  {
    if entry.id == e.id then Entry(entry.id, entry.row.(status := e.status, end := Some(e.end))) else entry
  }

  function OnRunUpdate(data: Option<seq<Entry>>, e: Event, r: string): Option<seq<Entry>>
    requires e.RunUpdate?
  {
    if data.Some? && e.repositoryId == r
    then Some(seq(|data.value|, i requires 0 <= i < |data.value| => Patch(data.value[i], e))) else data
  }

  function Reduce(data: Option<seq<Entry>>, e: Event, r: string): Option<seq<Entry>> {
    match e
    case RunCreate(_, _) => OnRunCreate(data, e, r)
    case RunUpdate(_, _, _, _) => OnRunUpdate(data, e, r)
  }

  function Replay(data: Option<seq<Entry>>, events: seq<Event>, r: string): Option<seq<Entry>> {
    if events == [] then data else Reduce(Replay(data, events[..|events| - 1], r), events[|events| - 1], r)
  }

  predicate About(e: Event, r: string) {
    match e
    case RunCreate(_, row) => row.repositoryId == r
    case RunUpdate(_, repositoryId, _, _) => repositoryId == r
  }

  /** Events never create a list that was not loaded, nor touch the list of another
      repository. */
  lemma {:induction false} ReplayUnaffected(data: Option<seq<Entry>>, events: seq<Event>, r: string)
    requires data == None || forall e | e in events :: !About(e, r)
    ensures Replay(data, events, r) == data
  {
    if events != [] {
      ReplayUnaffected(data, events[..|events| - 1], r);
      assert events[|events| - 1] in events;
    }
  }

  ghost predicate DistinctIds(list: seq<Entry>) {
    forall i, j :: 0 <= i < j < |list| ==> list[i].id != list[j].id
  }

  /** The list is exactly the stored rows of `r`, each once. */
  ghost predicate Holds(list: seq<Entry>, s: State, r: string) {
    && DistinctIds(list)
    && (forall e | e in list :: e.id in s.rows && e.row == s.rows[e.id] && e.row.repositoryId == r)
    && (forall id | id in s.rows && s.rows[id].repositoryId == r :: Once(list, id))
  }

  predicate IsEnded(phase: Phase) {
    phase.Updated? || phase.Closed?
  }

  /** The runs of `r` that a bootstrap has marked. */
  ghost function Marked(s: State, r: string): set<nat> {
    set id | id in s.calls && s.calls[id].repositoryId == r && s.calls[id].swept
  }

  /** Marked by a bootstrap, not among `marked`, and not finalised since: no event has
      told a client of the Failed the row shows. */
  predicate Stale(s: State, id: nat, marked: set<nat>) {
    id in s.calls && s.calls[id].swept && id !in marked && !IsEnded(s.calls[id].phase)
  }

  /** A listed run: its creation is published, and its row is current unless its
      final update is not yet published or a bootstrap has marked it. */
  predicate Current(e: Entry, s: State, r: string, marked: set<nat>) {
    && e.id in s.rows && e.id in s.calls && s.calls[e.id].phase != Inserted && s.rows[e.id].repositoryId == r
    && if s.calls[e.id].phase.Updated? then e.row.repositoryId == r && e.row.start == s.rows[e.id].start
       else if Stale(s, e.id, marked) then e.row == s.rows[e.id].(status := Incomplete)
       else e.row == s.rows[e.id]
  }

  /** A stored run of `r` whose creation is published. */
  predicate Visible(s: State, id: nat, r: string) {
    id in s.rows && id in s.calls && s.calls[id].phase != Inserted && s.rows[id].repositoryId == r
  }

  /** An entry for run `id`. */
  ghost predicate Once(list: seq<Entry>, id: nat) {
    exists i :: 0 <= i < |list| && list[i].id == id
  }

  /** The list while events are outstanding: rows whose creation is not yet
      published are missing, rows whose update is not yet published may be old.
      `marked` are the runs of `r` marked before the list was loaded. */
  ghost predicate Tracks(list: seq<Entry>, s: State, r: string, marked: set<nat>) {
    && DistinctIds(list)
    && (forall e | e in list :: Current(e, s, r, marked))
    && (forall id | Visible(s, id, r) :: Once(list, id))
    && (forall id | id in marked :: id in s.calls && s.calls[id].swept && s.calls[id].phase !in {Opening, Inserted})
  }

  /** No row of `r` is between its insertion and its RunCreate. */
  ghost predicate NoneInserted(s: State, r: string) {
    forall id | id in s.calls && s.calls[id].repositoryId == r :: s.calls[id].phase != Inserted
  }

  /** Nothing about `r` is waiting to be published. */
  ghost predicate AllPublished(s: State, r: string) {
    NoneInserted(s, r) && forall id | id in s.calls && s.calls[id].repositoryId == r :: !s.calls[id].phase.Updated?
  }

  /** What a step publishes. */
  function Published(s: State, e: Step): Option<Event> {
    if e.Resume? && At(s, e.id, Inserted) && e.id in s.rows then Some(Created(s, e.id))
    else if e.Publish? && e.id in s.calls && s.calls[e.id].phase.Updated? then
      Some(RunUpdate(e.id, s.calls[e.id].repositoryId, Final(s.calls[e.id].phase.ok), s.calls[e.id].phase.end))
    else None
  }

  lemma StepPublishes(s: State, e: Step)
    ensures Apply(s, e).events == s.events + match Published(s, e) case Some(x) => [x] case None => []
  {
  }

  /** The client's list after a step: the event it publishes, reduced. */
  function Follow(data: Option<seq<Entry>>, s: State, e: Step, r: string): Option<seq<Entry>> {
    match Published(s, e) case Some(x) => Reduce(data, x, r) case None => data
  }

  function FollowAll(data: Option<seq<Entry>>, s: State, es: seq<Step>, r: string): Option<seq<Entry>>
    decreases |es|
  {
    if es == [] then data else FollowAll(Follow(data, s, es[0], r), Apply(s, es[0]), es[1..], r)
  }

  lemma ReplaySnoc(data: Option<seq<Entry>>, since: seq<Event>, x: Event, r: string)
    ensures Replay(data, since + [x], r) == Reduce(Replay(data, since, r), x, r)
  {
    assert (since + [x])[..|since + [x]| - 1] == since;
  }

  lemma {:induction false} EventsGrow(s: State, es: seq<Step>)
    ensures s.events <= Run(s, es).events
    decreases |es|
  {
    if es != [] {
      StepPublishes(s, es[0]);
      EventsGrow(Apply(s, es[0]), es[1..]);
    }
  }

  lemma SplitEvents(since: seq<Event>, before: seq<Event>, x: Event, all: seq<Event>)
    requires before + [x] <= all
    ensures since + [x] + all[|before + [x]|..] == since + all[|before|..]
  {
    assert all[|before|..] == [x] + all[|before| + 1..];
  }

  /** Following step by step is replaying the events published since the load. */
  lemma {:induction false} FollowIsReplay(data: Option<seq<Entry>>, s: State, es: seq<Step>, r: string, since: seq<Event>)
    ensures s.events <= Run(s, es).events
    ensures FollowAll(Replay(data, since, r), s, es, r) == Replay(data, since + Run(s, es).events[|s.events|..], r)
    decreases |es|
  {
    EventsGrow(s, es);
    if es == [] {
      assert since + s.events[|s.events|..] == since;
    } else {
      var s1 := Apply(s, es[0]);
      EventsGrow(s1, es[1..]);
      StepPublishes(s, es[0]);
      var all := Run(s1, es[1..]).events;
      match Published(s, es[0])
      case Some(x) =>
        ReplaySnoc(data, since, x, r);
        FollowIsReplay(data, s1, es[1..], r, since + [x]);
        SplitEvents(since, s.events, x, all);
      case None =>
        FollowIsReplay(data, s1, es[1..], r, since);
    }
  }

  /** From `s` to `s'` no row was inserted, finalised or marked, and nothing was
      published. */
  ghost predicate SameRows(s: State, s': State) {
    && s'.rows == s.rows && s.calls.Keys <= s'.calls.Keys
    && (forall id | id in s.calls :: SameCall(s.calls[id], s'.calls[id]))
    && (forall id | id in s'.calls && s'.calls[id].phase.Inserted? :: id in s.calls)
  }

  predicate SameCall(c: Call, c': Call) {
    && c'.repositoryId == c.repositoryId && c'.swept == c.swept
    && (c'.phase.Updated? <==> c.phase.Updated?) && (c'.phase.Closed? <==> c.phase.Closed?)
    && (c'.phase.Inserted? <==> c.phase.Inserted?) && (c'.phase.Opening? ==> c.phase.Opening?)
  }

  lemma TracksSame(list: seq<Entry>, s: State, s': State, r: string, marked: set<nat>)
    requires Tracks(list, s, r, marked) && s.rows.Keys <= s.calls.Keys && SameRows(s, s')
    ensures Tracks(list, s', r, marked)
  {
    forall e | e in list ensures Current(e, s', r, marked) {
      assert Current(e, s, r, marked) && SameCall(s.calls[e.id], s'.calls[e.id]);
    }
    forall k | Visible(s', k, r) ensures Once(list, k) {
      assert SameCall(s.calls[k], s'.calls[k]);
      assert Visible(s, k, r);
    }
  }

  lemma QuietIsSameRows(s: State, e: Step)
    requires e.Open? || e.OpenFail? || e.Settle? || e.UpdateFault?
    ensures SameRows(s, Apply(s, e))
  {
    if e.Open? {
      assert SameRows(s, Apply(s, e));
    } else if e.id in s.calls {
      assert forall id | id in s.calls && id != e.id :: Apply(s, e).calls[id] == s.calls[id];
    }
  }

  lemma TracksInsert(list: seq<Entry>, s: State, id: nat, start: nat, r: string, marked: set<nat>)
    requires Exact(s) && Tracks(list, s, r, marked) && At(s, id, Opening)
    ensures Tracks(list, Apply(s, Insert(id, start)), r, marked)
  {
    assert CallExact(s.calls[id], RowOf(s, id));
    var s' := Apply(s, Insert(id, start));
    forall e | e in list ensures Current(e, s', r, marked) { assert Current(e, s, r, marked) && e.id != id; }
    forall k | Visible(s', k, r) ensures Once(list, k) { assert Visible(s, k, r); }
  }

  lemma TracksUpdateRow(list: seq<Entry>, s: State, id: nat, end: nat, r: string, marked: set<nat>)
    requires Exact(s) && Tracks(list, s, r, marked) && id in s.calls && s.calls[id].phase.Settling?
    ensures Tracks(list, Apply(s, UpdateRow(id, end)), r, marked)
  {
    assert CallExact(s.calls[id], RowOf(s, id));
    var s' := Apply(s, UpdateRow(id, end));
    forall e | e in list ensures Current(e, s', r, marked) { assert Current(e, s, r, marked); }
    forall k | Visible(s', k, r) ensures Once(list, k) { assert Visible(s, k, r); }
  }

  lemma TracksAdd(list: seq<Entry>, s: State, s': State, id: nat, x: Entry, r: string, marked: set<nat>)
    requires Tracks(list, s, r, marked) && id in s.rows && s.rows[id].repositoryId == r
    requires id in s.calls && s.calls[id].phase == Inserted && x.id == id
    requires x.row == if s.calls[id].swept then s.rows[id].(status := Incomplete) else s.rows[id]
    requires s'.rows == s.rows && s'.calls == s.calls[id := s.calls[id].(phase := Running)]
    ensures Tracks([x] + list, s', r, marked)
  {
    var list' := [x] + list;
    forall i | 0 <= i < |list| ensures list[i].id != id { assert Current(list[i], s, r, marked); }
    forall e | e in list' ensures Current(e, s', r, marked) {
      if e in list { assert Current(e, s, r, marked); }
    }
    forall k | Visible(s', k, r) ensures Once(list', k) {
      CreateKeeps(list, x, k);
      assert list'[0] == x;
      if k != id { assert Visible(s, k, r); }
    }
  }

  lemma TracksResume(list: seq<Entry>, s: State, id: nat, r: string, marked: set<nat>)
    requires Exact(s) && Tracks(list, s, r, marked) && At(s, id, Inserted) && id in s.rows
    ensures Tracks(Follow(Some(list), s, Resume(id), r).value, Apply(s, Resume(id)), r, marked)
  {
    assert CallExact(s.calls[id], RowOf(s, id));
    if s.calls[id].repositoryId == r {
      TracksAdd(list, s, Apply(s, Resume(id)), id, Entry(id, Created(s, id).row), r, marked);
    } else {
      TracksElsewhere(list, s, Apply(s, Resume(id)), id, r, marked);
    }
  }

  lemma TracksElsewhere(list: seq<Entry>, s: State, s': State, id: nat, r: string, marked: set<nat>)
    requires Tracks(list, s, r, marked) && id in s.rows && s.rows[id].repositoryId != r
    requires id in s.calls && s.calls[id].phase == Inserted
    requires s'.rows == s.rows && s'.calls == s.calls[id := s.calls[id].(phase := Running)]
    ensures Tracks(list, s', r, marked)
  {
    forall e | e in list ensures Current(e, s', r, marked) { assert Current(e, s, r, marked); }
    forall k | Visible(s', k, r) ensures Once(list, k) { assert Visible(s, k, r); }
  }

  /** The list with the final status written into the entries of run `id`. */
  lemma TracksPatch(list: seq<Entry>, list': seq<Entry>, s: State, s': State, id: nat, r: string, marked: set<nat>)
    requires Tracks(list, s, r, marked) && id in s.rows && id in s.calls && s.calls[id].phase.Updated?
    requires s'.rows == s.rows && s'.calls == s.calls[id := s.calls[id].(phase := Closed(s.calls[id].phase.ok))]
    requires |list'| == |list|
    requires forall i | 0 <= i < |list| :: list'[i].id == list[i].id
    requires forall i | 0 <= i < |list| :: list'[i] == if list[i].id == id then Entry(id, s.rows[id]) else list[i]
    ensures Tracks(list', s', r, marked)
  {
    forall e | e in list' ensures Current(e, s', r, marked) {
      var i :| 0 <= i < |list'| && list'[i] == e;
      assert Current(list[i], s, r, marked);
    }
    forall k | Visible(s', k, r) ensures Once(list', k) {
      assert Visible(s, k, r);
      SameIdsKeep(list, list', k);
    }
  }

  lemma TracksPublish(list: seq<Entry>, s: State, id: nat, r: string, marked: set<nat>)
    requires Exact(s) && Tracks(list, s, r, marked) && id in s.calls && s.calls[id].phase.Updated?
    ensures Tracks(Follow(Some(list), s, Publish(id), r).value, Apply(s, Publish(id)), r, marked)
  {
    assert CallExact(s.calls[id], RowOf(s, id));
    var list' := Follow(Some(list), s, Publish(id), r).value;
    forall i | 0 <= i < |list| ensures list'[i] == if list[i].id == id then Entry(id, s.rows[id]) else list[i] {
      assert Current(list[i], s, r, marked);
      if s.calls[id].repositoryId == r { assert list'[i] == Patch(list[i], Published(s, Publish(id)).value); }
    }
    TracksPatch(list, list', s, Apply(s, Publish(id)), id, r, marked);
  }

  /** A bootstrap tells nobody; what it marks becomes stale. */
  lemma {:induction false} CurrentBootstrap(e: Entry, s: State, r: string, marked: set<nat>)
    requires Exact(s) && Current(e, s, r, marked)
    requires e.id in marked ==> s.calls[e.id].swept
    ensures Current(e, Apply(s, Bootstrap), r, marked)
  {
    assert CallExact(s.calls[e.id], RowOf(s, e.id));
  }

  lemma {:induction false} TracksBootstrap(list: seq<Entry>, s: State, r: string, marked: set<nat>)
    requires Exact(s) && Tracks(list, s, r, marked)
    ensures Tracks(list, Apply(s, Bootstrap), r, marked)
  {
    forall e | e in list ensures Current(e, Apply(s, Bootstrap), r, marked) { CurrentBootstrap(e, s, r, marked); }
    forall k | Visible(Apply(s, Bootstrap), k, r) ensures Once(list, k) { assert Visible(s, k, r); }
  }

  lemma TracksStep(list: seq<Entry>, s: State, e: Step, r: string, marked: set<nat>)
    requires Exact(s) && Tracks(list, s, r, marked)
    ensures Follow(Some(list), s, e, r).Some?
    ensures Tracks(Follow(Some(list), s, e, r).value, Apply(s, e), r, marked)
  {
    if e.Open? || e.OpenFail? || e.Settle? || e.UpdateFault? {
      QuietIsSameRows(s, e);
      TracksSame(list, s, Apply(s, e), r, marked);
    } else if e == Bootstrap {
      TracksBootstrap(list, s, r, marked);
    } else if e.Insert? && At(s, e.id, Opening) {
      TracksInsert(list, s, e.id, e.start, r, marked);
    } else if e.UpdateRow? && e.id in s.calls && s.calls[e.id].phase.Settling? {
      TracksUpdateRow(list, s, e.id, e.end, r, marked);
    } else if e.Resume? && At(s, e.id, Inserted) && e.id in s.rows {
      TracksResume(list, s, e.id, r, marked);
    } else if e.Publish? && e.id in s.calls && s.calls[e.id].phase.Updated? {
      TracksPublish(list, s, e.id, r, marked);
    } else {
      assert Apply(s, e) == s;
    }
  }

  lemma {:induction false} TracksRun(list: seq<Entry>, s: State, es: seq<Step>, r: string, marked: set<nat>)
    requires Exact(s) && Tracks(list, s, r, marked)
    ensures Exact(Run(s, es))
    ensures FollowAll(Some(list), s, es, r).Some? && Tracks(FollowAll(Some(list), s, es, r).value, Run(s, es), r, marked)
    decreases |es|
  {
    if es != [] {
      TracksStep(list, s, es[0], r, marked);
      ExactStep(s, es[0]);
      TracksRun(Follow(Some(list), s, es[0], r).value, Apply(s, es[0]), es[1..], r, marked);
    }
  }

  /** Two entries for run `id`. */
  ghost predicate Twice(list: seq<Entry>, id: nat) {
    exists i, j :: 0 <= i < j < |list| && list[i].id == id && list[j].id == id
  }

  /** A run loaded before its RunCreate is listed once, and twice from then on. */
  ghost predicate Doubles(list: seq<Entry>, s: State, id: nat, r: string) {
    && id in s.calls && id in s.rows && s.calls[id].repositoryId == r
    && s.calls[id].phase !in {Opening, Aborted}
    && (if s.calls[id].phase == Inserted then Once(list, id) else Twice(list, id))
  }

  lemma CreateKeeps(list: seq<Entry>, x: Entry, id: nat)
    ensures Once(list, id) ==> Once([x] + list, id)
    ensures Twice(list, id) ==> Twice([x] + list, id)
    ensures Once(list, id) && x.id == id ==> Twice([x] + list, id)
  {
    var list' := [x] + list;
    if Once(list, id) {
      var i :| 0 <= i < |list| && list[i].id == id;
      assert list'[i + 1].id == id && list'[0] == x;
    }
    if Twice(list, id) {
      var i, j :| 0 <= i < j < |list| && list[i].id == id && list[j].id == id;
      assert list'[i + 1].id == id && list'[j + 1].id == id;
    }
  }

  lemma SameIdsKeep(list: seq<Entry>, list': seq<Entry>, id: nat)
    requires |list'| == |list| && forall i | 0 <= i < |list| :: list'[i].id == list[i].id
    ensures Once(list, id) ==> Once(list', id)
    ensures Twice(list, id) ==> Twice(list', id)
  {
    if Once(list, id) {
      var i :| 0 <= i < |list| && list[i].id == id;
      assert list'[i].id == id;
    }
    if Twice(list, id) {
      var i, j :| 0 <= i < j < |list| && list[i].id == id && list[j].id == id;
      assert list'[i].id == id && list'[j].id == id;
    }
  }

  lemma ReduceKeeps(list: seq<Entry>, e: Event, r: string, id: nat)
    ensures Reduce(Some(list), e, r).Some?
    ensures Once(list, id) ==> Once(Reduce(Some(list), e, r).value, id)
    ensures Twice(list, id) ==> Twice(Reduce(Some(list), e, r).value, id)
    ensures Once(list, id) && e.RunCreate? && e.id == id && e.row.repositoryId == r ==> Twice(Reduce(Some(list), e, r).value, id)
  {
    if e.RunCreate? { CreateKeeps(list, Entry(e.id, e.row), id); } else { SameIdsKeep(list, OnRunUpdate(Some(list), e, r).value, id); }
  }

  lemma DoublesStep(list: seq<Entry>, s: State, e: Step, id: nat, r: string)
    requires Doubles(list, s, id, r)
    ensures Follow(Some(list), s, e, r).Some? && Doubles(Follow(Some(list), s, e, r).value, Apply(s, e), id, r)
  {
    if Published(s, e).Some? { ReduceKeeps(list, Published(s, e).value, r, id); }
  }

  lemma {:induction false} DoublesRun(list: seq<Entry>, s: State, es: seq<Step>, id: nat, r: string)
    requires Doubles(list, s, id, r)
    ensures FollowAll(Some(list), s, es, r).Some? && Doubles(FollowAll(Some(list), s, es, r).value, Run(s, es), id, r)
    decreases |es|
  {
    if es != [] {
      DoublesStep(list, s, es[0], id, r);
      DoublesRun(Follow(Some(list), s, es[0], r).value, Apply(s, es[0]), es[1..], id, r);
    }
  }

  /** No run of `r` that is not finalised was marked by a bootstrap after `s`. */
  ghost predicate NoneMarkedSince(s: State, end: State, r: string) {
    forall id | id in end.calls && end.calls[id].repositoryId == r :: !Stale(end, id, Marked(s, r))
  }

  /** A client that loads the stored rows of `r` and replays every later event, with
      bootstraps in between or not. Once nothing is left to publish, its list is the
      stored rows, each once, if and only if no run of `r` was between its insertion
      and its RunCreate when the rows were loaded (such a run is listed twice) and no
      run of `r` still unfinished was marked by a bootstrap since (such a run is
      listed as Incomplete). */
  lemma ClientHoldsStoredRowsIff(s: State, list: seq<Entry>, es: seq<Step>, r: string)
    requires Exact(s) && Holds(list, s, r) && AllPublished(Run(s, es), r)
    ensures s.events <= Run(s, es).events
    ensures var data := Replay(Some(list), Run(s, es).events[|s.events|..], r);
      data.Some? && (Holds(data.value, Run(s, es), r) <==> NoneInserted(s, r) && NoneMarkedSince(s, Run(s, es), r))
  {
    var end := Run(s, es);
    FollowIsReplay(Some(list), s, es, r, []);
    assert [] + end.events[|s.events|..] == end.events[|s.events|..];
    RunsAreExact(s, es);
    if NoneInserted(s, r) {
      LoadedTracks(list, s, r);
      TracksRun(list, s, es, r, Marked(s, r));
      TracksToHolds(FollowAll(Some(list), s, es, r).value, s, end, r);
    } else {
      LoadedEarly(list, s, es, r);
    }
  }

  lemma {:induction false} LoadedTracks(list: seq<Entry>, s: State, r: string)
    requires Exact(s) && Holds(list, s, r) && NoneInserted(s, r)
    ensures Tracks(list, s, r, Marked(s, r))
  {
    forall e | e in list ensures Current(e, s, r, Marked(s, r)) { assert CallExact(s.calls[e.id], RowOf(s, e.id)); }
    forall id | id in Marked(s, r) ensures s.calls[id].phase !in {Opening, Inserted} { assert CallExact(s.calls[id], RowOf(s, id)); }
  }

  lemma {:induction false} LoadedEarly(list: seq<Entry>, s: State, es: seq<Step>, r: string)
    requires Exact(s) && Holds(list, s, r) && !NoneInserted(s, r) && NoneInserted(Run(s, es), r)
    ensures FollowAll(Some(list), s, es, r).Some? && !Holds(FollowAll(Some(list), s, es, r).value, Run(s, es), r)
  {
    var id :| id in s.calls && s.calls[id].repositoryId == r && s.calls[id].phase == Inserted;
    assert CallExact(s.calls[id], RowOf(s, id));
    var i :| 0 <= i < |list| && list[i].id == id;
    assert Doubles(list, s, id, r);
    DoublesRun(list, s, es, id, r);
    assert Twice(FollowAll(Some(list), s, es, r).value, id);
  }

  lemma {:induction false} TracksToHolds(list: seq<Entry>, s: State, end: State, r: string)
    requires Exact(end) && Tracks(list, end, r, Marked(s, r)) && AllPublished(end, r)
    ensures Holds(list, end, r) <==> NoneMarkedSince(s, end, r)
  {
    forall id | id in end.calls ensures CallExact(end.calls[id], RowOf(end, id)) {}
    if NoneMarkedSince(s, end, r) {
      forall e | e in list ensures e.row == end.rows[e.id] { assert Current(e, end, r, Marked(s, r)); }
      forall id | id in end.rows && end.rows[id].repositoryId == r ensures Once(list, id) { assert Visible(end, id, r); }
    } else {
      var id :| id in end.calls && end.calls[id].repositoryId == r && Stale(end, id, Marked(s, r));
      assert Visible(end, id, r);
      var i :| 0 <= i < |list| && list[i].id == id;
      assert Current(list[i], end, r, Marked(s, r));
    }
  }

  // ---- `createLog` as a method, served alone ----------------------------------------------

  /** What one call meets: whether the row can be inserted, how the body settles,
      and whether the final updates reach the database, at which times. */
  datatype Fate = Fate(start: nat, inserted: bool, settles: bool, first: bool, firstEnd: nat, second: bool, secondEnd: nat)

  /** Some final update reaches the database. */
  predicate Reaches(f: Fate) {
    f.first || (f.settles && f.second)
  }

  /** The events of a call served alone. */
  function Told(id: nat, repositoryId: string, f: Fate): seq<Event> {
    if !f.inserted then []
    else
      [RunCreate(id, Row(repositoryId, f.start, Incomplete, None))] +
      if Reaches(f) then [RunUpdate(id, repositoryId, Final(f.settles && f.first), if f.first then f.firstEnd else f.secondEnd)] else []
  }

  /** Its steps; those that do not apply change nothing. */
  function Script(id: nat, repositoryId: string, f: Fate): seq<Step> {
    [Open(id, repositoryId), if f.inserted then Insert(id, f.start) else OpenFail(id), Resume(id), Settle(id, f.settles),
     if f.first then UpdateRow(id, f.firstEnd) else UpdateFault(id), Publish(id),
     if f.second then UpdateRow(id, f.secondEnd) else UpdateFault(id), Publish(id)]
  }

  lemma RunOne(s: State, e: Step)
    ensures Run(s, [e]) == Apply(s, e)
  {
    assert Run(s, [e]) == Run(Apply(s, e), [e][1..]);
  }

  /** Up to the body: the row and its announcement, or the failure. */
  lemma {:induction false} BodyStarts(s: State, id: nat, repositoryId: string, f: Fate)
    requires id !in s.calls && id !in s.rows
    ensures var s' := Apply(Apply(Apply(s, Script(id, repositoryId, f)[0]), Script(id, repositoryId, f)[1]), Script(id, repositoryId, f)[2]);
      var run := Row(repositoryId, f.start, Incomplete, None);
      s' == if f.inserted
            then State(s.rows[id := run], s.calls[id := Call(repositoryId, Running, [], None, false, false)], s.events + [RunCreate(id, run)])
            else s.(calls := s.calls[id := Call(repositoryId, Aborted, [false], None, false, false)])
  {
    var s1 := Apply(s, Open(id, repositoryId));
    assert s1 == s.(calls := s.calls[id := Call(repositoryId, Opening, [], None, false, false)]);
  }

  /** One final update with its event. */
  function Attempt(s: State, id: nat, ok: bool, end: nat): State {
    Apply(Apply(s, if ok then UpdateRow(id, end) else UpdateFault(id)), Publish(id))
  }

  lemma {:induction false} AttemptDone(s: State, id: nat, ok: bool, end: nat)
    requires At(s, id, Settling(ok)) && id in s.rows
    ensures Attempt(s, id, true, end) == State(
      Finalize(s.rows, id, ok, end),
      s.calls[id := s.calls[id].(phase := Closed(ok))],
      s.events + [RunUpdate(id, s.calls[id].repositoryId, Final(ok), end)])
  {
    var s1 := Apply(s, UpdateRow(id, end));
    assert s1.calls[id] == s.calls[id].(phase := Updated(ok, end));
  }

  lemma {:induction false} AttemptFails(s: State, id: nat, ok: bool, end: nat)
    requires At(s, id, Settling(ok))
    ensures Attempt(s, id, false, end) == s.(calls := s.calls[id :=
      if ok then s.calls[id].(phase := Settling(false), callbacks := s.calls[id].callbacks + [false], faulted := true)
      else s.calls[id].(phase := Broken)])
  {
  }

  lemma {:induction false} NothingLeft(s: State, id: nat, ok: bool, end: nat)
    requires id in s.calls && s.calls[id].phase in {Aborted, Broken, Closed(true), Closed(false)}
    ensures Attempt(s, id, ok, end) == s && Apply(s, Settle(id, true)) == s && Apply(s, Settle(id, false)) == s
  {
  }

  lemma {:induction false} ScriptSteps(s: State, id: nat, repositoryId: string, f: Fate)
    ensures var e := Script(id, repositoryId, f);
      Run(s, e) == Attempt(Attempt(Apply(Apply(Apply(Apply(s, e[0]), e[1]), e[2]), e[3]), id, f.first, f.firstEnd), id, f.second, f.secondEnd)
  {
    var e := Script(id, repositoryId, f);
    assert e == [e[0]] + ([e[1]] + ([e[2]] + ([e[3]] + ([e[4]] + ([e[5]] + ([e[6]] + [e[7]]))))));
    var s1 := Apply(s, e[0]);
    var s2 := Apply(s1, e[1]);
    var s3 := Apply(s2, e[2]);
    var s4 := Apply(s3, e[3]);
    var s5 := Apply(s4, e[4]);
    var s6 := Apply(s5, e[5]);
    var s7 := Apply(s6, e[6]);
    RunCons(s, e[0], [e[1]] + ([e[2]] + ([e[3]] + ([e[4]] + ([e[5]] + ([e[6]] + [e[7]]))))));
    RunCons(s1, e[1], [e[2]] + ([e[3]] + ([e[4]] + ([e[5]] + ([e[6]] + [e[7]])))));
    RunCons(s2, e[2], [e[3]] + ([e[4]] + ([e[5]] + ([e[6]] + [e[7]]))));
    RunCons(s3, e[3], [e[4]] + ([e[5]] + ([e[6]] + [e[7]])));
    RunCons(s4, e[4], [e[5]] + ([e[6]] + [e[7]]));
    RunCons(s5, e[5], [e[6]] + [e[7]]);
    RunCons(s6, e[6], [e[7]]);
    RunOne(s7, e[7]);
  }

  lemma RunCons(s: State, e: Step, es: seq<Step>)
    ensures Run(s, [e] + es) == Run(Apply(s, e), es)
  {
    assert ([e] + es)[1..] == es;
  }

  /** The row a call leaves: Complete exactly when the body succeeded and its update
      got through, Incomplete exactly when no update did. */
  function FinalRow(repositoryId: string, f: Fate): (row: Row)
    ensures row.status == Complete <==> f.settles && f.first
    ensures row.status == Incomplete <==> !Reaches(f)
    ensures row.end.Some? <==> Reaches(f)
  {
    if Reaches(f) then Row(repositoryId, f.start, Final(f.settles && f.first), Some(if f.first then f.firstEnd else f.secondEnd))
    else Row(repositoryId, f.start, Incomplete, None)
  }

  function Callbacks(f: Fate): seq<bool> {
    if !f.inserted then [false] else if f.settles && !f.first then [true, false] else [f.settles]
  }

  lemma {:induction false} SettleStep(s: State, id: nat, ok: bool)
    requires At(s, id, Running)
    ensures Apply(s, Settle(id, ok)) ==
      s.(calls := s.calls[id := s.calls[id].(phase := Settling(ok), callbacks := s.calls[id].callbacks + [ok], settled := Some(ok))])
  {
  }

  /** Up to the body's end. */
  lemma {:induction false} BodyEnds(s: State, id: nat, repositoryId: string, f: Fate)
    requires id !in s.calls && id !in s.rows && f.inserted
    ensures var e, run := Script(id, repositoryId, f), Row(repositoryId, f.start, Incomplete, None);
      Apply(Apply(Apply(Apply(s, e[0]), e[1]), e[2]), e[3]) == State(
        s.rows[id := run],
        s.calls[id := Call(repositoryId, Settling(f.settles), [f.settles], Some(f.settles), false, false)],
        s.events + [RunCreate(id, run)])
  {
    BodyStarts(s, id, repositoryId, f);
    var e := Script(id, repositoryId, f);
    var s3 := Apply(Apply(Apply(s, e[0]), e[1]), e[2]);
    SettleStep(s3, id, f.settles);
    assert e[3] == Settle(id, f.settles) && [] + [f.settles] == [f.settles];
    assert s3.calls[id := Call(repositoryId, Settling(f.settles), [f.settles], Some(f.settles), false, false)]
      == s.calls[id := Call(repositoryId, Settling(f.settles), [f.settles], Some(f.settles), false, false)];
  }

  /** A call served alone, in one expression. */
  lemma {:induction false} Outcome(s: State, id: nat, repositoryId: string, f: Fate)
    requires id !in s.calls && id !in s.rows
    ensures var s' := Run(s, Script(id, repositoryId, f));
      && s'.rows == (if f.inserted then s.rows[id := FinalRow(repositoryId, f)] else s.rows)
      && s'.events == s.events + Told(id, repositoryId, f)
      && id in s'.calls && s'.calls[id].callbacks == Callbacks(f)
  {
    ScriptSteps(s, id, repositoryId, f);
    if f.inserted {
      BodyEnds(s, id, repositoryId, f);
      var e := Script(id, repositoryId, f);
      Ending(Apply(Apply(Apply(Apply(s, e[0]), e[1]), e[2]), e[3]), id, f);
    } else {
      Refused(s, id, repositoryId, f);
    }
  }

  lemma {:induction false} ServedAlone(s: State, id: nat, repositoryId: string, f: Fate) returns (after: State)
    requires Exact(s) && id !in s.calls
    ensures after == Run(s, Script(id, repositoryId, f)) && Exact(after)
    ensures after.rows == (if f.inserted then s.rows[id := FinalRow(repositoryId, f)] else s.rows) && id !in s.rows
    ensures after.events == s.events + Told(id, repositoryId, f)
    ensures id in after.calls && after.calls[id].callbacks == Callbacks(f)
  {
    after := Run(s, Script(id, repositoryId, f));
    RunsAreExact(s, Script(id, repositoryId, f));
    Outcome(s, id, repositoryId, f);
  }

  lemma {:induction false} Refused(s: State, id: nat, repositoryId: string, f: Fate)
    requires id !in s.calls && id !in s.rows && !f.inserted
    ensures var e := Script(id, repositoryId, f);
      Attempt(Attempt(Apply(Apply(Apply(Apply(s, e[0]), e[1]), e[2]), e[3]), id, f.first, f.firstEnd), id, f.second, f.secondEnd)
        == s.(calls := s.calls[id := Call(repositoryId, Aborted, [false], None, false, false)])
  {
    BodyStarts(s, id, repositoryId, f);
    var s3 := s.(calls := s.calls[id := Call(repositoryId, Aborted, [false], None, false, false)]);
    NothingLeft(s3, id, f.first, f.firstEnd);
    NothingLeft(s3, id, f.second, f.secondEnd);
  }

  lemma {:induction false} Ending(s: State, id: nat, f: Fate)
    requires At(s, id, Settling(f.settles)) && id in s.rows && f.inserted
    requires s.calls[id].callbacks == [f.settles] && s.rows[id] == Row(s.calls[id].repositoryId, f.start, Incomplete, None)
    ensures var s' := Attempt(Attempt(s, id, f.first, f.firstEnd), id, f.second, f.secondEnd);
      && s'.rows == s.rows[id := FinalRow(s.calls[id].repositoryId, f)]
      && s.events + Told(id, s.calls[id].repositoryId, f)[1..] == s'.events
      && id in s'.calls && s'.calls[id].callbacks == Callbacks(f)
  {
    var s1 := Attempt(s, id, f.first, f.firstEnd);
    if f.first {
      AttemptDone(s, id, f.settles, f.firstEnd);
      NothingLeft(s1, id, f.second, f.secondEnd);
    } else {
      AttemptFails(s, id, f.settles, f.firstEnd);
      if !f.settles {
        NothingLeft(s1, id, f.second, f.secondEnd);
      } else if f.second {
        AttemptDone(s1, id, false, f.secondEnd);
      } else {
        AttemptFails(s1, id, false, f.secondEnd);
      }
    }
  }

  /** Only row `id` is new: Complete exactly when the body succeeded and its update got
      through, Incomplete exactly when no update did, ended when the update says. */
  predicate Logged(before: map<nat, Row>, after: map<nat, Row>, id: nat, repositoryId: string, f: Fate) {
    && id in after && after == before[id := after[id]]
    && after[id].repositoryId == repositoryId && after[id].start == f.start
    && (after[id].status == Complete <==> f.settles && f.first)
    && (after[id].status == Incomplete <==> !f.first && !(f.settles && f.second))
    && after[id].end == if f.first then Some(f.firstEnd) else if f.settles && f.second then Some(f.secondEnd) else None
  }

  /** The events about a run: the row as inserted, and its ending if it has one. */
  function News(id: nat, inserted: Row, row: Row): seq<Event> {
    [RunCreate(id, inserted)] + match row.end case Some(end) => [RunUpdate(id, row.repositoryId, row.status, end)] case None => []
  }

  /** The run history table with the events it publishes; `calls` is history. */
  class RunHistoryRepository {
    var rows: map<nat, Row>
    var published: seq<Event>
    ghost var calls: map<nat, Call>

    constructor ()
      ensures View() == EMPTY
    {
      rows, published, calls := map[], [], map[];
    }

    ghost function View(): State
      reads this
    {
      State(rows, calls, published)
    }

    /** One call from its fresh id to its last update, as the model serves it, and
        what that comes to: which callbacks fire, how the row ends and what clients
        are told; no other row is touched. */
    method CreateLog(id: nat, repositoryId: string, f: Fate) returns (callbacks: seq<bool>)
      requires Exact(View()) && id !in calls
      modifies this
      ensures View() == Run(old(View()), Script(id, repositoryId, f)) && Exact(View())
      ensures id in calls && callbacks == calls[id].callbacks
      ensures callbacks == if !f.inserted then [false] else if f.settles && !f.first then [true, false] else [f.settles]
      ensures if f.inserted then Logged(old(rows), rows, id, repositoryId, f) else rows == old(rows)
      ensures published == old(published) + if f.inserted then News(id, Row(repositoryId, f.start, Incomplete, None), rows[id]) else []
    {
      ghost var after := ServedAlone(View(), id, repositoryId, f);
      calls := after.calls;
      if !f.inserted { return [false]; }
      var run := Row(repositoryId, f.start, Incomplete, None);
      rows := rows[id := run];
      published := published + [RunCreate(id, run)];
      callbacks := Conclude(id, repositoryId, f);
    }

    /** What happens once the body has settled: the callback, the final update, and
        after a failed update of a success the callback and an update again. */
    method Conclude(id: nat, repositoryId: string, f: Fate) returns (callbacks: seq<bool>)
      requires f.inserted && id in rows && rows[id] == Row(repositoryId, f.start, Incomplete, None)
      modifies this`rows, this`published
      ensures callbacks == Callbacks(f)
      ensures rows == old(rows)[id := FinalRow(repositoryId, f)]
      ensures published == old(published) + Told(id, repositoryId, f)[1..]
    {
      callbacks := [f.settles];
      if f.first {
        Finalize(id, repositoryId, f.settles, f.firstEnd);
      } else if f.settles {
        callbacks := callbacks + [false];
        if f.second { Finalize(id, repositoryId, false, f.secondEnd); }
      }
      assert rows[id] == FinalRow(repositoryId, f);
    }

    /** The stored row and the event agree: a client that patches the row it holds
        holds the stored one. */
    method Finalize(id: nat, repositoryId: string, ok: bool, end: nat)
      requires id in rows
      modifies this`rows, this`published
      ensures id in rows && rows == old(rows)[id := rows[id]]
      ensures rows[id] == Row(old(rows)[id].repositoryId, old(rows)[id].start, if ok then Complete else Failed, Some(end))
      ensures |published| == |old(published)| + 1 && published[..|old(published)|] == old(published)
      ensures published[|old(published)|] == RunUpdate(id, repositoryId, Final(ok), end)
      ensures Patch(Entry(id, old(rows[id])), published[|old(published)|]) == Entry(id, rows[id])
    {
      var status := if ok then Complete else Failed;
      rows := rows[id := rows[id].(status := status, end := Some(end))];
      published := published + [RunUpdate(id, repositoryId, status, end)];
    }

    /** One statement for all rows. */
    method MarkIncompleteAsFailed()
      requires Exact(View())
      modifies this
      ensures View() == Apply(old(View()), Bootstrap) && Exact(View())
      ensures forall id | id in rows :: rows[id].status != Incomplete
      ensures rows.Keys == old(rows).Keys && forall id | id in rows && old(rows)[id].status != Incomplete :: rows[id] == old(rows)[id]
      ensures forall id | id in rows && old(rows)[id].status == Incomplete :: rows[id] == old(rows)[id].(status := Failed)
    {
      ExactStep(View(), Bootstrap);
      calls := Apply(View(), Bootstrap).calls;
      rows := map id | id in rows ::
        if rows[id].status == Incomplete then rows[id].(status := Failed) else rows[id];
    }
  }
}
