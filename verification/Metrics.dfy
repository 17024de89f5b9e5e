/** The metrics row of a repository against its append-only history. A submission
    is two statements, the upsert of the row and the append to the history, with
    other submissions in between; either may fail. Times are milliseconds. */
module Metrics {
  import opened Prelude

  datatype Column = Size | Started | Backup | Success | Duration

  datatype MetricsRow = MetricsRow(
    sizeBytes: int,
    lastStarted: Option<int>,
    lastBackup: Option<int>,
    lastSuccessfulBackup: Option<int>,
    lastBackupDuration: Option<int>)

  /** The columns a partial upsert sets; None leaves a column alone. */
  datatype Patch = Patch(
    sizeBytes: Option<int>,
    lastStarted: Option<int>,
    lastBackup: Option<int>,
    lastSuccessfulBackup: Option<int>,
    lastBackupDuration: Option<int>)

  datatype HistoryRow = HistoryRow(
    repositoryId: string,
    sizeBytes: Option<int>,
    started: Option<int>,
    backup: Option<int>,
    successfulBackup: Option<int>,
    backupDuration: Option<int>)

  datatype Failure = NotFound | Unauthorized | DatabaseError

  datatype Submission =
    | BackupStart
    | BackupEnd(durationMs: int, success: bool)
    | RepositorySize(sizeBytes: int)

  function Or<T>(a: Option<T>, b: Option<T>): Option<T> {
    if a.Some? then a else b
  }

  function OrInt(a: Option<int>, b: int): int {
    match a case Some(v) => v case None => b
  }

  const NEW_ROW := MetricsRow(0, None, None, None, None)

  /** INSERT with size 0 by default, or UPDATE of the given columns. */
  function Save(row: Option<MetricsRow>, p: Patch): MetricsRow {
    var before := match row case Some(m) => m case None => NEW_ROW;
    MetricsRow(OrInt(p.sizeBytes, before.sizeBytes), Or(p.lastStarted, before.lastStarted), Or(p.lastBackup, before.lastBackup),
               Or(p.lastSuccessfulBackup, before.lastSuccessfulBackup), Or(p.lastBackupDuration, before.lastBackupDuration))
  }

  function ToPatch(s: Submission, now: int): Patch {
    match s
    case BackupStart => Patch(None, Some(now), None, None, None)
    case BackupEnd(ms, success) => Patch(None, None, Some(now), if success then Some(now) else None, Some(ms))
    case RepositorySize(n) => Patch(Some(n), None, None, None, None)
  }

  function ToHistory(id: string, s: Submission, now: int): HistoryRow {
    match s
    case BackupStart => HistoryRow(id, None, Some(now), None, None, None)
    case BackupEnd(ms, success) => HistoryRow(id, None, None, Some(now), if success then Some(now) else None, Some(ms))
    case RepositorySize(n) => HistoryRow(id, Some(n), None, None, None, None)
  }

  function Cell(h: HistoryRow, c: Column): Option<int> {
    match c
    case Size => h.sizeBytes
    case Started => h.started
    case Backup => h.backup
    case Success => h.successfulBackup
    case Duration => h.backupDuration
  }

  /** The last value a column of `id` has in a log, nulls skipped. */
  function LastValue(log: seq<HistoryRow>, id: string, c: Column): Option<int> {
    if log == [] then None
    else
      var h := log[|log| - 1];
      if h.repositoryId == id && Cell(h, c).Some? then Cell(h, c) else LastValue(log[..|log| - 1], id, c)
  }

  predicate HasHistory(log: seq<HistoryRow>, id: string) {
    exists h :: h in log && h.repositoryId == id
  }

  /** The row a log implies: column by column the last non-null value, size 0 by
      default; no row without an entry. */
  function Projection(log: seq<HistoryRow>, id: string): Option<MetricsRow> {
    if !HasHistory(log, id) then None
    else Some(MetricsRow(OrInt(LastValue(log, id, Size), 0), LastValue(log, id, Started), LastValue(log, id, Backup),
                         LastValue(log, id, Success), LastValue(log, id, Duration)))
  }

  /** What the row shows for the last value of a column. */
  function Shown(c: Column, v: Option<int>): Option<int> {
    if c == Size then Some(OrInt(v, 0)) else v
  }

  lemma LastValueSnoc(log: seq<HistoryRow>, h: HistoryRow, id: string, c: Column)
    ensures LastValue(log + [h], id, c) == if h.repositoryId == id && Cell(h, c).Some? then Cell(h, c) else LastValue(log, id, c)
  {
    assert (log + [h])[..|log|] == log;
  }

  lemma {:induction false} NoHistoryNoValue(log: seq<HistoryRow>, id: string, c: Column)
    requires !HasHistory(log, id)
    ensures LastValue(log, id, c) == None
  {
    if log != [] {
      assert log[|log| - 1] in log;
      NoHistoryNoValue(log[..|log| - 1], id, c);
    }
  }

  lemma HasHistorySnoc(log: seq<HistoryRow>, h: HistoryRow, id: string)
    ensures HasHistory(log + [h], id) <==> HasHistory(log, id) || h.repositoryId == id
  {
    if x :| x in log && x.repositoryId == id { assert x in log + [h]; }
    if h.repositoryId == id { assert h in log + [h]; }
  }

  /** The upsert is to the row what the append is to the log. */
  lemma {:induction false} ProjectionStep(log: seq<HistoryRow>, id: string, s: Submission, now: int, other: string)
    ensures Projection(log + [ToHistory(id, s, now)], other) ==
      if other == id then Some(Save(Projection(log, id), ToPatch(s, now))) else Projection(log, other)
  {
    var h := ToHistory(id, s, now);
    HasHistorySnoc(log, h, other);
    forall c ensures LastValue(log + [h], other, c) == if other == id && Cell(h, c).Some? then Cell(h, c) else LastValue(log, other, c) {
      LastValueSnoc(log, h, other, c);
    }
    if !HasHistory(log, other) {
      forall c ensures LastValue(log, other, c) == None { NoHistoryNoValue(log, other, c); }
    }
  }

  predicate Same(a: seq<HistoryRow>, b: seq<HistoryRow>, id: string, c: Column) {
    Shown(c, LastValue(a, id, c)) == Shown(c, LastValue(b, id, c))
  }

  /** Both logs or neither have an entry, and every column shows the same. */
  ghost predicate SameColumns(a: seq<HistoryRow>, b: seq<HistoryRow>, id: string) {
    (HasHistory(a, id) <==> HasHistory(b, id)) && forall c :: Same(a, b, id, c)
  }

  lemma {:induction false} SameColumnsSameRow(a: seq<HistoryRow>, b: seq<HistoryRow>, id: string)
    requires SameColumns(a, b, id)
    ensures Projection(a, id) == Projection(b, id)
  {
    assert Same(a, b, id, Size) && Same(a, b, id, Started) && Same(a, b, id, Backup);
    assert Same(a, b, id, Success) && Same(a, b, id, Duration);
  }

  /** Two logs imply the same row exactly when their columns are the same. */
  lemma {:induction false} SameProjectionIff(a: seq<HistoryRow>, b: seq<HistoryRow>, id: string)
    ensures Projection(a, id) == Projection(b, id) <==> SameColumns(a, b, id)
  {
    if SameColumns(a, b, id) {
      SameColumnsSameRow(a, b, id);
    } else if HasHistory(a, id) <==> HasHistory(b, id) {
      var c :| !Same(a, b, id, c);
      if !HasHistory(a, id) {
        NoHistoryNoValue(a, id, c);
        NoHistoryNoValue(b, id, c);
      }
      assert HasHistory(a, id) && HasHistory(b, id);
      match c case Size => case Started => case Backup => case Success => case Duration =>
    }
  }

  // ---- Submissions in flight -----------------------------------------------------------

  /** A submission that passed its ownership check; `saved` once the row is written. */
  datatype Pending = Pending(id: string, submission: Submission, now: int, saved: bool)

  /** `saves` is history: what the upserts have written, in their order. */
  datatype State = State(
    owners: map<string, string>,
    metrics: map<string, MetricsRow>,
    history: seq<HistoryRow>,
    saves: seq<HistoryRow>,
    pending: map<nat, Pending>)

  datatype Event =
    | Submit(call: nat, user: string, id: string, submission: Submission, now: int)
    | Upsert(call: nat, ok: bool)
    | Append(call: nat, ok: bool)

  function Start(owners: map<string, string>): State {
    State(owners, map[], [], [], map[])
  }

  function Row(s: State, id: string): Option<MetricsRow> {
    if id in s.metrics then Some(s.metrics[id]) else None
  }

  predicate Allowed(owners: map<string, string>, user: string, id: string) {
    id in owners && owners[id] == user
  }

  function Entry(p: Pending): (h: HistoryRow)
    ensures h.repositoryId == p.id
  {
    ToHistory(p.id, p.submission, p.now)
  }

  function Apply(s: State, e: Event): State {
    match e
    case Submit(call, user, id, submission, now) =>
      if Allowed(s.owners, user, id) && call !in s.pending
      then s.(pending := s.pending[call := Pending(id, submission, now, false)]) else s
    case Upsert(call, ok) =>
      if call !in s.pending || s.pending[call].saved then s
      else if !ok then s.(pending := s.pending - {call})
      else
        var p := s.pending[call];
        s.(metrics := s.metrics[p.id := Save(Row(s, p.id), ToPatch(p.submission, p.now))],
           saves := s.saves + [Entry(p)],
           pending := s.pending[call := p.(saved := true)])
    case Append(call, ok) =>
      if call !in s.pending || !s.pending[call].saved then s
      else s.(history := if ok then s.history + [Entry(s.pending[call])] else s.history, pending := s.pending - {call})
  }

  function Run(s: State, es: seq<Event>): State
    decreases |es|
  {
    if es == [] then s else Run(Apply(s, es[0]), es[1..])
  }

  lemma {:induction false} RunAppend(s: State, es: seq<Event>, fs: seq<Event>)
    ensures Run(s, es + fs) == Run(Run(s, es), fs)
    decreases |es|
  {
    if es == [] {
      assert es + fs == fs;
    } else {
      assert (es + fs)[1..] == es[1..] + fs;
      RunAppend(Apply(s, es[0]), es[1..], fs);
    }
  }

  lemma RunOne(s: State, e: Event)
    ensures Run(s, [e]) == Apply(s, e)
  {
    assert Run(s, [e]) == Run(Apply(s, e), [e][1..]);
  }

  // ---- The row in every run --------------------------------------------------------------

  /** Every row is the projection of the upserts; a saved submission is among them. */
  ghost predicate Sound(s: State) {
    && (forall id :: Row(s, id) == Projection(s.saves, id))
    && (forall call | call in s.pending && s.pending[call].saved :: Entry(s.pending[call]) in s.saves)
  }

  lemma {:induction false} SoundStep(s: State, e: Event)
    requires Sound(s)
    ensures Sound(Apply(s, e))
  {
    var s' := Apply(s, e);
    if e.Upsert? && e.ok && e.call in s.pending && !s.pending[e.call].saved {
      var p := s.pending[e.call];
      forall id ensures Row(s', id) == Projection(s'.saves, id) {
        assert Row(s, id) == Projection(s.saves, id) && Row(s, p.id) == Projection(s.saves, p.id);
        ProjectionStep(s.saves, p.id, p.submission, p.now, id);
      }
    } else {
      assert s'.metrics == s.metrics && s'.saves == s.saves;
      forall id ensures Row(s', id) == Projection(s'.saves, id) { assert Row(s, id) == Projection(s.saves, id); }
    }
  }

  lemma {:induction false} SoundRun(s: State, es: seq<Event>)
    requires Sound(s)
    ensures Sound(Run(s, es))
    decreases |es|
  {
    if es != [] {
      SoundStep(s, es[0]);
      SoundRun(Apply(s, es[0]), es[1..]);
    }
  }

  lemma {:induction false} SoundStart(owners: map<string, string>)
    ensures Sound(Start(owners))
  {
    forall id ensures Row(Start(owners), id) == Projection([], id) {}
  }

  /** In every run, failures included: the row is the projection of the history
      exactly when every column's last upserted value is its last appended one. */
  lemma {:induction false} RowIsProjectionIff(owners: map<string, string>, es: seq<Event>, id: string)
    ensures var s := Run(Start(owners), es);
      Row(s, id) == Projection(s.history, id) <==>
        SameColumns(s.saves, s.history, id)
  {
    SoundStart(owners);
    SoundRun(Start(owners), es);
    var s := Run(Start(owners), es);
    SameProjectionIff(s.saves, s.history, id);
  }

  // ---- Exactly when overlapping submissions converge ----------------------------------------

  /** Submission `call` is in flight for `id` and sets column `c`. */
  predicate Sets(s: State, call: nat, id: string, c: Column) {
    call in s.pending && s.pending[call].id == id && Cell(Entry(s.pending[call]), c).Some?
  }

  /** The column's value in flight. */
  function Offer(s: State, call: nat, c: Column): Option<int>
    requires call in s.pending
  {
    Cell(Entry(s.pending[call]), c)
  }

  ghost predicate Uniform(s: State, id: string, c: Column) {
    forall a, b | Sets(s, a, id, c) && Sets(s, b, id, c) :: Offer(s, a, c) == Offer(s, b, c)
  }

  ghost predicate AllSaved(s: State, id: string, c: Column) {
    forall a | Sets(s, a, id, c) :: s.pending[a].saved
  }

  ghost predicate NoneSets(s: State, id: string, c: Column) {
    forall a :: !Sets(s, a, id, c)
  }

  ghost predicate OffersAreLast(s: State, id: string, c: Column) {
    forall a | Sets(s, a, id, c) :: Offer(s, a, c) == LastValue(s.saves, id, c)
  }

  /** All submissions in flight that set the column set it to the same value, which
      is the row's already unless one of them is still to write it; without any,
      row and history show the same. */
  ghost predicate ColumnAgrees(s: State, id: string, c: Column) {
    && Uniform(s, id, c)
    && (AllSaved(s, id, c) ==> OffersAreLast(s, id, c))
    && (NoneSets(s, id, c) ==> Same(s.saves, s.history, id, c))
  }

  /** A submission for `id` is in flight, or row and history exist together. */
  ghost predicate ExistAgrees(s: State, id: string) {
    (exists call :: call in s.pending && s.pending[call].id == id) || (HasHistory(s.saves, id) <==> HasHistory(s.history, id))
  }

  ghost predicate Agreed(s: State, id: string) {
    ExistAgrees(s, id) && forall c :: ColumnAgrees(s, id, c)
  }

  /** Only statements of submissions in flight, and none fails. */
  predicate OnlyCompletes(es: seq<Event>) {
    forall e | e in es :: Completes(e)
  }

  predicate Completes(e: Event) {
    !e.Submit? && e.ok
  }

  /** However the statements in flight are ordered, in the end the row is the
      projection of the history. */
  ghost predicate Converges(s: State, id: string) {
    forall es | OnlyCompletes(es) && Run(s, es).pending == map[] :: Row(Run(s, es), id) == Projection(Run(s, es).history, id)
  }

  lemma {:induction false} UpsertAgrees(s: State, call: nat, id: string, c: Column)
    requires call in s.pending && !s.pending[call].saved && ColumnAgrees(s, id, c)
    ensures ColumnAgrees(Apply(s, Upsert(call, true)), id, c)
  {
    var s' := Apply(s, Upsert(call, true));
    LastValueSnoc(s.saves, Entry(s.pending[call]), id, c);
    SameFlight(s, s', call, id, c);
    SameOffers(s, s', id, c);
    if Sets(s, call, id, c) {
      SetterUpserted(s, s', call, id, c);
    } else if AllSaved(s', id, c) {
      AllSavedBefore(s, s', call, id, c);
    }
  }

  lemma {:induction false} SameOffers(s: State, s': State, id: string, c: Column)
    requires forall a :: Sets(s', a, id, c) <==> Sets(s, a, id, c)
    requires forall a | Sets(s, a, id, c) :: a in s'.pending && Offer(s', a, c) == Offer(s, a, c)
    ensures Uniform(s', id, c) <==> Uniform(s, id, c)
    ensures NoneSets(s', id, c) <==> NoneSets(s, id, c)
  {
    if Uniform(s', id, c) {
      forall a, b | Sets(s, a, id, c) && Sets(s, b, id, c) ensures Offer(s, a, c) == Offer(s, b, c) {
        assert Sets(s', a, id, c) && Sets(s', b, id, c);
      }
    }
  }

  /** The value upserted last is everybody's. */
  lemma {:induction false} SetterUpserted(s: State, s': State, call: nat, id: string, c: Column)
    requires Sets(s', call, id, c) && Uniform(s', id, c) && LastValue(s'.saves, id, c) == Offer(s', call, c)
    ensures OffersAreLast(s', id, c) && !NoneSets(s', id, c)
  {
  }

  lemma {:induction false} AllSavedBefore(s: State, s': State, call: nat, id: string, c: Column)
    requires AllSaved(s', id, c) && !Sets(s, call, id, c) && ColumnAgrees(s, id, c)
    requires call in s.pending && s'.pending == s.pending[call := s.pending[call].(saved := true)]
    requires LastValue(s'.saves, id, c) == LastValue(s.saves, id, c)
    ensures OffersAreLast(s', id, c)
  {
    forall a | Sets(s, a, id, c) ensures s.pending[a].saved { assert Sets(s', a, id, c); }
    forall a | Sets(s', a, id, c) ensures Offer(s', a, c) == LastValue(s'.saves, id, c) { assert Sets(s, a, id, c); }
  }

  lemma {:induction false} SameFlight(s: State, s': State, call: nat, id: string, c: Column)
    requires call in s.pending && s'.pending == s.pending[call := s.pending[call].(saved := true)]
    ensures forall a :: Sets(s', a, id, c) <==> Sets(s, a, id, c)
    ensures forall a | a in s.pending :: Offer(s', a, c) == Offer(s, a, c)
  {
  }

  lemma {:induction false} AppendAgrees(s: State, call: nat, id: string, c: Column)
    requires call in s.pending && s.pending[call].saved && ColumnAgrees(s, id, c)
    ensures ColumnAgrees(Apply(s, Append(call, true)), id, c)
  {
    var s' := Apply(s, Append(call, true));
    LastValueSnoc(s.history, Entry(s.pending[call]), id, c);
    FlightWithout(s, s', call, id, c);
    if Sets(s, call, id, c) { SetterAppended(s, s', call, id, c); } else { SameSetters(s, s', id, c); }
  }

  lemma {:induction false} SetterAppended(s: State, s': State, call: nat, id: string, c: Column)
    requires Sets(s, call, id, c) && s.pending[call].saved && ColumnAgrees(s, id, c) && s'.saves == s.saves
    requires forall a :: Sets(s', a, id, c) <==> Sets(s, a, id, c) && a != call
    requires forall a | Sets(s', a, id, c) :: s'.pending[a] == s.pending[a]
    requires LastValue(s'.history, id, c) == Offer(s, call, c)
    ensures ColumnAgrees(s', id, c)
  {
    forall a, b | Sets(s', a, id, c) && Sets(s', b, id, c) ensures Offer(s', a, c) == Offer(s', b, c) {
      assert Sets(s, a, id, c) && Sets(s, b, id, c);
    }
    if AllSaved(s', id, c) {
      assert AllSaved(s, id, c);
      assert Offer(s, call, c) == LastValue(s.saves, id, c);
    }
  }

  /** The same submissions set the column, and its values are the same. */
  lemma {:induction false} SameSetters(s: State, s': State, id: string, c: Column)
    requires ColumnAgrees(s, id, c)
    requires LastValue(s'.saves, id, c) == LastValue(s.saves, id, c) && LastValue(s'.history, id, c) == LastValue(s.history, id, c)
    requires forall a :: Sets(s', a, id, c) <==> Sets(s, a, id, c)
    requires forall a | Sets(s, a, id, c) :: a in s'.pending && s'.pending[a] == s.pending[a]
    ensures ColumnAgrees(s', id, c)
  {
  }

  lemma {:induction false} FlightWithout(s: State, s': State, call: nat, id: string, c: Column)
    requires call in s.pending && s'.pending == s.pending - {call}
    ensures forall a :: Sets(s', a, id, c) <==> Sets(s, a, id, c) && a != call
    ensures forall a | a in s'.pending :: a in s.pending && s'.pending[a] == s.pending[a]
  {
  }

  lemma {:induction false} ExistStep(s: State, e: Event, id: string)
    requires Sound(s) && Completes(e) && ExistAgrees(s, id)
    ensures ExistAgrees(Apply(s, e), id)
  {
    var s' := Apply(s, e);
    if e.call in s.pending {
      var p := s.pending[e.call];
      HasHistorySnoc(s.saves, Entry(p), id);
      HasHistorySnoc(s.history, Entry(p), id);
      if e.Upsert? && !p.saved {
        if call :| call in s.pending && s.pending[call].id == id { assert s'.pending[call].id == id; }
      } else if e.Append? && p.saved && p.id != id {
        if call :| call in s.pending && s.pending[call].id == id { assert call in s'.pending; }
      }
    }
  }

  lemma {:induction false} AgreedStep(s: State, e: Event, id: string)
    requires Sound(s) && Completes(e) && Agreed(s, id)
    ensures Agreed(Apply(s, e), id)
  {
    ExistStep(s, e, id);
    forall c ensures ColumnAgrees(Apply(s, e), id, c) {
      if e.Upsert? && e.call in s.pending && !s.pending[e.call].saved { UpsertAgrees(s, e.call, id, c); }
      if e.Append? && e.call in s.pending && s.pending[e.call].saved { AppendAgrees(s, e.call, id, c); }
    }
  }

  lemma {:induction false} AgreedRun(s: State, es: seq<Event>, id: string)
    requires Sound(s) && OnlyCompletes(es) && Agreed(s, id)
    ensures Agreed(Run(s, es), id)
    decreases |es|
  {
    if es != [] {
      assert es[0] in es;
      AgreedStep(s, es[0], id);
      SoundStep(s, es[0]);
      AgreedRun(Apply(s, es[0]), es[1..], id);
    }
  }

  // ---- Divergence, constructed ----------------------------------------------------------------

  /** The statements that complete one submission. */
  function Finish(call: nat, p: Pending): seq<Event> {
    if p.saved then [Append(call, true)] else [Upsert(call, true), Append(call, true)]
  }

  /** What completing one submission does. */
  lemma {:induction false} Finished(s: State, call: nat)
    requires call in s.pending
    ensures OnlyCompletes(Finish(call, s.pending[call]))
    ensures var s', p := Run(s, Finish(call, s.pending[call])), s.pending[call];
      && s'.pending == s.pending - {call}
      && s'.history == s.history + [Entry(p)]
      && s'.saves == if p.saved then s.saves else s.saves + [Entry(p)]
  {
    var p := s.pending[call];
    if p.saved {
      RunOne(s, Append(call, true));
    } else {
      var s1 := Apply(s, Upsert(call, true));
      RunAppend(s, [Upsert(call, true)], [Append(call, true)]);
      RunOne(s, Upsert(call, true));
      RunOne(s1, Append(call, true));
      assert Finish(call, p) == [Upsert(call, true)] + [Append(call, true)];
      assert s1.pending - {call} == s.pending - {call};
    }
  }

  /** From `s` to `s'` all submissions but those in `keep` have been completed;
      what they do not touch has not changed. */
  ghost predicate Completed(s: State, s': State, keep: set<nat>, id: string, c: Column) {
    && s'.pending.Keys == s.pending.Keys * keep && (forall k | k in s'.pending :: s'.pending[k] == s.pending[k])
    && ((forall k | k in s.pending && k !in keep && !s.pending[k].saved :: !Sets(s, k, id, c)) ==>
          LastValue(s'.saves, id, c) == LastValue(s.saves, id, c))
    && ((forall k | k in s.pending && k !in keep :: !Sets(s, k, id, c)) ==>
          LastValue(s'.history, id, c) == LastValue(s.history, id, c))
    && ((forall k | k in s.pending :: s.pending[k].id != id) ==>
          (HasHistory(s'.saves, id) <==> HasHistory(s.saves, id)) && (HasHistory(s'.history, id) <==> HasHistory(s.history, id)))
  }

  lemma {:induction false} CompletedStep(s: State, s1: State, s': State, call: nat, keep: set<nat>, id: string, c: Column)
    requires call in s.pending && call !in keep && s1.pending == s.pending - {call}
    requires s1.history == s.history + [Entry(s.pending[call])]
    requires s1.saves == if s.pending[call].saved then s.saves else s.saves + [Entry(s.pending[call])]
    requires Completed(s1, s', keep, id, c)
    ensures Completed(s, s', keep, id, c)
  {
    var h := Entry(s.pending[call]);
    LastValueSnoc(s.saves, h, id, c);
    LastValueSnoc(s.history, h, id, c);
    HasHistorySnoc(s.saves, h, id);
    HasHistorySnoc(s.history, h, id);
    FlightWithout(s, s1, call, id, c);
  }

  lemma {:induction false} CompleteAllBut(s: State, keep: set<nat>, id: string, c: Column) returns (es: seq<Event>)
    ensures OnlyCompletes(es) && Completed(s, Run(s, es), keep, id, c)
    decreases |s.pending.Keys - keep|
  {
    if s.pending.Keys <= keep {
      es := [];
      assert s.pending.Keys * keep == s.pending.Keys;
    } else {
      var call :| call in s.pending && call !in keep;
      Finished(s, call);
      var first := Finish(call, s.pending[call]);
      var s1 := Run(s, first);
      assert s1.pending.Keys - keep == s.pending.Keys - keep - {call};
      var rest := CompleteAllBut(s1, keep, id, c);
      RunAppend(s, first, rest);
      es := first + rest;
      CompletedStep(s, s1, Run(s, es), call, keep, id, c);
    }
  }

  /** Nothing in flight sets the column and row and history differ in it. */
  lemma {:induction false} DivergesIdle(s: State, id: string, c: Column) returns (es: seq<Event>)
    requires Sound(s) && NoneSets(s, id, c) && !Same(s.saves, s.history, id, c)
    ensures OnlyCompletes(es) && Run(s, es).pending == map[] && Row(Run(s, es), id) != Projection(Run(s, es).history, id)
  {
    es := CompleteAllBut(s, {}, id, c);
    var s' := Run(s, es);
    SoundRun(s, es);
    assert s'.pending.Keys == {};
    assert !Same(s'.saves, s'.history, id, c);
    SameProjectionIff(s'.saves, s'.history, id);
  }

  /** All submissions that set the column have been upserted and one of them is not
      the last: append it last. */
  lemma {:induction false} DivergesSaved(s: State, id: string, c: Column, x: nat) returns (es: seq<Event>)
    requires Sound(s) && AllSaved(s, id, c)
    requires Sets(s, x, id, c) && Offer(s, x, c) != LastValue(s.saves, id, c)
    ensures OnlyCompletes(es) && Run(s, es).pending == map[] && Row(Run(s, es), id) != Projection(Run(s, es).history, id)
  {
    var before := CompleteAllBut(s, {x}, id, c);
    var s1 := Run(s, before);
    assert s1.pending.Keys == {x};
    Finished(s1, x);
    RunAppend(s, before, Finish(x, s1.pending[x]));
    es := before + Finish(x, s1.pending[x]);
    var s' := Run(s, es);
    SoundRun(s, es);
    assert s'.pending.Keys == {};
    LastValueSnoc(s1.history, Entry(s1.pending[x]), id, c);
    LoggedValue(s.saves, Entry(s.pending[x]), c);
    SameProjectionIff(s'.saves, s'.history, id);
    assert !Same(s'.saves, s'.history, id, c);
  }

  lemma {:induction false} LoggedValue(log: seq<HistoryRow>, h: HistoryRow, c: Column)
    requires h in log && Cell(h, c).Some?
    ensures LastValue(log, h.repositoryId, c).Some?
  {
    var n := |log| - 1;
    if !(log[n].repositoryId == h.repositoryId && Cell(log[n], c).Some?) { LoggedValue(log[..n], h, c); }
  }

  /** Two submissions still to be upserted or appended offer different values: upsert
      one last and append the other last. */
  lemma {:induction false} DivergesOpen(s: State, id: string, c: Column, u: nat, x: nat) returns (es: seq<Event>)
    requires Sound(s) && Sets(s, u, id, c) && !s.pending[u].saved && Sets(s, x, id, c) && Offer(s, x, c) != Offer(s, u, c)
    ensures OnlyCompletes(es) && Run(s, es).pending == map[] && Row(Run(s, es), id) != Projection(Run(s, es).history, id)
  {
    var before := CompleteAllBut(s, {u, x}, id, c);
    var s1 := Run(s, before);
    assert s1.pending == map[u := s.pending[u], x := s.pending[x]];
    SoundRun(s, before);
    var last := CrossOver(s1, id, c, u, x);
    RunAppend(s, before, last);
    es := before + last;
  }

  /** The crossing, with nothing else in flight. */
  lemma {:induction false} CrossOver(s: State, id: string, c: Column, u: nat, x: nat) returns (es: seq<Event>)
    requires Sound(s) && u != x && s.pending.Keys == {u, x} && Sets(s, u, id, c) && Sets(s, x, id, c)
    requires !s.pending[u].saved && Offer(s, x, c) != Offer(s, u, c)
    ensures OnlyCompletes(es) && Run(s, es).pending == map[] && Row(Run(s, es), id) != Projection(Run(s, es).history, id)
  {
    if s.pending[x].saved {
      es := CrossSaved(s, id, c, u, x);
    } else {
      var e := Upsert(x, true);
      var s1 := Apply(s, e);
      SoundStep(s, e);
      assert s1.pending.Keys == {u, x} && s1.pending[u] == s.pending[u] && Entry(s1.pending[x]) == Entry(s.pending[x]);
      var rest := CrossSaved(s1, id, c, u, x);
      RunAppend(s, [e], rest);
      RunOne(s, e);
      es := [e] + rest;
    }
  }

  lemma {:induction false} CrossSaved(s: State, id: string, c: Column, u: nat, x: nat) returns (es: seq<Event>)
    requires Sound(s) && u != x && s.pending.Keys == {u, x} && Sets(s, u, id, c) && Sets(s, x, id, c)
    requires !s.pending[u].saved && s.pending[x].saved && Offer(s, x, c) != Offer(s, u, c)
    ensures OnlyCompletes(es) && Run(s, es).pending == map[] && Row(Run(s, es), id) != Projection(Run(s, es).history, id)
  {
    var first := Finish(u, s.pending[u]);
    Finished(s, u);
    SoundRun(s, first);
    LastValueSnoc(s.saves, Entry(s.pending[u]), id, c);
    var s1 := Run(s, first);
    assert s1.pending.Keys == {x} && s1.pending[x] == s.pending[x] && LastValue(s1.saves, id, c) == Offer(s, u, c);
    var rest := DivergesSaved(s1, id, c, x);
    RunAppend(s, first, rest);
    es := first + rest;
  }

  lemma {:induction false} Diverges(s: State, id: string, c: Column) returns (es: seq<Event>)
    requires Sound(s) && !ColumnAgrees(s, id, c)
    ensures OnlyCompletes(es) && Run(s, es).pending == map[] && Row(Run(s, es), id) != Projection(Run(s, es).history, id)
  {
    if NoneSets(s, id, c) {
      es := DivergesIdle(s, id, c);
    } else if AllSaved(s, id, c) {
      var x := OddOne(s, id, c);
      es := DivergesSaved(s, id, c, x);
    } else {
      var a: nat, b: nat :| Sets(s, a, id, c) && Sets(s, b, id, c) && Offer(s, a, c) != Offer(s, b, c);
      var u :| Sets(s, u, id, c) && !s.pending[u].saved;
      es := DivergesOpen(s, id, c, u, if Offer(s, a, c) != Offer(s, u, c) then a else b);
    }
  }

  lemma {:induction false} OddOne(s: State, id: string, c: Column) returns (x: nat)
    requires !NoneSets(s, id, c) && AllSaved(s, id, c) && !ColumnAgrees(s, id, c)
    ensures Sets(s, x, id, c) && Offer(s, x, c) != LastValue(s.saves, id, c)
  {
    if Uniform(s, id, c) {
      x :| Sets(s, x, id, c) && Offer(s, x, c) != LastValue(s.saves, id, c);
    } else {
      var a: nat, b: nat :| Sets(s, a, id, c) && Sets(s, b, id, c) && Offer(s, a, c) != Offer(s, b, c);
      x := if Offer(s, a, c) != LastValue(s.saves, id, c) then a else b;
    }
  }

  lemma {:induction false} DivergesInExistence(s: State, id: string) returns (es: seq<Event>)
    requires Sound(s) && !ExistAgrees(s, id)
    ensures OnlyCompletes(es) && Run(s, es).pending == map[] && Row(Run(s, es), id) != Projection(Run(s, es).history, id)
  {
    es := CompleteAllBut(s, {}, id, Size);
    SoundRun(s, es);
    assert Run(s, es).pending.Keys == {};
  }

  /** In every state a run from nothing reaches, failures included: the row ends up
      as the projection of the history in every order of the statements in flight
      if and only if, column by column, the submissions in flight agree among
      themselves and with what is written. */
  lemma {:induction false} ConvergesIff(owners: map<string, string>, past: seq<Event>, id: string)
    ensures Converges(Run(Start(owners), past), id) <==> Agreed(Run(Start(owners), past), id)
  {
    SoundStart(owners);
    SoundRun(Start(owners), past);
    var s := Run(Start(owners), past);
    if Agreed(s, id) {
      forall es | OnlyCompletes(es) && Run(s, es).pending == map[] ensures Row(Run(s, es), id) == Projection(Run(s, es).history, id) {
        AgreedRun(s, es, id);
        SoundRun(s, es);
        AgreedAtRest(Run(s, es), id);
      }
    } else if !ExistAgrees(s, id) {
      var es := DivergesInExistence(s, id);
    } else {
      var c :| !ColumnAgrees(s, id, c);
      var es := Diverges(s, id, c);
    }
  }

  lemma {:induction false} AgreedAtRest(s: State, id: string)
    requires Sound(s) && Agreed(s, id) && forall call | call in s.pending :: s.pending[call].id != id
    ensures Row(s, id) == Projection(s.history, id)
  {
    forall c ensures Same(s.saves, s.history, id, c) {
      assert ColumnAgrees(s, id, c) && NoneSets(s, id, c);
    }
    SameProjectionIff(s.saves, s.history, id);
  }

  /** Two sizes submitted for one repository, both in flight: they may cross, and
      then the row is not the projection of the history. */
  lemma {:induction false} OverlappingSubmissionsDiverge(owners: map<string, string>, user: string, id: string, a: int, b: int)
    requires Allowed(owners, user, id) && a != b
    ensures !Converges(Run(Start(owners), [Submit(0, user, id, RepositorySize(a), 0), Submit(1, user, id, RepositorySize(b), 0)]), id)
  {
    var e0, e1 := Submit(0, user, id, RepositorySize(a), 0), Submit(1, user, id, RepositorySize(b), 0);
    var s := Apply(Apply(Start(owners), e0), e1);
    RunAppend(Start(owners), [e0], [e1]);
    RunOne(Start(owners), e0);
    RunOne(Apply(Start(owners), e0), e1);
    assert [e0] + [e1] == [e0, e1];
    assert Sets(s, 0, id, Size) && Sets(s, 1, id, Size) && Offer(s, 0, Size) != Offer(s, 1, Size);
    assert !ColumnAgrees(s, id, Size);
    ConvergesIff(owners, [e0, e1], id);
  }

  // ---- Submissions that do not overlap ---------------------------------------------------------

  /** No other submission of a common column of `id` is in flight. */
  ghost predicate SubmitsApart(s: State, e: Event, id: string) {
    e.Submit? && e.id == id ==> forall c | Cell(ToHistory(id, e.submission, e.now), c).Some? :: NoneSets(s, id, c)
  }

  /** The event is a statement of a submission for `id`. */
  predicate Concerns(s: State, e: Event, id: string) {
    !e.Submit? && e.call in s.pending && s.pending[e.call].id == id
  }

  /** No two submissions of a common column of `id` overlap and none of its
      statements fails; other repositories do as they like. */
  ghost predicate ApartRun(s: State, es: seq<Event>, id: string)
    decreases |es|
  {
    es == [] || (SubmitsApart(s, es[0], id) && (Concerns(s, es[0], id) ==> es[0].ok) && ApartRun(Apply(s, es[0]), es[1..], id))
  }

  lemma {:induction false} SubmitAgrees(s: State, e: Event, id: string)
    requires Agreed(s, id) && e.Submit? && SubmitsApart(s, e, id)
    ensures Agreed(Apply(s, e), id)
  {
    var s' := Apply(s, e);
    if Allowed(s.owners, e.user, e.id) && e.call !in s.pending {
      assert Entry(s'.pending[e.call]) == ToHistory(e.id, e.submission, e.now);
      forall c ensures ColumnAgrees(s', id, c) { SubmitColumn(s, s', e, id, c); }
      if call :| call in s.pending && s.pending[call].id == id { assert call in s'.pending && s'.pending[call].id == id; }
    }
  }

  lemma {:induction false} SubmitColumn(s: State, s': State, e: Event, id: string, c: Column)
    requires ColumnAgrees(s, id, c) && e.Submit? && e.call !in s.pending && SubmitsApart(s, e, id)
    requires s' == s.(pending := s.pending[e.call := Pending(e.id, e.submission, e.now, false)])
    ensures ColumnAgrees(s', id, c)
  {
    FlightWith(s, s', e.call, id, c);
    if Sets(s', e.call, id, c) { FirstSetter(s', e.call, id, c); } else { SameSetters(s, s', id, c); }
  }

  lemma {:induction false} FirstSetter(s: State, call: nat, id: string, c: Column)
    requires Sets(s, call, id, c) && !s.pending[call].saved && forall a | a != call :: !Sets(s, a, id, c)
    ensures ColumnAgrees(s, id, c)
  {
    assert !AllSaved(s, id, c) && !NoneSets(s, id, c);
  }

  lemma {:induction false} FlightWith(s: State, s': State, call: nat, id: string, c: Column)
    requires call !in s.pending && call in s'.pending && s'.pending == s.pending[call := s'.pending[call]]
    ensures forall a | a != call :: Sets(s', a, id, c) <==> Sets(s, a, id, c)
    ensures forall a | a in s.pending :: s'.pending[a] == s.pending[a]
  {
  }

  /** Another repository's statement, failing or not. */
  lemma {:induction false} ElsewhereAgrees(s: State, e: Event, id: string)
    requires Agreed(s, id) && !e.Submit? && !Concerns(s, e, id)
    ensures Agreed(Apply(s, e), id)
  {
    var s' := Apply(s, e);
    if e.call in s.pending {
      var h := Entry(s.pending[e.call]);
      HasHistorySnoc(s.saves, h, id);
      HasHistorySnoc(s.history, h, id);
      if call :| call in s.pending && s.pending[call].id == id { assert call in s'.pending && s'.pending[call].id == id; }
      forall c ensures ColumnAgrees(s', id, c) { ElsewhereColumn(s, e, id, c); }
    }
  }

  lemma {:induction false} ElsewhereColumn(s: State, e: Event, id: string, c: Column)
    requires ColumnAgrees(s, id, c) && !e.Submit? && e.call in s.pending && s.pending[e.call].id != id
    ensures ColumnAgrees(Apply(s, e), id, c)
  {
    StatementEffect(s, e);
    ElsewhereLogs(s, Apply(s, e), Entry(s.pending[e.call]), id, c);
    ElsewhereFlight(s, Apply(s, e), e.call, id, c);
    SameSetters(s, Apply(s, e), id, c);
  }

  /** A statement adds at most its entry, and touches no other submission. */
  lemma {:induction false} StatementEffect(s: State, e: Event)
    requires !e.Submit? && e.call in s.pending
    ensures var s', h := Apply(s, e), Entry(s.pending[e.call]);
      && s'.saves in {s.saves, s.saves + [h]} && s'.history in {s.history, s.history + [h]}
      && s'.pending - {e.call} == s.pending - {e.call}
      && (e.call in s'.pending ==> s'.pending[e.call].id == s.pending[e.call].id)
  {
  }

  lemma {:induction false} ElsewhereLogs(s: State, s': State, h: HistoryRow, id: string, c: Column)
    requires h.repositoryId != id && s'.saves in {s.saves, s.saves + [h]} && s'.history in {s.history, s.history + [h]}
    ensures LastValue(s'.saves, id, c) == LastValue(s.saves, id, c) && LastValue(s'.history, id, c) == LastValue(s.history, id, c)
  {
    LastValueSnoc(s.saves, h, id, c);
    LastValueSnoc(s.history, h, id, c);
  }

  lemma {:induction false} ElsewhereFlight(s: State, s': State, call: nat, id: string, c: Column)
    requires call in s.pending && s.pending[call].id != id && s'.pending - {call} == s.pending - {call}
    requires call in s'.pending ==> s'.pending[call].id == s.pending[call].id
    ensures forall a :: Sets(s', a, id, c) <==> Sets(s, a, id, c)
    ensures forall a | Sets(s, a, id, c) :: a in s'.pending && s'.pending[a] == s.pending[a]
  {
    forall a ensures Sets(s', a, id, c) <==> Sets(s, a, id, c)
             ensures Sets(s, a, id, c) ==> a in s'.pending && s'.pending[a] == s.pending[a]
    {
      if a != call {
        assert a in s'.pending - {call} <==> a in s.pending - {call};
        if a in s.pending { assert (s'.pending - {call})[a] == (s.pending - {call})[a]; }
      }
    }
  }

  lemma {:induction false} ApartAgreed(s: State, es: seq<Event>, id: string)
    requires Sound(s) && Agreed(s, id) && ApartRun(s, es, id)
    ensures Sound(Run(s, es)) && Agreed(Run(s, es), id)
    decreases |es|
  {
    if es != [] {
      SoundStep(s, es[0]);
      if es[0].Submit? {
        SubmitAgrees(s, es[0], id);
      } else if Concerns(s, es[0], id) {
        AgreedStep(s, es[0], id);
      } else {
        ElsewhereAgrees(s, es[0], id);
      }
      ApartAgreed(Apply(s, es[0]), es[1..], id);
    }
  }

  /** The metrics row is a projection of its log: in every run in which no two
      submissions of a common column of the repository overlap and none of its
      statements fails, whatever happens to other repositories, its row is the
      projection of the history once none of its submissions is in flight. */
  lemma {:induction false} RowIsProjection(owners: map<string, string>, es: seq<Event>, id: string)
    requires ApartRun(Start(owners), es, id)
    requires forall call | call in Run(Start(owners), es).pending :: Run(Start(owners), es).pending[call].id != id
    ensures Row(Run(Start(owners), es), id) == Projection(Run(Start(owners), es).history, id)
  {
    SoundStart(owners);
    assert Agreed(Start(owners), id);
    ApartAgreed(Start(owners), es, id);
    AgreedAtRest(Run(Start(owners), es), id);
  }

  // ---- The last success ------------------------------------------------------------------------

  /** The row shows no success after its last backup. */
  predicate InOrder(row: Option<MetricsRow>) {
    row.Some? && row.value.lastSuccessfulBackup.Some? ==>
      row.value.lastBackup.Some? && row.value.lastSuccessfulBackup.value <= row.value.lastBackup.value
  }

  /** In a log: the successes of `id` are backups, and its backup times do not go back. */
  ghost predicate BackupTimesAscend(log: seq<HistoryRow>, id: string) {
    && (forall h | h in log && h.repositoryId == id && h.successfulBackup.Some? :: h.backup == h.successfulBackup)
    && (forall i, j | 0 <= i < j < |log| && EndsBackup(log[i], id) && EndsBackup(log[j], id) ::
          log[i].backup.value <= log[j].backup.value)
  }

  predicate EndsBackup(h: HistoryRow, id: string) {
    h.repositoryId == id && h.backup.Some?
  }

  lemma {:induction false} LastBackupIsLatest(log: seq<HistoryRow>, id: string, k: nat)
    requires BackupTimesAscend(log, id) && k < |log| && EndsBackup(log[k], id)
    ensures LastValue(log, id, Backup).Some? && log[k].backup.value <= LastValue(log, id, Backup).value
  {
    var n := |log| - 1;
    if !EndsBackup(log[n], id) { LastBackupIsLatest(log[..n], id, k); }
  }

  lemma {:induction false} LastValueIsThere(log: seq<HistoryRow>, id: string, c: Column) returns (k: nat)
    requires LastValue(log, id, c).Some?
    ensures k < |log| && log[k].repositoryId == id && Cell(log[k], c) == LastValue(log, id, c)
  {
    k := |log| - 1;
    if !(log[k].repositoryId == id && Cell(log[k], c).Some?) { k := LastValueIsThere(log[..k], id, c); }
  }

  /** A log of one repository's backups in time implies a row in order. */
  lemma {:induction false} SuccessNotAfterBackup(log: seq<HistoryRow>, id: string)
    requires BackupTimesAscend(log, id)
    ensures InOrder(Projection(log, id))
  {
    if LastValue(log, id, Success).Some? {
      var k := LastValueIsThere(log, id, Success);
      assert log[k] in log;
      LastBackupIsLatest(log, id, k);
    }
  }

  /** A backup of `id` that ended with this outcome and is still to be upserted. */
  predicate Ending(s: State, call: nat, id: string, success: bool) {
    && call in s.pending && !s.pending[call].saved && s.pending[call].id == id
    && s.pending[call].submission.BackupEnd? && s.pending[call].submission.success == success
  }

  /** Every failed backup still to be upserted ended no earlier than the success the
      row shows and than every success still to be upserted. */
  ghost predicate FailuresAreLater(s: State, id: string) {
    forall f | Ending(s, f, id, false) ::
      && (Row(s, id).Some? && Row(s, id).value.lastSuccessfulBackup.Some? ==>
            Row(s, id).value.lastSuccessfulBackup.value <= s.pending[f].now)
      && forall g | Ending(s, g, id, true) :: s.pending[g].now <= s.pending[f].now
  }

  ghost predicate StaysInOrder(s: State, id: string) {
    forall es | NoSubmit(es) :: InOrder(Row(Run(s, es), id))
  }

  predicate NoSubmit(es: seq<Event>) {
    forall e | e in es :: !e.Submit?
  }

  lemma {:induction false} OrderStep(s: State, e: Event, id: string)
    requires !e.Submit? && InOrder(Row(s, id)) && FailuresAreLater(s, id)
    ensures InOrder(Row(Apply(s, e), id)) && FailuresAreLater(Apply(s, e), id)
  {
    var s' := Apply(s, e);
    if e.call in s.pending {
      forall f | Ending(s', f, id, false) ensures Ending(s, f, id, false) && s'.pending[f] == s.pending[f] {}
      forall g | Ending(s', g, id, true) ensures Ending(s, g, id, true) && s'.pending[g] == s.pending[g] {}
      if e.Upsert? && e.ok && !s.pending[e.call].saved && s.pending[e.call].id == id && s.pending[e.call].submission.BackupEnd? {
        assert Ending(s, e.call, id, s.pending[e.call].submission.success);
      }
    }
  }

  lemma {:induction false} OrderRun(s: State, es: seq<Event>, id: string)
    requires NoSubmit(es) && InOrder(Row(s, id)) && FailuresAreLater(s, id)
    ensures InOrder(Row(Run(s, es), id)) && FailuresAreLater(Run(s, es), id)
    decreases |es|
  {
    if es != [] {
      assert es[0] in es;
      OrderStep(s, es[0], id);
      OrderRun(Apply(s, es[0]), es[1..], id);
    }
  }

  /** A failure that ended before a success the row shows, upserted now. */
  lemma {:induction false} EarlyFailure(s: State, id: string, f: nat)
    requires Ending(s, f, id, false) && Row(s, id).Some? && Row(s, id).value.lastSuccessfulBackup.Some?
    requires s.pending[f].now < Row(s, id).value.lastSuccessfulBackup.value
    ensures !InOrder(Row(Apply(s, Upsert(f, true)), id))
  {
  }

  lemma {:induction false} CrossedEndings(s: State, id: string, f: nat, g: nat)
    requires Ending(s, f, id, false) && Ending(s, g, id, true) && s.pending[f].now < s.pending[g].now
    ensures !InOrder(Row(Run(s, [Upsert(g, true), Upsert(f, true)]), id))
  {
    var s1 := Apply(s, Upsert(g, true));
    RunAppend(s, [Upsert(g, true)], [Upsert(f, true)]);
    RunOne(s, Upsert(g, true));
    RunOne(s1, Upsert(f, true));
    assert [Upsert(g, true), Upsert(f, true)] == [Upsert(g, true)] + [Upsert(f, true)];
    assert Row(s1, id).value.lastSuccessfulBackup == Some(s.pending[g].now);
    EarlyFailure(s1, id, f);
  }

  /** Exactly when the row goes on showing no success after its last backup,
      whatever becomes of the submissions in flight: in every state, when it shows
      none now and every failure still to be upserted ended no earlier than every
      success. */
  lemma {:induction false} StaysInOrderIff(s: State, id: string)
    ensures StaysInOrder(s, id) <==> InOrder(Row(s, id)) && FailuresAreLater(s, id)
  {
    if InOrder(Row(s, id)) && FailuresAreLater(s, id) {
      forall es | NoSubmit(es) ensures InOrder(Row(Run(s, es), id)) { OrderRun(s, es, id); }
    } else if !InOrder(Row(s, id)) {
      assert Run(s, []) == s && NoSubmit([]);
    } else {
      var f :| Ending(s, f, id, false) &&
        !((Row(s, id).Some? && Row(s, id).value.lastSuccessfulBackup.Some? ==>
             Row(s, id).value.lastSuccessfulBackup.value <= s.pending[f].now)
          && forall g | Ending(s, g, id, true) :: s.pending[g].now <= s.pending[f].now);
      if g :| Ending(s, g, id, true) && s.pending[g].now > s.pending[f].now {
        CrossedEndings(s, id, f, g);
        assert NoSubmit([Upsert(g, true), Upsert(f, true)]);
      } else {
        EarlyFailure(s, id, f);
        RunOne(s, Upsert(f, true));
        assert NoSubmit([Upsert(f, true)]);
      }
    }
  }

  /** For any two times: the failure that ended first is upserted last, and the row
      shows a success after its last backup. */
  lemma {:induction false} SuccessAfterBackup(owners: map<string, string>, user: string, id: string, early: int, late: int, ms: int)
    requires Allowed(owners, user, id) && early < late
    ensures !InOrder(Row(Run(Start(owners), [
      Submit(0, user, id, BackupEnd(ms, false), early), Submit(1, user, id, BackupEnd(ms, true), late),
      Upsert(1, true), Upsert(0, true)]), id))
  {
    var e0, e1 := Submit(0, user, id, BackupEnd(ms, false), early), Submit(1, user, id, BackupEnd(ms, true), late);
    var rest := [Upsert(1, true), Upsert(0, true)];
    var s := Apply(Apply(Start(owners), e0), e1);
    assert [e0, e1, Upsert(1, true), Upsert(0, true)] == [e0] + ([e1] + rest);
    RunAppend(Start(owners), [e0], [e1] + rest);
    RunOne(Start(owners), e0);
    RunAppend(Apply(Start(owners), e0), [e1], rest);
    RunOne(Apply(Start(owners), e0), e1);
    CrossedEndings(s, id, 0, 1);
  }

  /** A backup of `id` ends when no other is still to be upserted and no earlier than
      the success the row shows; submissions of other repositories are free. */
  ghost predicate EndsInTime(s: State, e: Event, id: string) {
    e.Submit? && e.id == id && e.submission.BackupEnd? ==>
      && (forall call :: !Ending(s, call, id, true) && !Ending(s, call, id, false))
      && (Row(s, id).Some? && Row(s, id).value.lastSuccessfulBackup.Some? ==>
            Row(s, id).value.lastSuccessfulBackup.value <= e.now)
  }

  ghost predicate TimelyRun(s: State, es: seq<Event>, id: string)
    decreases |es|
  {
    es == [] || (EndsInTime(s, es[0], id) && TimelyRun(Apply(s, es[0]), es[1..], id))
  }

  lemma {:induction false} TimelyKeeps(s: State, es: seq<Event>, id: string)
    requires InOrder(Row(s, id)) && FailuresAreLater(s, id) && TimelyRun(s, es, id)
    ensures InOrder(Row(Run(s, es), id)) && FailuresAreLater(Run(s, es), id)
    decreases |es|
  {
    if es != [] {
      if es[0].Submit? { TimelySubmit(s, es[0], id); } else { OrderStep(s, es[0], id); }
      TimelyKeeps(Apply(s, es[0]), es[1..], id);
    }
  }

  lemma {:induction false} TimelySubmit(s: State, e: Event, id: string)
    requires InOrder(Row(s, id)) && FailuresAreLater(s, id) && e.Submit? && EndsInTime(s, e, id)
    ensures InOrder(Row(Apply(s, e), id)) && FailuresAreLater(Apply(s, e), id)
  {
    var s' := Apply(s, e);
    assert Row(s', id) == Row(s, id);
    forall f, ok | Ending(s', f, id, ok)
      ensures Ending(s, f, id, ok) || (f == e.call && e.id == id && e.submission.BackupEnd? && e.submission.success == ok)
    {
    }
  }

  /** In every run in which the backups of the repository end one after another by
      a clock that does not go back, failures and other repositories included, its
      row never shows a success after its last backup. */
  lemma {:induction false} RowSuccessNotAfterBackup(owners: map<string, string>, es: seq<Event>, id: string)
    requires TimelyRun(Start(owners), es, id)
    ensures InOrder(Row(Run(Start(owners), es), id))
  {
    TimelyKeeps(Start(owners), es, id);
  }

  // ---- The service as an object, one submission at a time ----------------------------------------

  /** The row before a submission; a first one finds size 0 and nothing else. */
  function Before(metrics: map<string, MetricsRow>, id: string): MetricsRow {
    if id in metrics then metrics[id] else MetricsRow(0, None, None, None, None)
  }

  /** A submission of the owner stores `row` if the upsert succeeds and logs `entry` if
      the append does too; nobody else's does anything. */
  ghost predicate Done(s: State, s': State, user: string, id: string, row: MetricsRow, entry: HistoryRow, saveOk: bool, appendOk: bool, r: Result<(), Failure>) {
    var allowed := id in s.owners && s.owners[id] == user;
    && s'.metrics == (if allowed && saveOk then s.metrics[id := row] else s.metrics)
    && s'.history == (if allowed && saveOk && appendOk then s.history + [entry] else s.history)
    && r == (if id !in s.owners then Err(NotFound)
             else if s.owners[id] != user then Err(Unauthorized)
             else if saveOk && appendOk then Ok(()) else Err(DatabaseError))
  }

  /** The three statements of a submission, with nothing else in flight. */
  lemma {:induction false} StepsDone(s: State, user: string, id: string, submission: Submission, now: int, saveOk: bool, appendOk: bool)
    requires s.pending == map[]
    ensures var s' := Run(s, [Submit(0, user, id, submission, now), Upsert(0, saveOk), Append(0, appendOk)]);
      var allowed := id in s.owners && s.owners[id] == user;
      && s'.metrics == (if allowed && saveOk then s.metrics[id := Save(Row(s, id), ToPatch(submission, now))] else s.metrics)
      && s'.history == (if allowed && saveOk && appendOk then s.history + [ToHistory(id, submission, now)] else s.history)
  {
    var e := [Submit(0, user, id, submission, now), Upsert(0, saveOk), Append(0, appendOk)];
    ThreeSteps(s, e);
  }

  class MetricsService {
    const owners: map<string, string>
    var metrics: map<string, MetricsRow>
    var history: seq<HistoryRow>
    ghost var saves: seq<HistoryRow>

    constructor (owners: map<string, string>)
      ensures View() == Start(owners)
    {
      this.owners := owners;
      metrics, history, saves := map[], [], [];
    }

    ghost function View(): State
      reads this
    {
      State(owners, metrics, history, saves, map[])
    }

    method SubmitBackupStart(user: string, id: string, now: int, saveOk: bool, appendOk: bool) returns (r: Result<(), Failure>)
      modifies this
      ensures Done(old(View()), View(), user, id, old(Before(metrics, id)).(lastStarted := Some(now)),
                   HistoryRow(id, None, Some(now), None, None, None), saveOk, appendOk, r)
    {
      StepsDone(View(), user, id, BackupStart, now, saveOk, appendOk);
      r := Submit(user, id, BackupStart, now, saveOk, appendOk);
    }

    /** A success is a backup of the same moment; a failure leaves the last success. */
    method SubmitBackupEnd(user: string, id: string, durationMs: int, success: bool, now: int, saveOk: bool, appendOk: bool)
      returns (r: Result<(), Failure>)
      modifies this
      ensures var before := old(Before(metrics, id));
        Done(old(View()), View(), user, id,
             MetricsRow(before.sizeBytes, before.lastStarted, Some(now),
                        if success then Some(now) else before.lastSuccessfulBackup, Some(durationMs)),
             HistoryRow(id, None, None, Some(now), if success then Some(now) else None, Some(durationMs)), saveOk, appendOk, r)
    {
      StepsDone(View(), user, id, BackupEnd(durationMs, success), now, saveOk, appendOk);
      r := Submit(user, id, BackupEnd(durationMs, success), now, saveOk, appendOk);
    }

    method SubmitRepositorySize(user: string, id: string, sizeBytes: int, saveOk: bool, appendOk: bool) returns (r: Result<(), Failure>)
      modifies this
      ensures Done(old(View()), View(), user, id, old(Before(metrics, id)).(sizeBytes := sizeBytes),
                   HistoryRow(id, Some(sizeBytes), None, None, None, None), saveOk, appendOk, r)
    {
      StepsDone(View(), user, id, RepositorySize(sizeBytes), 0, saveOk, appendOk);
      r := Submit(user, id, RepositorySize(sizeBytes), 0, saveOk, appendOk);
    }

    /** Ownership check, upsert, append; either statement may fail, and a failed
        append leaves the row ahead of the history. */
    method Submit(user: string, id: string, s: Submission, now: int, saveOk: bool, appendOk: bool) returns (r: Result<(), Failure>)
      modifies this
      ensures View() == Run(old(View()), [Event.Submit(0, user, id, s, now), Upsert(0, saveOk), Append(0, appendOk)])
      ensures r == if id !in owners then Err(NotFound)
                   else if owners[id] != user then Err(Unauthorized)
                   else if saveOk && appendOk then Ok(()) else Err(DatabaseError)
      ensures r.Ok? && old(Sound(View())) ==> forall other, c ::
        Same(saves, history, other, c) <==> (other == id && Cell(ToHistory(id, s, now), c).Some?) || old(Same(saves, history, other, c))
    {
      ghost var e := [Event.Submit(0, user, id, s, now), Upsert(0, saveOk), Append(0, appendOk)];
      ThreeSteps(View(), e);
      if id !in owners { return Err(NotFound); }
      if owners[id] != user { return Err(Unauthorized); }
      if !saveOk { return Err(DatabaseError); }
      SaveRow(id, ToPatch(s, now));
      saves := saves + [ToHistory(id, s, now)];
      if !appendOk { return Err(DatabaseError); }
      history := history + [ToHistory(id, s, now)];
      forall other, c { BothSnoc(old(saves), old(history), ToHistory(id, s, now), other, c); }
      return Ok(());
    }

    method SaveRow(id: string, p: Patch)
      modifies this`metrics
      ensures metrics == old(metrics)[id := Save(old(Row(View(), id)), p)]
    {
      var row := NEW_ROW;
      if id in metrics { row := metrics[id]; }
      if p.sizeBytes.Some? { row := row.(sizeBytes := p.sizeBytes.value); }
      if p.lastStarted.Some? { row := row.(lastStarted := p.lastStarted); }
      if p.lastBackup.Some? { row := row.(lastBackup := p.lastBackup); }
      if p.lastSuccessfulBackup.Some? { row := row.(lastSuccessfulBackup := p.lastSuccessfulBackup); }
      if p.lastBackupDuration.Some? { row := row.(lastBackupDuration := p.lastBackupDuration); }
      metrics := metrics[id := row];
    }
  }

  lemma {:induction false} ThreeSteps(s: State, e: seq<Event>)
    requires |e| == 3
    ensures Run(s, e) == Apply(Apply(Apply(s, e[0]), e[1]), e[2])
  {
    assert e == [e[0]] + ([e[1]] + [e[2]]);
    RunAppend(s, [e[0]], [e[1]] + [e[2]]);
    RunOne(s, e[0]);
    RunAppend(Apply(s, e[0]), [e[1]], [e[2]]);
    RunOne(Apply(s, e[0]), e[1]);
    RunOne(Apply(Apply(s, e[0]), e[1]), e[2]);
  }

  /** Appending the same entry to both logs settles its columns and no other. */
  lemma {:induction false} BothSnoc(a: seq<HistoryRow>, b: seq<HistoryRow>, h: HistoryRow, id: string, c: Column)
    ensures Same(a + [h], b + [h], id, c) <==> (h.repositoryId == id && Cell(h, c).Some?) || Same(a, b, id, c)
  {
    LastValueSnoc(a, h, id, c);
    LastValueSnoc(b, h, id, c);
  }
}
