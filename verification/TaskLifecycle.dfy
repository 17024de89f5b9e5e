/** Backup, prune, forget, restore and schedule runs as operations that advance
    only at their awaits, interleaved in any way, over one task table.

    Every await can also fail. Where the code may or may not await (a backend
    without metrics, say) the model always does, which only adds interleavings. */
module TaskLifecycle {
  import opened Prelude
  import opened RunningTasks

  datatype Kind = BackupOp | PruneOp | ForgetOp | RestoreOp | RestorePointOp

  /** Preparing: `canStart` passed, rows being read. Logging: inside `createLog`
      before the task body. Announcing: the body runs but has not called
      `startTask`. Running: between `startTask` and `endTask`. Settled: the task
      promise has settled. Rejected: the operation failed before there was a task.
      Lost: `createLog` failed, so the promise of the operation never settles. */
  datatype Stage = Preparing | Logging | Announcing | Running | Settled(ok: bool) | Rejected | Lost

  /** `tick` is the schedule run that started a backup, `slot` its position there. */
  datatype Op = Op(kind: Kind, key: string, stage: Stage, tick: Option<nat>, slot: nat)

  /** Reading and Marking: awaiting the reads and writes before `startTask`.
      AwaitStart and AwaitTask: awaiting the child's admission and its task.
      Skipped: ended without a task. Finished: ended after `endTask`.
      Crashed: `updateTask` threw inside the catch clause. */
  datatype TickStage = Reading | Marking | AwaitStart | AwaitTask | Skipped | Finished | Crashed

  datatype Tick = Tick(key: string, stage: TickStage, repositories: seq<string>, status: seq<TaskStatus>, children: seq<nat>)

  datatype State = State(table: Table, ops: map<nat, Op>, ticks: map<nat, Tick>, next: nat)

  const EMPTY := State(EMPTY_TABLE, map[], map[], 0)

  datatype Event =
    | Begin(kind: Kind, key: string)
    | Advance(id: nat)
    | Fail(id: nat)
    | OnTick(key: string, hasLock: bool)
    | TickRead(id: nat, repositories: seq<string>)
    | TickStep(id: nat)
    | TickFail(id: nat)
    | CancelKey(key: string)

  predicate Guarded(kind: Kind) {
    kind in {BackupOp, PruneOp, ForgetOp}
  }

  function TypeOf(kind: Kind): TaskType {
    match kind
    case BackupOp => Backup
    case PruneOp => Forget
    case ForgetOp => Forget
    case _ => Restore
  }

  /** The operation right after it is called: guarded kinds ask `canStart` first,
      restores never do. */
  function NewOp(t: Table, kind: Kind, key: string, tick: Option<nat>, slot: nat): Op {
    Op(kind, key,
       if !Guarded(kind) then Logging
       else if key in t.activeTasks then Rejected
       else Preparing,
       tick, slot)
  }

  /** The stage after a successful await. */
  function NextStage(kind: Kind, stage: Stage): Stage {
    match stage
    case Preparing => if kind == ForgetOp then Running else Logging
    case Logging => if kind == PruneOp then Running else Announcing
    case Announcing => Running
    case Running => Settled(true)
    case _ => stage
  }

  /** The stage after an await that throws. */
  function FailedStage(stage: Stage): Stage {
    match stage
    case Preparing => Rejected
    case Logging => Lost
    case Announcing => Settled(false)
    case Running => Settled(false)
    case _ => stage
  }

  /** Entering Running calls `startTask`; leaving it calls `endTask`. */
  function Move(s: State, id: nat, stage: Stage): State
    requires id in s.ops
  {
    var op := s.ops[id];
    s.(ops := s.ops[id := op.(stage := stage)],
       table := if stage == Running && op.stage != Running
                then Start(s.table, op.key, TypeOf(op.kind), None, id, op.tick)
                else if op.stage == Running && stage != Running then End(s.table, op.key)
                else s.table)
  }

  function Items(t: Tick): seq<ScheduleItem>
    requires |t.status| == |t.repositories|
  {
    seq(|t.status|, i requires 0 <= i < |t.status| => ScheduleItem(t.repositories[i], t.status[i]))
  }

  predicate InLoop(t: Tick) {
    t.stage in {AwaitStart, AwaitTask}
  }

  /** The head of the loop, reached without an await from `startTask` and from every
      recorded status; `t` is the run with its status up to date. Stop, or call
      `createBackup` for the next repository. */
  function NextChild(s: State, id: nat, t: Tick): State {
    var n := |t.children|;
    if n >= |t.repositories| || id in s.table.aborted
    then s.(ticks := s.ticks[id := t.(stage := Finished)], table := End(s.table, t.key))
    else
      s.(ops := s.ops[s.next := NewOp(s.table, BackupOp, t.repositories[n], Some(id), n)],
         ticks := s.ticks[id := t.(stage := AwaitStart, children := t.children + [s.next])],
         next := s.next + 1)
  }

  /** `startTask`, the first `updateTask` and the first child, or nothing for an
      empty schedule. */
  function EnterLoop(s: State, id: nat): State
    requires id in s.ticks
  {
    var t := s.ticks[id];
    if t.repositories == [] then s.(ticks := s.ticks[id := t.(stage := Skipped)])
    else
      var t' := t.(status := seq(|t.repositories|, _ => Incomplete), children := []);
      var started := Start(s.table, t.key, TaskType.Schedule, None, id, None);
      var updated := UpdateStatus(started, t.key, Items(t'));
      NextChild(s.(table := if updated.Ok? then updated.value else started), id, t')
  }

  /** The run's list with the last child's outcome written. */
  function Noted(t: Tick, ok: bool): Tick
    requires 0 < |t.children| <= |t.status|
  {
    t.(status := t.status[|t.children| - 1 := if ok then Complete else Failed])
  }

  /** Record the child's outcome, `updateTask` and go on to the next child. When
      `updateTask` throws, the catch clause records a failure and throws again, so
      the run ends without `endTask`. */
  function Record(s: State, id: nat, ok: bool): State
    requires id in s.ticks && 0 < |s.ticks[id].children| <= |s.ticks[id].status| == |s.ticks[id].repositories|
  {
    var t := s.ticks[id];
    match UpdateStatus(s.table, t.key, Items(Noted(t, ok)))
    case Ok(table) => NextChild(s.(table := table), id, Noted(t, ok))
    case Err(_) => s.(ticks := s.ticks[id := Noted(t, false).(stage := Crashed)])
  }

  predicate Recordable(s: State, id: nat) {
    && id in s.ticks
    && 0 < |s.ticks[id].children| <= |s.ticks[id].status| == |s.ticks[id].repositories|
    && s.ticks[id].children[|s.ticks[id].children| - 1] in s.ops
  }

  function StepTick(s: State, id: nat): State
    requires id in s.ticks
  {
    var t := s.ticks[id];
    match t.stage
    case Marking => EnterLoop(s, id)
    case AwaitStart =>
      if !Recordable(s, id) then s
      else
        (match s.ops[t.children[|t.children| - 1]].stage
         case Rejected => Record(s, id, false)
         case Announcing => s.(ticks := s.ticks[id := t.(stage := AwaitTask)])
         case Running => s.(ticks := s.ticks[id := t.(stage := AwaitTask)])
         case Settled(_) => s.(ticks := s.ticks[id := t.(stage := AwaitTask)])
         case _ => s)
    case AwaitTask =>
      if !Recordable(s, id) then s
      else
        (match s.ops[t.children[|t.children| - 1]].stage
         case Settled(ok) => Record(s, id, ok)
         case _ => s)
    case _ => s
  }

  function Apply(s: State, e: Event): State {
    match e
    case Begin(kind, key) =>
      s.(ops := s.ops[s.next := NewOp(s.table, kind, key, None, 0)], next := s.next + 1)
    case Advance(id) =>
      if id in s.ops then Move(s, id, NextStage(s.ops[id].kind, s.ops[id].stage)) else s
    case Fail(id) =>
      if id in s.ops then Move(s, id, FailedStage(s.ops[id].stage)) else s
    case OnTick(key, hasLock) =>
      if hasLock then s.(ticks := s.ticks[s.next := Tick(key, Reading, [], [], [])], next := s.next + 1) else s
    case TickRead(id, repositories) =>
      if id in s.ticks && s.ticks[id].stage == Reading
      then s.(ticks := s.ticks[id := s.ticks[id].(stage := Marking, repositories := repositories)]) else s
    case TickStep(id) => if id in s.ticks then StepTick(s, id) else s
    case TickFail(id) =>
      if id in s.ticks && s.ticks[id].stage in {Reading, Marking}
      then s.(ticks := s.ticks[id := s.ticks[id].(stage := Skipped)]) else s
    case CancelKey(key) =>
      (match Cancel(s.table, key) case Ok(table) => s.(table := table) case Err(_) => s)
  }

  function Run(s: State, es: seq<Event>): State
    decreases |es|
  {
    if es == [] then s else Run(Apply(s, es[0]), es[1..])
  }

  lemma {:induction false} RunAppend(s: State, es: seq<Event>, fs: seq<Event>)
    ensures Run(s, es + fs) == Run(Run(s, es), fs)
    decreases |es|
  {
    if es == [] {
      assert es + fs == fs;
    } else {
      assert (es + fs)[1..] == es[1..] + fs;
      RunAppend(Apply(s, es[0]), es[1..], fs);
    }
  }

  lemma RunOne(s: State, e: Event)
    ensures Run(s, [e]) == Apply(s, e)
  {
    assert Run(s, [e]) == Run(Apply(s, e), [e][1..]);
  }
}
