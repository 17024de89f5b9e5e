/** When a schedule run can crash: `updateTask` throws because its entry is gone,
    throws again in the catch clause, and `endTask` is skipped. */
module ScheduleCrashes {
  import opened Prelude
  import opened RunningTasks
  import opened TaskLifecycle
  import opened TaskSafety
  import opened ScheduleRuns
  import opened ScheduleCancellation

  // ---- Every run --------------------------------------------------------------------

  /** The body of the task has begun. */
  predicate Begun(stage: Stage) {
    stage in {Announcing, Running} || stage.Settled?
  }

  /** A run awaits a task only after the child's body has begun. */
  ghost predicate Awaiting(s: State) {
    forall id | id in s.ticks && s.ticks[id].stage == AwaitTask && Recordable(s, id) ::
      Begun(Child(s, id).stage)
  }

  /** The child that run `id` started last. */
  function Child(s: State, id: nat): Op
    requires Recordable(s, id)
  {
    s.ops[s.ticks[id].children[|s.ticks[id].children| - 1]]
  }

  /** What holds in every state a run from nothing reaches. */
  ghost predicate Good(s: State) {
    Sound(s) && Regular(s) && Awaiting(s)
  }

  /** In the loop below its head the last child is an operation. */
  lemma {:induction false} LastChild(s: State, id: nat)
    requires Regular(s) && id in s.ticks && s.ticks[id].stage in {AwaitStart, AwaitTask}
    ensures Recordable(s, id) && Child(s, id).tick == Some(id)
    ensures s.ticks[id].children[|s.ticks[id].children| - 1] < s.next
  {
    assert TickShape(s, id);
    assert IsChild(s, id, |s.ticks[id].children| - 1);
  }

  lemma {:induction false} BegunStep(s: State, e: Event, c: nat)
    requires c in s.ops && c < s.next && Begun(s.ops[c].stage)
    ensures c in Apply(s, e).ops && Begun(Apply(s, e).ops[c].stage)
  {
    OpsKept(s, e, c);
  }

  lemma {:induction false} AwaitsOwn(s: State, id: nat)
    requires Regular(s) && id in s.ticks && StepTick(s, id).ticks[id].stage == AwaitTask
    ensures StepTick(s, id).ticks[id] == s.ticks[id].(stage := AwaitTask)
    ensures s.ticks[id].stage in {AwaitStart, AwaitTask}
    ensures s.ticks[id].stage == AwaitStart ==> Recordable(s, id) && Begun(Child(s, id).stage)
  {
  }

  lemma {:induction false} NewlyAwaiting(s: State, e: Event, id: nat)
    requires Regular(s) && id in Apply(s, e).ticks && Apply(s, e).ticks[id].stage == AwaitTask
    ensures id in s.ticks && s.ticks[id].stage in {AwaitStart, AwaitTask}
    ensures Apply(s, e).ticks[id] == s.ticks[id].(stage := AwaitTask)
    ensures s.ticks[id].stage == AwaitStart ==> Recordable(s, id) && Begun(Child(s, id).stage)
  {
    if e.TickStep? && e.id in s.ticks {
      StepIsOwn(s, e.id);
      if e.id == id { AwaitsOwn(s, id); }
    }
  }

  lemma {:induction false} AwaitingAt(s: State, e: Event, id: nat)
    requires Good(s) && id in Apply(s, e).ticks && Apply(s, e).ticks[id].stage == AwaitTask && Recordable(Apply(s, e), id)
    ensures Begun(Child(Apply(s, e), id).stage)
  {
    NewlyAwaiting(s, e, id);
    LastChild(s, id);
    BegunStep(s, e, s.ticks[id].children[|s.ticks[id].children| - 1]);
  }

  lemma {:induction false} AwaitingStep(s: State, e: Event)
    requires Good(s)
    ensures Awaiting(Apply(s, e))
  {
    var s' := Apply(s, e);
    forall id | id in s'.ticks && s'.ticks[id].stage == AwaitTask && Recordable(s', id) ensures Begun(Child(s', id).stage) {
      AwaitingAt(s, e, id);
    }
  }

  lemma {:induction false} GoodStep(s: State, e: Event)
    requires Good(s)
    ensures Good(Apply(s, e))
  {
    SoundStep(s, e);
    RegularStep(s, e);
    AwaitingStep(s, e);
  }

  lemma {:induction false} GoodRun(s: State, es: seq<Event>)
    requires Good(s)
    ensures Good(Run(s, es))
    decreases |es|
  {
    if es != [] {
      GoodStep(s, es[0]);
      GoodRun(Apply(s, es[0]), es[1..]);
    }
  }

  // ---- Who can still take the entry away ----------------------------------------------

  /** Operation `o` is on its way to an `endTask(key)`. */
  predicate OpHolds(s: State, o: nat, key: string) {
    o in s.ops && s.ops[o].key == key && s.ops[o].stage in {Preparing, Logging, Announcing, Running}
  }

  /** Run `o` awaits a child whose promise never settles. */
  predicate Stuck(s: State, o: nat) {
    o in s.ticks && s.ticks[o].stage in {AwaitStart, AwaitTask} && Recordable(s, o) && Child(s, o).stage == Lost
  }

  /** A schedule run that is not over. */
  predicate Open(t: Tick) {
    t.stage == Reading || (t.stage == Marking && t.repositories != []) || InLoop(t)
  }

  /** Schedule run `o` is on its way to an `endTask(key)`. */
  predicate TickHolds(s: State, o: nat, key: string) {
    && o in s.ticks && s.ticks[o].key == key && !Stuck(s, o)
    && Open(s.ticks[o])
  }

  predicate Holder(s: State, o: nat, key: string) {
    OpHolds(s, o, key) || TickHolds(s, o, key)
  }

  /** Run `id` is in its loop and its child can still end. */
  predicate ToRecord(s: State, id: nat) {
    id in s.ticks && InLoop(s.ticks[id]) && !Stuck(s, id)
  }

  /** The entry of `key` is run `id`'s and nobody else is on the way to end it. */
  ghost predicate Undisputed(s: State, id: nat, key: string) {
    key in s.table.activeTasks && forall o | o != id :: !Holder(s, o, key)
  }

  /** No restore and no schedule run under `key` begins. */
  predicate NoNewHolder(es: seq<Event>, key: string) {
    forall e | e in es :: NotNewHolder(e, key)
  }

  predicate NotNewHolder(e: Event, key: string) {
    && !(e.OnTick? && e.key == key)
    && !(e.Begin? && e.key == key && !Guarded(e.kind))
  }

  // ---- Undisputed runs never crash -----------------------------------------------------

  ghost predicate Safe(s: State, id: nat, key: string) {
    && id in s.ticks && s.ticks[id].key == key
    && (s.ticks[id].stage == Finished || (InLoop(s.ticks[id]) && (!ToRecord(s, id) || Undisputed(s, id, key))))
  }

  /** Being on the way to an `endTask` is not gained by a move ... */
  lemma {:induction false} MoveHolds(s: State, o: nat, stage: Stage, i: nat, key: string)
    requires Good(s) && o in s.ops && stage in {NextStage(s.ops[o].kind, s.ops[o].stage), FailedStage(s.ops[o].stage)}
    requires Holder(Move(s, o, stage), i, key)
    ensures Holder(s, i, key)
  {
    if i in s.ticks && s.ticks[i].stage in {AwaitStart, AwaitTask} { LastChild(s, i); }
  }

  lemma {:induction false} MoveToRecord(s: State, o: nat, stage: Stage, id: nat)
    requires Good(s) && o in s.ops && stage in {NextStage(s.ops[o].kind, s.ops[o].stage), FailedStage(s.ops[o].stage)}
    requires ToRecord(Move(s, o, stage), id)
    ensures ToRecord(s, id)
  {
    if s.ticks[id].stage in {AwaitStart, AwaitTask} { LastChild(s, id); }
  }

  lemma {:induction false} SafeMove(s: State, o: nat, stage: Stage, id: nat, key: string)
    requires Good(s) && o in s.ops && Safe(s, id, key)
    requires stage in {NextStage(s.ops[o].kind, s.ops[o].stage), FailedStage(s.ops[o].stage)}
    ensures Safe(Move(s, o, stage), id, key)
  {
    var s' := Move(s, o, stage);
    if ToRecord(s', id) { MoveToRecord(s, o, stage, id); }
    if InLoop(s.ticks[id]) && ToRecord(s, id) {
      forall i | i != id ensures !Holder(s', i, key) {
        if Holder(s', i, key) { MoveHolds(s, o, stage, i, key); }
      }
      assert !Holder(s, o, key);
    }
  }

  /** ... nor by a step of a schedule run while the entry is there. */
  lemma {:induction false} StepHolds(s: State, o: nat, i: nat, key: string)
    requires Good(s) && o in s.ticks && key in s.table.activeTasks
    requires Holder(StepTick(s, o), i, key)
    ensures Holder(s, i, key)
  {
    if i == o {
      OwnStepHolds(s, o, key);
    } else if i in s.ticks {
      OtherHolds(s, o, i, key);
    } else {
      NewChildHolds(s, o, i, key);
    }
  }

  lemma {:induction false} OtherHolds(s: State, o: nat, i: nat, key: string)
    requires Good(s) && o in s.ticks && i in s.ticks && i != o && Holder(StepTick(s, o), i, key)
    ensures Holder(s, i, key)
  {
    StepKeepsOthers(s, o);
    if s.ticks[i].stage in {AwaitStart, AwaitTask} { OtherStuck(s, StepTick(s, o), i); }
  }

  lemma {:induction false} OwnStepHolds(s: State, o: nat, key: string)
    requires Good(s) && o in s.ticks && Holder(StepTick(s, o), o, key)
    ensures Holder(s, o, key)
  {
  }

  /** A step of schedule run `o` changes no other run and no operation. */
  lemma {:induction false} StepKeepsOthers(s: State, o: nat)
    requires Good(s) && o in s.ticks
    ensures forall i | i in s.ticks && i != o :: i in StepTick(s, o).ticks && StepTick(s, o).ticks[i] == s.ticks[i]
    ensures forall c | c in s.ops :: c in StepTick(s, o).ops && StepTick(s, o).ops[c] == s.ops[c]
    ensures StepTick(s, o).table.aborted == s.table.aborted
  {
    forall i | i in s.ticks && i != o ensures i in StepTick(s, o).ticks && StepTick(s, o).ticks[i] == s.ticks[i] {
      TickOther(s, o, i);
    }
    forall c | c in s.ops ensures c in StepTick(s, o).ops && StepTick(s, o).ops[c] == s.ops[c] { TickOp(s, o, c); }
    TickTable(s, o);
  }

  lemma {:induction false} OtherStuck(s: State, s': State, i: nat)
    requires Good(s) && i in s.ticks && i in s'.ticks && s'.ticks[i] == s.ticks[i] && s.ticks[i].stage in {AwaitStart, AwaitTask}
    requires forall c | c in s.ops :: c in s'.ops && s'.ops[c] == s.ops[c]
    ensures Stuck(s', i) <==> Stuck(s, i)
  {
    LastChild(s, i);
  }

  lemma {:induction false} NewChildHolds(s: State, o: nat, i: nat, key: string)
    requires Good(s) && o in s.ticks && i !in s.ticks && key in s.table.activeTasks
    requires Holder(StepTick(s, o), i, key)
    ensures Holder(s, i, key)
  {
    TickOp(s, o, i);
    StepIsOwn(s, o);
    if i !in s.ops { TickRejects(s, o, key); }
  }

  lemma {:induction false} SafeOwnStep(s: State, id: nat, key: string)
    requires Good(s) && Safe(s, id, key)
    ensures Safe(StepTick(s, id), id, key)
  {
    var s' := StepTick(s, id);
    if s.ticks[id].stage in {AwaitStart, AwaitTask} { LastChild(s, id); }
    if InLoop(s.ticks[id]) && ToRecord(s, id) {
      forall i | i != id ensures !Holder(s', i, key) {
        if Holder(s', i, key) { StepHolds(s, id, i, key); }
      }
    }
  }

  /** Only a holder's step takes the entry away. */
  lemma {:induction false} OtherStepEntry(s: State, o: nat, key: string)
    requires Good(s) && o in s.ticks && key in s.table.activeTasks && !Holder(s, o, key)
    ensures key in StepTick(s, o).table.activeTasks
  {
    if s.ticks[o].key == key {
      if Stuck(s, o) { assert StepTick(s, o) == s; }
    } else {
      TickEntry(s, o, key);
    }
  }

  lemma {:induction false} OtherToRecord(s: State, o: nat, id: nat)
    requires Good(s) && o in s.ticks && id in s.ticks && o != id && InLoop(s.ticks[id])
    ensures id in StepTick(s, o).ticks && StepTick(s, o).ticks[id] == s.ticks[id]
    ensures ToRecord(StepTick(s, o), id) <==> ToRecord(s, id)
  {
    StepKeepsOthers(s, o);
    if s.ticks[id].stage in {AwaitStart, AwaitTask} { OtherStuck(s, StepTick(s, o), id); }
  }

  lemma {:induction false} SafeOtherStep(s: State, o: nat, id: nat, key: string)
    requires Good(s) && Safe(s, id, key) && o in s.ticks && o != id
    ensures Safe(StepTick(s, o), id, key)
  {
    var s' := StepTick(s, o);
    if InLoop(s.ticks[id]) {
      OtherToRecord(s, o, id);
      if ToRecord(s, id) {
        assert !Holder(s, o, key);
        OtherStepEntry(s, o, key);
        forall i | i != id ensures !Holder(s', i, key) {
          if Holder(s', i, key) { StepHolds(s, o, i, key); }
        }
      }
    } else {
      TickOther(s, o, id);
    }
  }

  lemma {:induction false} SafeStep(s: State, e: Event, id: nat, key: string)
    requires Good(s) && Safe(s, id, key) && NotNewHolder(e, key)
    ensures Safe(Apply(s, e), id, key)
  {
    match e
    case Advance(o) => if o in s.ops { SafeMove(s, o, NextStage(s.ops[o].kind, s.ops[o].stage), id, key); }
    case Fail(o) => if o in s.ops { SafeMove(s, o, FailedStage(s.ops[o].stage), id, key); }
    case TickStep(o) =>
      if o == id { SafeOwnStep(s, id, key); } else if o in s.ticks { SafeOtherStep(s, o, id, key); }
    case _ => SafeElse(s, e, id, key);
  }

  /** From `s` to `s'` nobody entered, left or moved in a loop, no operation moved,
      no entry changed and nobody set out to end `key`. */
  ghost predicate Steady(s: State, s': State, key: string) {
    && s'.table.activeTasks == s.table.activeTasks && s.table.aborted <= s'.table.aborted
    && (forall i | i in s.ops :: i in s'.ops && s'.ops[i] == s.ops[i])
    && (forall i | i in s.ticks && (InLoop(s.ticks[i]) || s.ticks[i].stage == Finished) :: i in s'.ticks && s'.ticks[i] == s.ticks[i])
    && (forall i | OpHolds(s', i, key) :: OpHolds(s, i, key))
    && (forall i | i in s'.ticks && s'.ticks[i].key == key && Open(s'.ticks[i]) ::
          i in s.ticks && s.ticks[i].key == key && Open(s.ticks[i]) && (InLoop(s'.ticks[i]) ==> InLoop(s.ticks[i])))
  }

  lemma {:induction false} NewOpSteady(s: State, s': State, op: Op, key: string)
    requires Good(s) && (op.key == key ==> op.stage == Rejected)
    requires s'.table == s.table && s'.ticks == s.ticks && s'.ops == s.ops[s.next := op]
    ensures Steady(s, s', key)
  {
  }

  lemma {:induction false} NewStageSteady(s: State, s': State, id: nat, t: Tick, key: string)
    requires Good(s) && (id in s.ticks ==> !InLoop(s.ticks[id]) && s.ticks[id].stage != Finished)
    requires !InLoop(t) && (t.key == key && Open(t) ==> id in s.ticks && s.ticks[id].key == key && Open(s.ticks[id]))
    requires s'.table == s.table && s'.ops == s.ops && s'.ticks == s.ticks[id := t]
    ensures Steady(s, s', key)
  {
  }

  lemma {:induction false} BeginSteady(s: State, kind: Kind, k: string, key: string)
    requires Good(s) && key in s.table.activeTasks && (k == key ==> Guarded(kind))
    ensures Steady(s, Apply(s, Begin(kind, k)), key)
  {
    NewOpSteady(s, Apply(s, Begin(kind, k)), NewOp(s.table, kind, k, None, 0), key);
  }

  lemma {:induction false} OnTickSteady(s: State, k: string, hasLock: bool, key: string)
    requires Good(s) && k != key
    ensures Steady(s, Apply(s, OnTick(k, hasLock)), key)
  {
    if hasLock { NewStageSteady(s, Apply(s, OnTick(k, hasLock)), s.next, Tick(k, Reading, [], [], []), key); }
  }

  lemma {:induction false} RestageSteady(s: State, e: Event, key: string)
    requires Good(s) && (e.TickRead? || e.TickFail?)
    ensures Steady(s, Apply(s, e), key)
  {
    var s' := Apply(s, e);
    if s' != s { NewStageSteady(s, s', e.id, s'.ticks[e.id], key); }
  }

  lemma {:induction false} ElseSteady(s: State, e: Event, key: string)
    requires Good(s) && NotNewHolder(e, key) && key in s.table.activeTasks
    requires !e.Advance? && !e.Fail? && !e.TickStep?
    ensures Steady(s, Apply(s, e), key)
  {
    match e
    case Begin(kind, k) => BeginSteady(s, kind, k, key);
    case OnTick(k, hasLock) => OnTickSteady(s, k, hasLock, key);
    case TickRead(_, _) => RestageSteady(s, e, key);
    case TickFail(_) => RestageSteady(s, e, key);
    case CancelKey(k) => CancelSteady(s, k, key);
  }

  lemma {:induction false} CancelSteady(s: State, k: string, key: string)
    ensures Steady(s, Apply(s, CancelKey(k)), key)
  {
  }

  lemma {:induction false} SteadyStuck(s: State, s': State, i: nat, key: string)
    requires Good(s) && Steady(s, s', key) && i in s.ticks && InLoop(s.ticks[i])
    ensures Stuck(s', i) <==> Stuck(s, i)
  {
    if s.ticks[i].stage in {AwaitStart, AwaitTask} { OtherStuck(s, s', i); }
  }

  lemma {:induction false} SafeSteady(s: State, s': State, id: nat, key: string)
    requires Good(s) && Safe(s, id, key) && Steady(s, s', key)
    ensures Safe(s', id, key)
  {
    if InLoop(s.ticks[id]) {
      SteadyStuck(s, s', id, key);
      if ToRecord(s, id) {
        forall i | i != id ensures !Holder(s', i, key) {
          assert !Holder(s, i, key);
          if i in s.ticks && InLoop(s.ticks[i]) { SteadyStuck(s, s', i, key); }
        }
      }
    }
  }

  /** A run with nothing to record does not depend on the entry. */
  lemma {:induction false} SafeElse(s: State, e: Event, id: nat, key: string)
    requires Good(s) && Safe(s, id, key) && NotNewHolder(e, key)
    requires !e.Advance? && !e.Fail? && !e.TickStep?
    ensures Safe(Apply(s, e), id, key)
  {
    if InLoop(s.ticks[id]) && ToRecord(s, id) {
      ElseSteady(s, e, key);
      SafeSteady(s, Apply(s, e), id, key);
    } else {
      IdleElse(s, e, id);
    }
  }

  lemma {:induction false} IdleElse(s: State, e: Event, id: nat)
    requires Good(s) && id in s.ticks && !ToRecord(s, id) && (InLoop(s.ticks[id]) || s.ticks[id].stage == Finished)
    requires !e.Advance? && !e.Fail? && !e.TickStep?
    ensures id in Apply(s, e).ticks && Apply(s, e).ticks[id] == s.ticks[id] && !ToRecord(Apply(s, e), id)
  {
    InLoopKept(s, e, id);
    if s.ticks[id].stage in {AwaitStart, AwaitTask} {
      LastChild(s, id);
      OpsKept(s, e, s.ticks[id].children[|s.ticks[id].children| - 1]);
    }
  }

  lemma {:induction false} InLoopKept(s: State, e: Event, id: nat)
    requires id in s.ticks && id < s.next && (InLoop(s.ticks[id]) || s.ticks[id].stage == Finished)
    requires !e.Advance? && !e.Fail? && !e.TickStep?
    ensures id in Apply(s, e).ticks && Apply(s, e).ticks[id] == s.ticks[id]
    ensures s.table.aborted <= Apply(s, e).table.aborted
  {
  }

  lemma {:induction false} SafeRun(s: State, es: seq<Event>, id: nat, key: string)
    requires Good(s) && Safe(s, id, key) && NoNewHolder(es, key)
    ensures Safe(Run(s, es), id, key)
    decreases |es|
  {
    if es != [] {
      assert es[0] in es;
      SafeStep(s, es[0], id, key);
      GoodStep(s, es[0]);
      SafeRun(Apply(s, es[0]), es[1..], id, key);
    }
  }

  // ---- Disputed runs can crash ------------------------------------------------------------

  /** Nothing begins and nothing is cancelled: only what is there goes on. */
  predicate OnlyGoesOn(es: seq<Event>) {
    forall e | e in es :: e.Advance? || e.Fail? || e.TickStep? || e.TickRead?
  }

  /** What is left of an operation's way, with a failure at its end. */
  lemma {:induction false} EndOp(s: State, c: nat) returns (es: seq<Event>)
    requires c in s.ops && s.ops[c].stage in {Preparing, Logging, Announcing, Running}
    ensures OnlyGoesOn(es)
    ensures var s' := Run(s, es);
      && s'.ticks == s.ticks && s'.next == s.next && s'.table.aborted == s.table.aborted
      && s'.ops == s.ops[c := s.ops[c].(stage := Settled(false))]
      && s'.table.activeTasks.Keys == s.table.activeTasks.Keys - {s.ops[c].key}
    decreases match s.ops[c].stage { case Preparing => 3 case Logging => 2 case Announcing => 1 case _ => 0 }
  {
    if s.ops[c].stage == Running {
      es := [Fail(c)];
      RunOne(s, Fail(c));
    } else {
      var s1 := Apply(s, Advance(c));
      var rest := EndOp(s1, c);
      es := [Advance(c)] + rest;
      RunAppend(s, [Advance(c)], rest);
      RunOne(s, Advance(c));
    }
  }

  /** Run `id` has not moved and still has something to record. */
  ghost predicate Still(s: State, s': State, id: nat)
    requires id in s.ticks
  {
    id in s'.ticks && s'.ticks[id] == s.ticks[id] && ToRecord(s', id)
  }

  lemma {:induction false} EndOpStill(s: State, s': State, c: nat, id: nat)
    requires Good(s) && ToRecord(s, id) && c in s.ops
    requires s'.ticks == s.ticks && s'.table.aborted == s.table.aborted
    requires s'.ops == s.ops[c := s.ops[c].(stage := Settled(false))]
    ensures Still(s, s', id)
  {
    if s.ticks[id].stage in {AwaitStart, AwaitTask} { LastChild(s, id); }
  }

  /** How far schedule run `o` is from its end. */
  function Distance(s: State, o: nat): int
    requires o in s.ticks
  {
    var t := s.ticks[o];
    var over := Recordable(s, o) && Over(Child(s, o).stage);
    10 * (|t.repositories| - |t.children|) +
      match t.stage
      case Marking => 2
      case AwaitStart => if over then 4 else 5
      case AwaitTask => if over then 2 else 3
      case _ => 0
  }

  /** One step nearer to its `endTask`, or the entry is gone. */
  ghost predicate Nearer(s: State, s': State, o: nat, key: string)
    requires o in s.ticks
  {
    key !in s'.table.activeTasks || (TickHolds(s', o, key) && s'.ticks[o].stage != Reading && 0 <= Distance(s', o) < Distance(s, o))
  }

  lemma {:induction false} ChildrenFit(s: State, o: nat)
    requires Regular(s) && o in s.ticks
    ensures |s.ticks[o].children| <= |s.ticks[o].repositories|
    ensures s.ticks[o].stage == Marking ==> s.ticks[o].children == []
  {
    assert TickShape(s, o);
  }

  /** Run `o` ended, taking the entry along, or awaits one child more. */
  ghost predicate Advanced(s: State, s': State, o: nat)
    requires o in s.ticks
  {
    var t := s.ticks[o];
    && o in s'.ticks
    && if s'.ticks[o].stage == Finished then t.key !in s'.table.activeTasks
       else
         && s'.ticks[o].stage == AwaitStart && s'.ticks[o].key == t.key && s'.ticks[o].repositories == t.repositories
         && s'.ticks[o].children == t.children + [s.next]
         && s.next in s'.ops && s'.ops[s.next].stage in {Preparing, Rejected}
  }

  lemma {:induction false} NextChildGoes(s: State, table: Table, o: nat, t: Tick)
    requires o in s.ticks && t == s.ticks[o].(status := t.status)
    ensures Advanced(s, NextChild(s.(table := table), o, t), o)
  {
  }

  /** Recording goes on to the next child or the end if the entry is there, and
      crashes if not. */
  lemma {:induction false} RecordGoes(s: State, o: nat, ok: bool)
    requires Recordable(s, o)
    ensures s.ticks[o].key in s.table.activeTasks ==> Advanced(s, Record(s, o, ok), o)
    ensures s.ticks[o].key !in s.table.activeTasks ==>
      && o in Record(s, o, ok).ticks && Record(s, o, ok).ticks[o].stage == Crashed
      && Record(s, o, ok).table == s.table
  {
    var t := s.ticks[o];
    var t' := Noted(t, ok);
    match UpdateStatus(s.table, t.key, Items(t'))
    case Ok(table) => NextChildGoes(s, table, o, t');
    case Err(_) =>
  }

  lemma {:induction false} EnterGoes(s: State, o: nat)
    requires o in s.ticks && s.ticks[o].repositories != [] && s.ticks[o].children == []
    ensures Advanced(s, EnterLoop(s, o), o)
  {
    var t := s.ticks[o];
    var t' := t.(status := seq(|t.repositories|, _ => Incomplete), children := []);
    var started := Start(s.table, t.key, TaskType.Schedule, None, o, None);
    var updated := UpdateStatus(started, t.key, Items(t'));
    NextChildGoes(s, if updated.Ok? then updated.value else started, o, t');
  }

  /** The step of a run whose child is over. */
  lemma {:induction false} OverStep(s: State, o: nat)
    requires Good(s) && o in s.ticks && s.ticks[o].stage in {AwaitStart, AwaitTask}
    requires Recordable(s, o) && Over(Child(s, o).stage)
    ensures StepTick(s, o) ==
      if s.ticks[o].stage == AwaitStart && Child(s, o).stage.Settled?
      then s.(ticks := s.ticks[o := s.ticks[o].(stage := AwaitTask)])
      else Record(s, o, Child(s, o).stage == Settled(true))
  {
  }

  lemma {:induction false} NearerAdvanced(s: State, s': State, o: nat, key: string)
    requires Good(s) && Good(s') && TickHolds(s, o, key) && s.ticks[o].stage != Reading && Advanced(s, s', o)
    ensures Nearer(s, s', o, key)
  {
    ChildrenFit(s', o);
    if s'.ticks[o].stage == AwaitStart { LastChild(s', o); }
  }

  lemma {:induction false} TickIsStep(s: State, o: nat)
    requires o in s.ticks
    ensures Apply(s, TickStep(o)) == StepTick(s, o)
  {
  }

  lemma {:induction false} GoodTick(s: State, o: nat)
    requires Good(s) && o in s.ticks
    ensures Good(StepTick(s, o))
  {
    TickIsStep(s, o);
    GoodStep(s, TickStep(o));
  }

  lemma {:induction false} NearerAtTask(s: State, s': State, o: nat, key: string)
    requires Good(s) && TickHolds(s, o, key) && s.ticks[o].stage == AwaitStart && Recordable(s, o) && Over(Child(s, o).stage)
    requires s' == s.(ticks := s.ticks[o := s.ticks[o].(stage := AwaitTask)])
    ensures Nearer(s, s', o, key)
  {
    ChildrenFit(s, o);
  }

  lemma {:induction false} NearerByRecord(s: State, o: nat, key: string)
    requires Good(s) && TickHolds(s, o, key) && s.ticks[o].stage in {AwaitStart, AwaitTask}
    requires Recordable(s, o) && Over(Child(s, o).stage)
    ensures Nearer(s, StepTick(s, o), o, key)
  {
    OverStep(s, o);
    GoodTick(s, o);
    if s.ticks[o].stage == AwaitStart && Child(s, o).stage.Settled? {
      NearerAtTask(s, StepTick(s, o), o, key);
    } else {
      RecordGoes(s, o, Child(s, o).stage == Settled(true));
      if key in s.table.activeTasks { NearerAdvanced(s, StepTick(s, o), o, key); }
    }
  }

  lemma {:induction false} NearerByEnter(s: State, o: nat, key: string)
    requires Good(s) && TickHolds(s, o, key) && s.ticks[o].stage == Marking
    ensures Nearer(s, StepTick(s, o), o, key)
  {
    ChildrenFit(s, o);
    EnterGoes(s, o);
    GoodTick(s, o);
    NearerAdvanced(s, StepTick(s, o), o, key);
  }

  lemma {:induction false} NearerByEnd(s: State, s': State, o: nat, c: nat, key: string)
    requires Good(s) && TickHolds(s, o, key) && s.ticks[o].stage in {AwaitStart, AwaitTask}
    requires Recordable(s, o) && c == s.ticks[o].children[|s.ticks[o].children| - 1] && !Over(s.ops[c].stage)
    requires s'.ticks == s.ticks && s'.ops == s.ops[c := s.ops[c].(stage := Settled(false))]
    ensures Nearer(s, s', o, key)
  {
    ChildrenFit(s, o);
  }

  lemma {:induction false} Approach(s: State, o: nat, id: nat, key: string) returns (es: seq<Event>)
    requires Good(s) && o != id && ToRecord(s, id) && TickHolds(s, o, key) && s.ticks[o].stage != Reading
    ensures OnlyGoesOn(es) && Still(s, Run(s, es), id) && Nearer(s, Run(s, es), o, key)
  {
    es := [TickStep(o)];
    RunOne(s, TickStep(o));
    OtherToRecord(s, o, id);
    if s.ticks[o].stage in {AwaitStart, AwaitTask} {
      LastChild(s, o);
      var c := s.ticks[o].children[|s.ticks[o].children| - 1];
      if Over(s.ops[c].stage) {
        NearerByRecord(s, o, key);
      } else {
        es := EndOp(s, c);
        EndOpStill(s, Run(s, es), c, id);
        NearerByEnd(s, Run(s, es), o, c, key);
      }
    } else {
      NearerByEnter(s, o, key);
    }
  }

  /** A schedule run in its loop takes the entry away if it goes on. */
  lemma {:induction false} ClearTick(s: State, o: nat, id: nat, key: string) returns (es: seq<Event>)
    requires Good(s) && o != id && ToRecord(s, id) && TickHolds(s, o, key) && s.ticks[o].stage != Reading
    requires 0 <= Distance(s, o)
    ensures OnlyGoesOn(es) && Still(s, Run(s, es), id) && key !in Run(s, es).table.activeTasks
    decreases Distance(s, o)
  {
    es := Approach(s, o, id, key);
    var s1 := Run(s, es);
    GoodRun(s, es);
    if key in s1.table.activeTasks {
      var rest := ClearTick(s1, o, id, key);
      RunAppend(s, es, rest);
      es := es + rest;
    }
  }

  lemma {:induction false} ReadTick(s: State, o: nat, id: nat, key: string)
    requires Good(s) && o != id && ToRecord(s, id) && TickHolds(s, o, key) && s.ticks[o].stage == Reading
    ensures var s1 := Apply(s, TickRead(o, [key]));
      && Still(s, s1, id) && TickHolds(s1, o, key) && s1.ticks[o].stage == Marking && 0 <= Distance(s1, o)
  {
    assert TickShape(s, o);
    if s.ticks[id].stage in {AwaitStart, AwaitTask} { LastChild(s, id); }
  }

  /** Whoever is on the way to an `endTask(key)` can take the entry away while run
      `id` waits. */
  lemma {:induction false} Clear(s: State, o: nat, id: nat, key: string) returns (es: seq<Event>)
    requires Good(s) && o != id && ToRecord(s, id) && Holder(s, o, key)
    ensures OnlyGoesOn(es) && Still(s, Run(s, es), id) && key !in Run(s, es).table.activeTasks
  {
    if OpHolds(s, o, key) {
      es := EndOp(s, o);
      EndOpStill(s, Run(s, es), o, id);
    } else if s.ticks[o].stage == Reading {
      var e := TickRead(o, [key]);
      ReadTick(s, o, id, key);
      GoodStep(s, e);
      var rest := ClearTick(Apply(s, e), o, id, key);
      RunAppend(s, [e], rest);
      RunOne(s, e);
      es := [e] + rest;
    } else {
      ChildrenFit(s, o);
      es := ClearTick(s, o, id, key);
    }
  }

  /** Without its entry a run crashes as soon as its child is over. */
  lemma {:induction false} CrashStep(s: State, id: nat)
    requires Good(s) && id in s.ticks && s.ticks[id].stage in {AwaitStart, AwaitTask}
    requires Recordable(s, id) && Over(Child(s, id).stage) && s.ticks[id].key !in s.table.activeTasks
    requires !(s.ticks[id].stage == AwaitStart && Child(s, id).stage.Settled?)
    ensures id in StepTick(s, id).ticks && StepTick(s, id).ticks[id].stage == Crashed
  {
    OverStep(s, id);
    RecordGoes(s, id, Child(s, id).stage == Settled(true));
  }

  lemma {:induction false} RecordCrashes(s: State, id: nat) returns (es: seq<Event>)
    requires Good(s) && id in s.ticks && s.ticks[id].stage in {AwaitStart, AwaitTask}
    requires Recordable(s, id) && Over(Child(s, id).stage) && s.ticks[id].key !in s.table.activeTasks
    ensures OnlyGoesOn(es) && id in Run(s, es).ticks && Run(s, es).ticks[id].stage == Crashed
  {
    var e := TickStep(id);
    RunOne(s, e);
    if s.ticks[id].stage == AwaitStart && Child(s, id).stage.Settled? {
      OverStep(s, id);
      GoodStep(s, e);
      var s1 := Apply(s, e);
      CrashStep(s1, id);
      RunAppend(s, [e], [e]);
      RunOne(s1, e);
      es := [e] + [e];
    } else {
      CrashStep(s, id);
      es := [e];
    }
  }

  lemma {:induction false} AwaitCrashes(s: State, id: nat) returns (es: seq<Event>)
    requires Good(s) && ToRecord(s, id) && s.ticks[id].stage in {AwaitStart, AwaitTask}
    requires s.ticks[id].key !in s.table.activeTasks
    ensures OnlyGoesOn(es) && id in Run(s, es).ticks && Run(s, es).ticks[id].stage == Crashed
  {
    LastChild(s, id);
    if Over(Child(s, id).stage) {
      es := RecordCrashes(s, id);
    } else {
      es := EndOp(s, s.ticks[id].children[|s.ticks[id].children| - 1]);
      GoodRun(s, es);
      var rest := RecordCrashes(Run(s, es), id);
      RunAppend(s, es, rest);
      es := es + rest;
    }
  }

  /** A run whose entry is gone, another's or in reach of another can crash. */
  lemma {:induction false} DisputedCrashes(s: State, id: nat, key: string) returns (es: seq<Event>)
    requires Good(s) && ToRecord(s, id) && s.ticks[id].key == key && !Undisputed(s, id, key)
    ensures OnlyGoesOn(es) && id in Run(s, es).ticks && Run(s, es).ticks[id].stage == Crashed
  {
    if key !in s.table.activeTasks {
      es := AwaitCrashes(s, id);
    } else {
      var o :| o != id && Holder(s, o, key);
      es := Clear(s, o, id, key);
      GoodRun(s, es);
      var rest := AwaitCrashes(Run(s, es), id);
      RunAppend(s, es, rest);
      es := es + rest;
    }
  }

  // ---- Exactly when ---------------------------------------------------------------------------

  /** Whatever goes on, as long as no restore and no schedule run under its key
      begins, run `id` does not crash. */
  ghost predicate NeverCrashes(s: State, id: nat, key: string) {
    forall es | NoNewHolder(es, key) :: id in Run(s, es).ticks && Run(s, es).ticks[id].stage != Crashed
  }

  /** In every state a run from nothing reaches: a schedule run in its loop reaches
      its `endTask` without a crash, whatever goes on, if and only if it has nothing
      to record any more (it awaits a child whose promise never settles) or its entry is there and nobody else
      under its key is on the way to an `endTask`. */
  lemma {:induction false} NeverCrashesIff(past: seq<Event>, id: nat)
    requires id in Run(EMPTY, past).ticks && InLoop(Run(EMPTY, past).ticks[id])
    ensures var s := Run(EMPTY, past);
      NeverCrashes(s, id, s.ticks[id].key) <==> (ToRecord(s, id) ==> Undisputed(s, id, s.ticks[id].key))
  {
    GoodRun(EMPTY, past);
    var s := Run(EMPTY, past);
    var key := s.ticks[id].key;
    if ToRecord(s, id) && !Undisputed(s, id, key) {
      var es := DisputedCrashes(s, id, key);
      assert NoNewHolder(es, key);
    } else {
      forall es | NoNewHolder(es, key) ensures id in Run(s, es).ticks && Run(s, es).ticks[id].stage != Crashed {
        SafeRun(s, es, id, key);
      }
    }
  }

  /** Two ticks of a schedule that both enter the loop; each starts its first child. */
  function TwoTicks(key: string, repositories: seq<string>): seq<Event> {
    [OnTick(key, true), TickRead(0, repositories), TickStep(0), OnTick(key, true), TickRead(2, repositories), TickStep(2)]
  }

  lemma {:induction false} TwoTicksOverlap(key: string, repositories: seq<string>)
    requires repositories != []
    ensures var s := Run(EMPTY, TwoTicks(key, repositories));
      ToRecord(s, 0) && s.ticks[0].key == key && TickHolds(s, 2, key)
  {
    var e := TwoTicks(key, repositories);
    RunFrom(EMPTY, e, 0);
    var s1 := Apply(EMPTY, e[0]); RunFrom(s1, e, 1);
    var s2 := Apply(s1, e[1]); RunFrom(s2, e, 2);
    var s3 := Apply(s2, e[2]); RunFrom(s3, e, 3);
    var s4 := Apply(s3, e[3]); RunFrom(s4, e, 4);
    var s5 := Apply(s4, e[4]); RunFrom(s5, e, 5);
    OneTick(EMPTY, key, repositories);
    OneTick(s3, key, repositories);
    assert s3.ticks[0].children == [1];
  }

  /** A tick that enters the loop and starts its first child. */
  lemma {:induction false} OneTick(s: State, key: string, repositories: seq<string>)
    requires repositories != [] && s.next !in s.table.aborted
    ensures var s', n := Apply(Apply(Apply(s, OnTick(key, true)), TickRead(s.next, repositories)), TickStep(s.next)), s.next;
      && s'.next == n + 2 && s'.table.aborted == s.table.aborted && n + 1 in s'.ops
      && s'.ops == s.ops[n + 1 := s'.ops[n + 1]] && s'.ops[n + 1].stage in {Preparing, Rejected}
      && s'.ticks == s.ticks[n := Tick(key, AwaitStart, repositories, seq(|repositories|, _ => Incomplete), [n + 1])]
  {
    var s2 := Apply(Apply(s, OnTick(key, true)), TickRead(s.next, repositories));
    assert s2 == s.(ticks := s.ticks[s.next := Tick(key, Marking, repositories, [], [])], next := s.next + 1);
    TickIsStep(s2, s.next);
    FirstChild(s2, s.next);
  }

  /** Entering the loop unaborted starts the first child. */
  lemma {:induction false} FirstChild(s: State, id: nat)
    requires id in s.ticks && s.ticks[id].stage == Marking && s.ticks[id].repositories != [] && s.ticks[id].children == []
    requires id !in s.table.aborted
    ensures var s', t := StepTick(s, id), s.ticks[id];
      && s'.next == s.next + 1 && s'.table.aborted == s.table.aborted && s.next in s'.ops
      && s'.ops == s.ops[s.next := s'.ops[s.next]] && s'.ops[s.next].stage in {Preparing, Rejected}
      && s'.ticks == s.ticks[id := t.(stage := AwaitStart, status := seq(|t.repositories|, _ => Incomplete), children := [s.next])]
  {
    assert [] + [s.next] == [s.next];
  }

  /** The crash is reachable from nothing, for every schedule with a repository: two
      overlapping ticks suffice. */
  lemma {:induction false} CrashIsReachable(key: string, repositories: seq<string>)
    requires repositories != []
    ensures exists es :: 0 in Run(EMPTY, es).ticks && Run(EMPTY, es).ticks[0].stage == Crashed && Run(EMPTY, es).ticks[0].key == key
  {
    var past := TwoTicks(key, repositories);
    TwoTicksOverlap(key, repositories);
    GoodRun(EMPTY, past);
    var s := Run(EMPTY, past);
    assert Holder(s, 2, key);
    var es := DisputedCrashes(s, 0, key);
    RunAppend(EMPTY, past, es);
    KeyKept(s, es, 0);
    assert Run(EMPTY, past + es).ticks[0].stage == Crashed;
  }

  lemma {:induction false} KeyKept(s: State, es: seq<Event>, id: nat)
    requires id in s.ticks && id < s.next
    ensures id in Run(s, es).ticks && Run(s, es).ticks[id].key == s.ticks[id].key
    decreases |es|
  {
    if es != [] {
      KeyStep(s, es[0], id);
      KeyKept(Apply(s, es[0]), es[1..], id);
    }
  }

  lemma {:induction false} KeyStep(s: State, e: Event, id: nat)
    requires id in s.ticks && id < s.next
    ensures id in Apply(s, e).ticks && Apply(s, e).ticks[id].key == s.ticks[id].key && s.next <= Apply(s, e).next
  {
    if e.TickStep? && e.id in s.ticks {
      TickIsStep(s, e.id);
      StepIsOwn(s, e.id);
    }
  }

  // ---- A crash needs an overlap ---------------------------------------------------------

  /** While run `id` is in its loop nobody else is live under its key. */
  ghost predicate Undisturbed(s: State, id: nat) {
    id in s.ticks && InLoop(s.ticks[id]) ==> forall o | o != id :: !Live(s, o, s.ticks[id].key)
  }

  ghost predicate UndisturbedRun(s: State, es: seq<Event>, id: nat)
    decreases |es|
  {
    Undisturbed(s, id) && (es == [] || UndisturbedRun(Apply(s, es[0]), es[1..], id))
  }

  /** Run `id` has not crashed, and while it is in the loop the entry is its own. */
  ghost predicate Holds(s: State, id: nat) {
    id in s.ticks ==>
      && s.ticks[id].stage != Crashed
      && (InLoop(s.ticks[id]) ==> s.ticks[id].key in s.table.controllers && s.table.controllers[s.ticks[id].key] == id)
  }

  lemma HoldsStep(s: State, e: Event, id: nat)
    requires Sane(s) && Holds(s, id) && Undisturbed(s, id) && Undisturbed(Apply(s, e), id)
    ensures Holds(Apply(s, e), id)
  {
    match e
    case Advance(o) => if o in s.ops { HoldsMove(s, o, NextStage(s.ops[o].kind, s.ops[o].stage), id); }
    case Fail(o) => if o in s.ops { HoldsMove(s, o, FailedStage(s.ops[o].stage), id); }
    case TickStep(o) =>
      if o == id && id in s.ticks { HoldsOwnStep(s, id); }
      if o != id && o in s.ticks { HoldsOtherStep(s, o, id); }
    case _ =>
  }

  lemma HoldsMove(s: State, o: nat, stage: Stage, id: nat)
    requires Sound(s) && o in s.ops && Holds(s, id) && Undisturbed(s, id) && Undisturbed(Move(s, o, stage), id)
    ensures Holds(Move(s, o, stage), id)
  {
    if id in s.ticks && InLoop(s.ticks[id]) {
      assert !Live(s, o, s.ticks[id].key) && !Live(Move(s, o, stage), o, s.ticks[id].key);
    }
  }

  lemma HoldsOtherStep(s: State, o: nat, id: nat)
    requires Sane(s) && o in s.ticks && o != id && Holds(s, id) && Undisturbed(s, id) && Undisturbed(StepTick(s, o), id)
    ensures Holds(StepTick(s, o), id)
  {
    StepIsOwn(s, o);
    if id in s.ticks && InLoop(s.ticks[id]) {
      var key := s.ticks[id].key;
      if s.ticks[o].key == key {
        assert !Live(s, o, key) && !Live(StepTick(s, o), o, key);
        NotLiveStep(s, o);
      } else {
        OtherEntry(s, StepTick(s, o), o, key);
      }
    }
  }

  lemma {:induction false} OtherEntry(s: State, s': State, o: nat, key: string)
    requires o in s.ticks && OwnStep(s, s', o) && s.ticks[o].key != key && key in s.table.controllers
    ensures key in s'.table.controllers && s'.table.controllers[key] == s.table.controllers[key]
  {
    assert key in s'.table.controllers - {s.ticks[o].key};
  }

  /** A step that neither leaves nor enters the loop leaves the table alone. */
  lemma {:induction false} NotLiveStep(s: State, o: nat)
    requires Sane(s) && o in s.ticks && !InLoop(s.ticks[o]) && !InLoop(StepTick(s, o).ticks[o])
    ensures StepTick(s, o).table == s.table
  {
  }

  lemma HoldsOwnStep(s: State, id: nat)
    requires Sound(s) && id in s.ticks && Holds(s, id)
    ensures Holds(StepTick(s, id), id)
  {
  }

  lemma {:induction false} UndisturbedNeverCrashes(s: State, es: seq<Event>, id: nat)
    requires Sane(s) && Holds(s, id) && UndisturbedRun(s, es, id)
    ensures Holds(Run(s, es), id)
    decreases |es|
  {
    if es != [] {
      HoldsStep(s, es[0], id);
      SoundStep(s, es[0]);
      LinkageStep(s, es[0]);
      UndisturbedNeverCrashes(Apply(s, es[0]), es[1..], id);
    }
  }

  lemma {:induction false} UndisturbedPrefixes(s: State, es: seq<Event>, id: nat)
    requires forall n | 0 <= n <= |es| :: Undisturbed(Run(s, es[..n]), id)
    ensures UndisturbedRun(s, es, id)
    decreases |es|
  {
    assert Run(s, es[..0]) == s;
    if es != [] {
      forall n | 0 <= n <= |es[1..]| ensures Undisturbed(Run(Apply(s, es[0]), es[1..][..n]), id) {
        assert es[..n + 1][0] == es[0] && es[..n + 1][1..] == es[1..][..n];
        assert Undisturbed(Run(s, es[..n + 1]), id);
      }
      UndisturbedPrefixes(Apply(s, es[0]), es[1..], id);
    }
  }

  /** Run `id` is in its loop while `o` is live under its key. */
  predicate Overlap(s: State, id: nat, o: nat) {
    o != id && id in s.ticks && InLoop(s.ticks[id]) && Live(s, o, s.ticks[id].key)
  }

  /** In every run from nothing: a schedule run crashes only if, at some moment of
      its loop, another operation was live under its key. */
  lemma {:induction false} CrashNeedsOverlap(es: seq<Event>, id: nat)
    requires id in Run(EMPTY, es).ticks && Run(EMPTY, es).ticks[id].stage == Crashed
    ensures exists n, o :: 0 <= n <= |es| && Overlap(Run(EMPTY, es[..n]), id, o)
  {
    if forall n | 0 <= n <= |es| :: Undisturbed(Run(EMPTY, es[..n]), id) {
      UndisturbedPrefixes(EMPTY, es, id);
      UndisturbedNeverCrashes(EMPTY, es, id);
      assert false;
    } else {
      var n :| 0 <= n <= |es| && !Undisturbed(Run(EMPTY, es[..n]), id);
      var o :| o != id && Live(Run(EMPTY, es[..n]), o, Run(EMPTY, es[..n]).ticks[id].key);
      assert Overlap(Run(EMPTY, es[..n]), id, o);
    }
  }
}
