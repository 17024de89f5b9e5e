/** One schedule run and the backups it starts, over every interleaving. */
module ScheduleRuns {
  import opened Prelude
  import opened RunningTasks
  import opened TaskLifecycle

  predicate Over(stage: Stage) {
    stage.Settled? || stage == Rejected
  }

  /** How many slots have an outcome written by the loop body. */
  function Done(t: Tick): nat {
    if t.stage in {AwaitStart, AwaitTask, Crashed} && t.children != [] then |t.children| - 1 else |t.children|
  }

  /** The child in `slot`, its outcome written: Complete exactly when the backup's
      task resolved, Failed otherwise. */
  ghost predicate Recorded(s: State, t: Tick, slot: nat) {
    && slot < |t.children| && slot < |t.status|
    && t.children[slot] in s.ops
    && Over(s.ops[t.children[slot]].stage)
    && t.status[slot] == (if s.ops[t.children[slot]].stage == Settled(true) then Complete else Failed)
  }

  ghost predicate IsChild(s: State, id: nat, slot: nat) {
    && id in s.ticks && slot < |s.ticks[id].children| <= |s.ticks[id].repositories|
    && s.ticks[id].children[slot] in s.ops
    && s.ops[s.ticks[id].children[slot]] ==
         Op(BackupOp, s.ticks[id].repositories[slot], s.ops[s.ticks[id].children[slot]].stage, Some(id), slot)
  }

  predicate Started(t: Tick) {
    t.stage in {AwaitStart, AwaitTask, Finished, Crashed}
  }

  /** Children fill the slots from the left; a settled prefix is followed by
      Incomplete; a run that finished early was cancelled. */
  ghost predicate TickShape(s: State, id: nat)
    requires id in s.ticks
  {
    var t := s.ticks[id];
    && (!Started(t) ==> t.children == [] && t.status == [])
    && (Started(t) ==> |t.status| == |t.repositories| && |t.children| <= |t.repositories|)
    && (t.stage in {AwaitStart, AwaitTask, Crashed} ==> t.children != [])
    && (forall slot | 0 <= slot < |t.children| :: IsChild(s, id, slot))
    && (forall slot | 0 <= slot < Done(t) :: Recorded(s, t, slot))
    && (forall slot | Done(t) <= slot < |t.status| && !(t.stage == Crashed && slot == Done(t)) :: t.status[slot] == Incomplete)
    && (t.stage == Finished ==> |t.children| == |t.repositories| || id in s.table.aborted)
  }

  ghost predicate Children(s: State, id: nat) {
    id in s.ops && s.ops[id].tick.Some? ==>
      var t := s.ops[id].tick.value;
      t in s.ticks && s.ops[id].slot < |s.ticks[t].children| && s.ticks[t].children[s.ops[id].slot] == id
  }

  ghost predicate Regular(s: State) {
    && (forall id | id in s.ops || id in s.ticks :: id < s.next)
    && (forall id | id in s.ticks :: TickShape(s, id))
    && (forall id | id in s.ops :: Children(s, id))
  }

  /** An operation that is over never changes again. */
  lemma OverIsFinal(s: State, e: Event, id: nat)
    requires id in s.ops && id < s.next
    requires forall i | i in s.ticks :: i < s.next
    ensures id in Apply(s, e).ops
    ensures var op, op' := s.ops[id], Apply(s, e).ops[id];
      op' == op.(stage := op'.stage) && (Over(op.stage) ==> op' == op)
  {
  }

  lemma MoveRegular(s: State, id: nat, stage: Stage)
    requires Regular(s) && id in s.ops
    requires Over(s.ops[id].stage) ==> stage == s.ops[id].stage
    ensures Regular(Move(s, id, stage))
  {
    var s' := Move(s, id, stage);
    forall i | i in s'.ticks ensures TickShape(s', i) {
      assert TickShape(s, i);
      forall slot | 0 <= slot < |s.ticks[i].children| ensures IsChild(s', i, slot) { assert IsChild(s, i, slot); }
      forall slot | 0 <= slot < Done(s.ticks[i]) ensures Recorded(s', s'.ticks[i], slot) {
        assert Recorded(s, s.ticks[i], slot);
      }
    }
    forall i | i in s'.ops ensures Children(s', i) { assert Children(s, i); }
  }

  /** Schedule run `id` moves and operations at most gain the child `s.next`. */
  lemma TickRegularIf(s: State, s': State, id: nat)
    requires Regular(s) && id in s.ticks && id in s'.ticks
    requires s'.ticks == s.ticks[id := s'.ticks[id]]
    requires forall i | i in s.ops :: i in s'.ops && s'.ops[i] == s.ops[i]
    requires s'.ops.Keys <= s.ops.Keys + {s.next} && s.next <= s'.next
    requires s.next in s'.ops ==> s.next < s'.next && Children(s', s.next)
    requires s.table.aborted <= s'.table.aborted
    requires TickShape(s', id)
    requires s.ticks[id].children <= s'.ticks[id].children
    ensures Regular(s')
  {
    forall i | i in s'.ticks && i != id ensures TickShape(s', i) {
      assert TickShape(s, i);
      forall slot | 0 <= slot < |s.ticks[i].children| ensures IsChild(s', i, slot) { assert IsChild(s, i, slot); }
      forall slot | 0 <= slot < Done(s.ticks[i]) ensures Recorded(s', s'.ticks[i], slot) {
        assert Recorded(s, s.ticks[i], slot);
      }
    }
    forall i | i in s'.ops ensures Children(s', i) {
      if i in s.ops { assert Children(s, i); }
    }
  }

  lemma SlotsKept(s: State, s': State, id: nat)
    requires id in s.ticks && id in s'.ticks && TickShape(s, id)
    requires forall i | i in s.ops :: i in s'.ops && s'.ops[i] == s.ops[i]
    requires s'.ticks[id].repositories == s.ticks[id].repositories
    requires s.ticks[id].children <= s'.ticks[id].children && |s'.ticks[id].children| <= |s.ticks[id].repositories|
    ensures forall slot | 0 <= slot < |s.ticks[id].children| :: IsChild(s', id, slot)
    ensures forall slot | 0 <= slot < Done(s.ticks[id]) && slot < |s'.ticks[id].status| &&
              s'.ticks[id].status[slot] == s.ticks[id].status[slot] :: Recorded(s', s'.ticks[id], slot)
  {
    forall slot | 0 <= slot < |s.ticks[id].children| ensures IsChild(s', id, slot) { assert IsChild(s, id, slot); }
    forall slot | 0 <= slot < Done(s.ticks[id]) && slot < |s'.ticks[id].status| && s'.ticks[id].status[slot] == s.ticks[id].status[slot]
      ensures Recorded(s', s'.ticks[id], slot)
    {
      assert Recorded(s, s.ticks[id], slot);
    }
  }

  /** Run `id`, its status `t` up to date, is ready for the head of the loop: what
      it has started is recorded, the rest is Incomplete. */
  ghost predicate Ready(s: State, id: nat, t: Tick) {
    && id in s.ticks && s.ticks[id].children == t.children && s.ticks[id].repositories == t.repositories
    && |t.status| == |t.repositories| && |t.children| <= |t.repositories|
    && (forall slot | 0 <= slot < |t.children| :: IsChild(s, id, slot) && Recorded(s, t, slot))
    && (forall slot | |t.children| <= slot < |t.status| :: t.status[slot] == Incomplete)
  }

  lemma NextChildShape(s: State, table: Table, id: nat, t: Tick)
    requires Regular(s) && Ready(s, id, t) && s.table.aborted <= table.aborted
    ensures TickShape(NextChild(s.(table := table), id, t), id)
  {
    var s' := NextChild(s.(table := table), id, t);
    forall slot | 0 <= slot < |t.children| ensures IsChild(s', id, slot) && Recorded(s', s'.ticks[id], slot) {
      assert IsChild(s, id, slot) && Recorded(s, t, slot);
    }
  }

  lemma NextChildRegular(s: State, table: Table, id: nat, t: Tick)
    requires Regular(s) && Ready(s, id, t) && s.table.aborted <= table.aborted
    ensures Regular(NextChild(s.(table := table), id, t))
  {
    NextChildShape(s, table, id, t);
    TickRegularIf(s, NextChild(s.(table := table), id, t), id);
  }

  lemma EnterLoopRegular(s: State, id: nat)
    requires Regular(s) && id in s.ticks && s.ticks[id].stage == Marking
    ensures Regular(EnterLoop(s, id))
  {
    assert TickShape(s, id);
    var t := s.ticks[id];
    if t.repositories == [] {
      TickRegularIf(s, EnterLoop(s, id), id);
    } else {
      var t' := t.(status := seq(|t.repositories|, _ => Incomplete), children := []);
      var started := Start(s.table, t.key, TaskType.Schedule, None, id, None);
      var updated := UpdateStatus(started, t.key, Items(t'));
      NextChildRegular(s, if updated.Ok? then updated.value else started, id, t');
    }
  }

  /** The status with the last child's outcome written. */
  lemma RecordReady(s: State, id: nat, ok: bool)
    requires Regular(s) && Recordable(s, id) && s.ticks[id].stage in {AwaitStart, AwaitTask}
    requires var stage := s.ops[s.ticks[id].children[|s.ticks[id].children| - 1]].stage;
      Over(stage) && (ok <==> stage == Settled(true))
    ensures Ready(s, id, Noted(s.ticks[id], ok))
  {
    assert TickShape(s, id);
    var t := s.ticks[id];
    var t' := Noted(t, ok);
    forall slot | 0 <= slot < |t.children| ensures IsChild(s, id, slot) && Recorded(s, t', slot) {
      assert IsChild(s, id, slot);
      if slot < Done(t) { assert Recorded(s, t, slot); }
    }
  }

  lemma NotedRegular(s: State, table: Table, id: nat, ok: bool)
    requires Regular(s) && Recordable(s, id) && s.ticks[id].stage in {AwaitStart, AwaitTask}
    requires var stage := s.ops[s.ticks[id].children[|s.ticks[id].children| - 1]].stage;
      Over(stage) && (ok <==> stage == Settled(true))
    requires s.table.aborted <= table.aborted
    ensures Regular(NextChild(s.(table := table), id, Noted(s.ticks[id], ok)))
  {
    RecordReady(s, id, ok);
    NextChildRegular(s, table, id, Noted(s.ticks[id], ok));
  }

  lemma RecordRegular(s: State, id: nat, ok: bool)
    requires Regular(s) && Recordable(s, id) && s.ticks[id].stage in {AwaitStart, AwaitTask}
    requires var stage := s.ops[s.ticks[id].children[|s.ticks[id].children| - 1]].stage;
      Over(stage) && (ok <==> stage == Settled(true))
    ensures Regular(Record(s, id, ok))
  {
    var t := s.ticks[id];
    match UpdateStatus(s.table, t.key, Items(Noted(t, ok)))
    case Ok(table) => NotedRegular(s, table, id, ok);
    case Err(_) => CrashRegular(s, id);
  }

  lemma CrashRegular(s: State, id: nat)
    requires Regular(s) && Recordable(s, id) && s.ticks[id].stage in {AwaitStart, AwaitTask}
    ensures Regular(s.(ticks := s.ticks[id := Noted(s.ticks[id], false).(stage := Crashed)]))
  {
    var s' := s.(ticks := s.ticks[id := Noted(s.ticks[id], false).(stage := Crashed)]);
    assert TickShape(s, id);
    SlotsKept(s, s', id);
    TickRegularIf(s, s', id);
  }

  lemma RestageRegular(s: State, id: nat, t: Tick)
    requires Regular(s) && id in s.ticks
    requires t == s.ticks[id].(stage := t.stage, repositories := t.repositories)
    requires if Started(s.ticks[id]) then t == s.ticks[id].(stage := AwaitTask) && s.ticks[id].stage == AwaitStart else !Started(t)
    ensures Regular(s.(ticks := s.ticks[id := t]))
  {
    var s' := s.(ticks := s.ticks[id := t]);
    assert TickShape(s, id);
    if Started(t) { SlotsKept(s, s', id); }
    assert TickShape(s', id);
    TickRegularIf(s, s', id);
  }

  lemma AwaitStartRegular(s: State, id: nat)
    requires Regular(s) && id in s.ticks && s.ticks[id].stage == AwaitStart
    ensures Regular(StepTick(s, id))
  {
    var t := s.ticks[id];
    if Recordable(s, id) {
      var stage := s.ops[t.children[|t.children| - 1]].stage;
      if stage == Rejected {
        RecordRegular(s, id, false);
      } else if stage in {Announcing, Running} || stage.Settled? {
        RestageRegular(s, id, t.(stage := AwaitTask));
      }
    }
  }

  lemma AwaitTaskRegular(s: State, id: nat)
    requires Regular(s) && id in s.ticks && s.ticks[id].stage == AwaitTask
    ensures Regular(StepTick(s, id))
  {
    var t := s.ticks[id];
    if Recordable(s, id) {
      var stage := s.ops[t.children[|t.children| - 1]].stage;
      if stage.Settled? { RecordRegular(s, id, stage.ok); }
    }
  }

  lemma StepTickRegular(s: State, id: nat)
    requires Regular(s) && id in s.ticks
    ensures Regular(StepTick(s, id))
  {
    match s.ticks[id].stage {
      case Marking => EnterLoopRegular(s, id);
      case AwaitStart => AwaitStartRegular(s, id);
      case AwaitTask => AwaitTaskRegular(s, id);
      case _ =>
    }
  }

  /** A step that leaves operations and schedule runs alone but may add one. */
  lemma AddRegular(s: State, s': State)
    requires Regular(s)
    requires s'.next == s.next + 1 && s.table.aborted <= s'.table.aborted
    requires || (s'.ticks == s.ticks && s.next in s'.ops && s'.ops == s.ops[s.next := s'.ops[s.next]] && s'.ops[s.next].tick == None)
             || (s'.ops == s.ops && s.next in s'.ticks && s'.ticks == s.ticks[s.next := Tick(s'.ticks[s.next].key, Reading, [], [], [])])
    ensures Regular(s')
  {
    forall i | i in s'.ticks ensures TickShape(s', i) {
      if i in s.ticks {
        assert TickShape(s, i);
        SlotsKept(s, s', i);
      }
    }
    forall i | i in s'.ops ensures Children(s', i) { if i in s.ops { assert Children(s, i); } }
  }

  lemma TableRegular(s: State, table: Table)
    requires Regular(s) && s.table.aborted <= table.aborted
    ensures Regular(s.(table := table))
  {
    var s' := s.(table := table);
    forall i | i in s'.ticks ensures TickShape(s', i) {
      assert TickShape(s, i);
      SlotsKept(s, s', i);
    }
    forall i | i in s'.ops ensures Children(s', i) { assert Children(s, i); }
  }

  lemma RegularStep(s: State, e: Event)
    requires Regular(s)
    ensures Regular(Apply(s, e))
  {
    match e
    case Begin(_, _) => AddRegular(s, Apply(s, e));
    case OnTick(_, hasLock) => if hasLock { AddRegular(s, Apply(s, e)); }
    case Advance(id) => if id in s.ops { MoveRegular(s, id, NextStage(s.ops[id].kind, s.ops[id].stage)); }
    case Fail(id) => if id in s.ops { MoveRegular(s, id, FailedStage(s.ops[id].stage)); }
    case TickStep(id) => if id in s.ticks { StepTickRegular(s, id); }
    case TickRead(id, rs) =>
      if id in s.ticks && s.ticks[id].stage == Reading {
        RestageRegular(s, id, s.ticks[id].(stage := Marking, repositories := rs));
      }
    case TickFail(id) =>
      if id in s.ticks && s.ticks[id].stage in {Reading, Marking} {
        RestageRegular(s, id, s.ticks[id].(stage := Skipped));
      }
    case CancelKey(key) => if key in s.table.controllers { TableRegular(s, Apply(s, e).table); }
  }

  lemma {:induction false} RegularRun(s: State, es: seq<Event>)
    requires Regular(s)
    ensures Regular(Run(s, es))
    decreases |es|
  {
    if es != [] {
      RegularStep(s, es[0]);
      RegularRun(Apply(s, es[0]), es[1..]);
    }
  }

  /** Backups started by the same schedule run never overlap: of two children at
      least one is over. */
  lemma ChildrenNeverOverlap(es: seq<Event>, a: nat, b: nat)
    requires var s := Run(EMPTY, es);
      a in s.ops && b in s.ops && a != b && s.ops[a].tick.Some? && s.ops[a].tick == s.ops[b].tick
    ensures var s := Run(EMPTY, es); Over(s.ops[a].stage) || Over(s.ops[b].stage)
  {
    RegularRun(EMPTY, es);
    var s := Run(EMPTY, es);
    var t := s.ops[a].tick.value;
    assert Children(s, a) && Children(s, b) && TickShape(s, t);
    var i, j := s.ops[a].slot, s.ops[b].slot;
    assert i < Done(s.ticks[t]) || j < Done(s.ticks[t]);
    if i < Done(s.ticks[t]) { assert Recorded(s, s.ticks[t], i); } else { assert Recorded(s, s.ticks[t], j); }
  }
}
