/** What the entries of the task table, and so the user interface, show. */
module TaskEntries {
  import opened Prelude
  import opened RunningTasks
  import opened TaskLifecycle
  import opened TaskSafety
  import opened ScheduleRuns

  /** The repositories of a schedule run in order, each with its status. */
  ghost predicate Lists(t: Tick, items: seq<ScheduleItem>) {
    && |items| == |t.repositories| == |t.status|
    && forall i | 0 <= i < |items| :: items[i].repositoryId == t.repositories[i] && items[i].status == t.status[i]
  }

  /** Schedule run `o` is in its loop and `items` is its list. */
  ghost predicate Shows(s: State, o: nat, key: string, items: seq<ScheduleItem>) {
    o in s.ticks && InLoop(s.ticks[o]) && s.ticks[o].key == key && Lists(s.ticks[o], items)
  }

  ghost predicate ShownBySome(s: State, key: string, items: seq<ScheduleItem>) {
    exists o :: Shows(s, o, key, items)
  }

  /** The entry carries its key and the type of its last starter: a prune or forget
      shows as Forget, either restore as Restore. A schedule's entry has a list, and
      a list is that of a run in its loop under the key. */
  ghost predicate Told(s: State, key: string)
    requires key in s.table.activeTasks && key in s.table.controllers
  {
    var task, c := s.table.activeTasks[key], s.table.controllers[key];
    && task.parentId == key
    && (c in s.ops && s.ops[c].kind == BackupOp ==> task.taskType == Backup)
    && (c in s.ops && s.ops[c].kind in {PruneOp, ForgetOp} ==> task.taskType == Forget)
    && (c in s.ops && s.ops[c].kind in {RestoreOp, RestorePointOp} ==> task.taskType == Restore)
    && (c in s.ticks ==> task.taskType == TaskType.Schedule && task.scheduleStatus.Some?)
    && (task.scheduleStatus.Some? ==> ShownBySome(s, key, task.scheduleStatus.value))
  }

  ghost predicate AllTold(s: State) {
    && Sound(s) && Regular(s)
    && forall key | key in s.table.activeTasks :: key in s.table.controllers && Told(s, key)
  }

  /** The same entry, and every schedule run in its loop under the key as before. */
  lemma {:induction false} ToldStill(s: State, s': State, key: string)
    requires Sound(s) && key in s.table.activeTasks && key in s.table.controllers && Told(s, key)
    requires key in s'.table.activeTasks && s'.table.activeTasks[key] == s.table.activeTasks[key]
    requires key in s'.table.controllers && s'.table.controllers[key] == s.table.controllers[key]
    requires forall c | c in s.ops :: c in s'.ops && s'.ops[c].kind == s.ops[c].kind
    requires forall c | c in s'.ops && c !in s.ops :: c >= s.next
    requires forall o | o in s'.ticks && o !in s.ticks :: o >= s.next
    requires forall o | o in s.ticks && InLoop(s.ticks[o]) && s.ticks[o].key == key ::
      o in s'.ticks && s'.ticks[o] == s.ticks[o].(stage := s'.ticks[o].stage) && InLoop(s'.ticks[o])
    ensures Told(s', key)
  {
    var task, c := s.table.activeTasks[key], s.table.controllers[key];
    assert Live(s, c, key);
    if task.scheduleStatus.Some? {
      var o :| Shows(s, o, key, task.scheduleStatus.value);
      assert Shows(s', o, key, task.scheduleStatus.value);
    }
  }

  lemma {:induction false} ToldMove(s: State, id: nat, stage: Stage, key: string)
    requires AllTold(s) && id in s.ops && key in Move(s, id, stage).table.activeTasks
    ensures key in Move(s, id, stage).table.controllers && Told(Move(s, id, stage), key)
  {
    var s' := Move(s, id, stage);
    if key != s.ops[id].key || s'.table == s.table {
      ToldStill(s, s', key);
    }
  }

  // ---- A schedule run's step -----------------------------------------------------------

  /** Entries of other keys stay; an entry of the run's own key is as before, with the
      run in its loop as before, or shows the run's list. */
  ghost predicate OwnEntry(s: State, s': State, id: nat)
    requires id in s.ticks && id in s'.ticks
  {
    var key := s.ticks[id].key;
    && s'.table.activeTasks - {key} == s.table.activeTasks - {key}
    && s'.table.controllers - {key} == s.table.controllers - {key}
    && (key in s'.table.activeTasks ==> (SameEntry(s, s', id) || NewEntry(s, s', id)))
  }

  ghost predicate SameEntry(s: State, s': State, id: nat)
    requires id in s.ticks && id in s'.ticks
  {
    && s'.table == s.table
    && (InLoop(s.ticks[id]) ==> InLoop(s'.ticks[id]) && s'.ticks[id] == s.ticks[id].(stage := s'.ticks[id].stage))
  }

  ghost predicate NewEntry(s: State, s': State, id: nat)
    requires id in s.ticks && id in s'.ticks
  {
    var key := s.ticks[id].key;
    && key in s'.table.activeTasks && key in s'.table.controllers
    && s'.table.activeTasks[key].scheduleStatus.Some?
    && Shows(s', id, key, s'.table.activeTasks[key].scheduleStatus.value)
    && (|| (&& s'.table.controllers == s.table.controllers && key in s.table.activeTasks
            && s'.table.activeTasks[key] == s.table.activeTasks[key].(scheduleStatus := s'.table.activeTasks[key].scheduleStatus))
        || (s'.table.controllers[key] == id && s'.table.activeTasks[key].taskType == TaskType.Schedule && s'.table.activeTasks[key].parentId == key))
  }

  lemma {:induction false} ToldOther(s: State, s': State, id: nat, key: string)
    requires AllTold(s) && id in s.ticks && OwnStep(s, s', id) && OwnEntry(s, s', id)
    requires key != s.ticks[id].key && key in s'.table.activeTasks && key in s'.table.controllers
    ensures Told(s', key)
  {
    var own := s.ticks[id].key;
    assert key in s'.table.activeTasks - {own} && key in s'.table.controllers - {own};
    assert key in s.table.activeTasks - {own} && key in s.table.controllers - {own};
    ToldStill(s, s', key);
  }

  lemma {:induction false} ToldNew(s: State, s': State, id: nat)
    requires AllTold(s) && id in s.ticks && OwnStep(s, s', id) && NewEntry(s, s', id)
    ensures Told(s', s.ticks[id].key)
  {
    var key := s.ticks[id].key;
    assert Shows(s', id, key, s'.table.activeTasks[key].scheduleStatus.value);
    if s'.table.controllers == s.table.controllers { assert Live(s, s.table.controllers[key], key) && Told(s, key); }
  }

  lemma {:induction false} ToldOwn(s: State, s': State, id: nat, key: string)
    requires AllTold(s) && id in s.ticks && OwnStep(s, s', id) && OwnEntry(s, s', id)
    requires key in s'.table.activeTasks && key in s'.table.controllers
    ensures Told(s', key)
  {
    if key != s.ticks[id].key {
      ToldOther(s, s', id, key);
    } else if NewEntry(s, s', id) {
      ToldNew(s, s', id);
    } else {
      ToldStill(s, s', key);
    }
  }

  /** The table with the run's list in its entry. */
  predicate Updated(table: Table, t: Tick)
    requires |t.status| == |t.repositories|
  {
    t.key in table.activeTasks && t.key in table.controllers && table.activeTasks[t.key].scheduleStatus == Some(Items(t))
  }

  lemma {:induction false} NextChildEntry(s: State, table: Table, id: nat, t: Tick)
    requires |t.children| <= |t.repositories| == |t.status| && Updated(table, t)
    ensures var s' := NextChild(s.(table := table), id, t);
      && id in s'.ticks && s'.table == (if s'.ticks[id].stage == Finished then End(table, t.key) else table)
      && (t.key in s'.table.activeTasks ==> s'.table == table && Shows(s', id, t.key, table.activeTasks[t.key].scheduleStatus.value))
  {
  }

  lemma {:induction false} EntryIs(s: State, table: Table, s': State, id: nat)
    requires id in s.ticks && id in s'.ticks
    requires var key := s.ticks[id].key;
      && table.activeTasks - {key} == s.table.activeTasks - {key} && table.controllers - {key} == s.table.controllers - {key}
      && (s'.table == table || s'.table == End(table, key))
      && (key in s'.table.activeTasks ==> s'.table == table && NewEntry(s, s', id))
    ensures OwnEntry(s, s', id)
  {
    var key := s.ticks[id].key;
    assert End(table, key).activeTasks - {key} == table.activeTasks - {key};
    assert End(table, key).controllers - {key} == table.controllers - {key};
  }

  lemma {:induction false} EnterEntry(s: State, id: nat)
    requires id in s.ticks && s.ticks[id].repositories != []
    ensures id in EnterLoop(s, id).ticks && OwnEntry(s, EnterLoop(s, id), id)
  {
    var t := s.ticks[id];
    var t' := t.(status := seq(|t.repositories|, _ => Incomplete), children := []);
    var started := Start(s.table, t.key, TaskType.Schedule, None, id, None);
    var table := UpdateStatus(started, t.key, Items(t')).value;
    NextChildEntry(s, table, id, t');
    EntryIs(s, table, EnterLoop(s, id), id);
  }

  lemma {:induction false} RecordEntry(s: State, id: nat, ok: bool)
    requires Sound(s) && Regular(s) && id in s.ticks && InLoop(s.ticks[id]) && Recordable(s, id)
    ensures id in Record(s, id, ok).ticks && OwnEntry(s, Record(s, id, ok), id)
  {
    var t := Noted(s.ticks[id], ok);
    match UpdateStatus(s.table, t.key, Items(t))
    case Ok(table) =>
      NextChildEntry(s, table, id, t);
      EntryIs(s, table, Record(s, id, ok), id);
    case Err(_) =>
  }

  lemma {:induction false} StartEntry(s: State, id: nat)
    requires Sound(s) && Regular(s) && id in s.ticks && s.ticks[id].stage == AwaitStart
    ensures id in StepTick(s, id).ticks && OwnEntry(s, StepTick(s, id), id)
  {
    if Recordable(s, id) { RecordEntry(s, id, false); }
  }

  lemma {:induction false} TaskEntry(s: State, id: nat)
    requires Sound(s) && Regular(s) && id in s.ticks && s.ticks[id].stage == AwaitTask
    ensures id in StepTick(s, id).ticks && OwnEntry(s, StepTick(s, id), id)
  {
    if Recordable(s, id) {
      RecordEntry(s, id, true);
      RecordEntry(s, id, false);
    }
  }

  lemma {:induction false} StepEntry(s: State, id: nat)
    requires Sound(s) && Regular(s) && id in s.ticks
    ensures id in StepTick(s, id).ticks && OwnEntry(s, StepTick(s, id), id)
  {
    match s.ticks[id].stage {
      case Marking => if s.ticks[id].repositories != [] { EnterEntry(s, id); } else { assert TickShape(s, id); }
      case AwaitStart => StartEntry(s, id);
      case AwaitTask => TaskEntry(s, id);
      case _ =>
    }
  }

  lemma {:induction false} ToldTick(s: State, id: nat, key: string)
    requires AllTold(s) && id in s.ticks && Sound(StepTick(s, id)) && key in StepTick(s, id).table.activeTasks
    ensures key in StepTick(s, id).table.controllers && Told(StepTick(s, id), key)
  {
    StepIsOwn(s, id);
    StepEntry(s, id);
    ToldOwn(s, StepTick(s, id), id, key);
  }

  /** Neither the entries nor a schedule run in its loop change. */
  ghost predicate Bystander(s: State, s': State) {
    && s'.table.activeTasks == s.table.activeTasks && s'.table.controllers == s.table.controllers
    && (forall c | c in s.ops :: c in s'.ops && s'.ops[c] == s.ops[c])
    && (forall c | c in s'.ops && c !in s.ops :: c >= s.next)
    && (forall o | o in s'.ticks && o !in s.ticks :: o >= s.next)
    && (forall o | o in s.ticks && InLoop(s.ticks[o]) :: o in s'.ticks && s'.ticks[o] == s.ticks[o])
  }

  lemma {:induction false} BystanderStep(s: State, e: Event)
    requires Sound(s) && !e.Advance? && !e.Fail? && !e.TickStep?
    ensures Bystander(s, Apply(s, e))
  {
  }

  lemma {:induction false} ToldElse(s: State, s': State, key: string)
    requires AllTold(s) && Bystander(s, s') && key in s'.table.activeTasks
    ensures key in s'.table.controllers && Told(s', key)
  {
    ToldStill(s, s', key);
  }

  lemma {:induction false} ToldAfter(s: State, e: Event, key: string)
    requires AllTold(s) && Sound(Apply(s, e)) && key in Apply(s, e).table.activeTasks
    ensures key in Apply(s, e).table.controllers && Told(Apply(s, e), key)
  {
    match e
    case Advance(id) => if id in s.ops { ToldMove(s, id, NextStage(s.ops[id].kind, s.ops[id].stage), key); }
    case Fail(id) => if id in s.ops { ToldMove(s, id, FailedStage(s.ops[id].stage), key); }
    case TickStep(id) => if id in s.ticks { ToldTick(s, id, key); }
    case _ =>
      BystanderStep(s, e);
      ToldElse(s, Apply(s, e), key);
  }

  lemma {:induction false} ToldStep(s: State, e: Event)
    requires AllTold(s)
    ensures AllTold(Apply(s, e))
  {
    SoundStep(s, e);
    RegularStep(s, e);
    forall key | key in Apply(s, e).table.activeTasks ensures key in Apply(s, e).table.controllers && Told(Apply(s, e), key) {
      ToldAfter(s, e, key);
    }
  }

  lemma {:induction false} ToldRun(s: State, es: seq<Event>)
    requires AllTold(s)
    ensures AllTold(Run(s, es))
    decreases |es|
  {
    if es != [] {
      ToldStep(s, es[0]);
      ToldRun(Apply(s, es[0]), es[1..]);
    }
  }

  /** In every run from nothing, overlaps included: every entry tells its key, the
      type of its last starter, and only a list that is up to date, namely that of a
      schedule run in its loop; the entry of the only such run under its key shows
      that run's list. */
  lemma {:induction false} EntriesTell(es: seq<Event>, key: string, id: nat)
    requires key in Run(EMPTY, es).table.activeTasks
    ensures var s := Run(EMPTY, es);
      && key in s.table.controllers && Told(s, key)
      && (s.table.controllers[key] == id && id in s.ticks
          && (forall o | o in s.ticks && InLoop(s.ticks[o]) && s.ticks[o].key == key :: o == id) ==>
            s.table.activeTasks[key].scheduleStatus.Some? && Lists(s.ticks[id], s.table.activeTasks[key].scheduleStatus.value))
  {
    ToldRun(EMPTY, es);
    var s := Run(EMPTY, es);
    var task := s.table.activeTasks[key];
    if task.scheduleStatus.Some? {
      var o :| Shows(s, o, key, task.scheduleStatus.value);
    }
  }
}
