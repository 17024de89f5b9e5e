/** Operations and schedule runs that nothing disturbs, from any state a run reaches:
    they get where they are meant to. */
module ServedAlone {
  import opened Prelude
  import opened RunningTasks
  import opened TaskLifecycle
  import opened TaskSafety
  import opened ScheduleRuns
  import opened ScheduleCancellation

  // ---- One operation --------------------------------------------------------------------

  function Awaits(c: nat, n: nat): seq<Event> {
    if n == 0 then [] else Awaits(c, n - 1) + [Advance(c)]
  }

  lemma {:induction false} OneMore(s: State, c: nat, n: nat)
    ensures Run(s, Awaits(c, n + 1)) == Apply(Run(s, Awaits(c, n)), Advance(c))
  {
    RunAppend(s, Awaits(c, n), [Advance(c)]);
    RunOne(Run(s, Awaits(c, n)), Advance(c));
  }

  /** How many awaits lie between the call and its `startTask`. */
  function AwaitsToStart(kind: Kind): nat {
    match kind
    case BackupOp => 3
    case PruneOp => 2
    case ForgetOp => 1
    case RestoreOp => 2
    case RestorePointOp => 2
  }

  lemma {:induction false} WaitsAlone(s: State, kind: Kind, key: string, k: nat)
    requires Sound(s) && k < AwaitsToStart(kind)
    requires kind in {BackupOp, PruneOp, ForgetOp} ==> key !in s.table.activeTasks
    ensures Run(Apply(s, Begin(kind, key)), Awaits(s.next, k)).table == s.table
  {
    OneMore(Apply(s, Begin(kind, key)), s.next, 0);
    OneMore(Apply(s, Begin(kind, key)), s.next, 1);
  }

  lemma {:induction false} StartsAlone(s: State, kind: Kind, key: string)
    requires Sound(s)
    requires kind in {BackupOp, PruneOp, ForgetOp} ==> key !in s.table.activeTasks
    ensures var started := Run(Apply(s, Begin(kind, key)), Awaits(s.next, AwaitsToStart(kind)));
      && started.ops == s.ops[s.next := Op(kind, key, Running, None, 0)]
      && key in started.table.activeTasks && started.table.controllers == s.table.controllers[key := s.next]
  {
    OneMore(Apply(s, Begin(kind, key)), s.next, 0);
    OneMore(Apply(s, Begin(kind, key)), s.next, 1);
    OneMore(Apply(s, Begin(kind, key)), s.next, 2);
  }

  /** A call whose awaits succeed, on a key without an entry where its kind asks:
      the table stays as it is until `startTask`, then has its entry, and loses it
      again with the next await, whether that succeeds or throws. */
  lemma {:induction false} OperationAlone(s: State, kind: Kind, key: string, k: nat)
    requires Sound(s) && k < AwaitsToStart(kind)
    requires kind in {BackupOp, PruneOp, ForgetOp} ==> key !in s.table.activeTasks
    ensures var c := s.next;
      var called := Apply(s, Begin(kind, key));
      var started := Run(called, Awaits(c, AwaitsToStart(kind)));
      && Run(called, Awaits(c, k)).table == s.table
      && started.ops == s.ops[c := Op(kind, key, Running, None, 0)]
      && key in started.table.activeTasks && started.table.controllers == s.table.controllers[key := c]
      && Apply(started, Advance(c)).ops[c].stage == Settled(true) && Apply(started, Fail(c)).ops[c].stage == Settled(false)
      && Apply(started, Advance(c)).table == Apply(started, Fail(c)).table == End(started.table, key)
  {
    WaitsAlone(s, kind, key, k);
    StartsAlone(s, kind, key);
  }

  // ---- One schedule run ------------------------------------------------------------------

  /** The child is started and ends; the run records it. */
  function Ending(id: nat, c: nat, ok: bool, rest: seq<Event>): seq<Event> {
    [Advance(c)] + ([if ok then Advance(c) else Fail(c)] + ([TickStep(id)] + rest))
  }

  /** One child after the other is admitted, awaited and ends. */
  function LoopEvents(id: nat, c: nat, oks: seq<bool>): seq<Event>
    decreases |oks|
  {
    if oks == [] then []
    else [Advance(c)] + ([Advance(c)] + ([TickStep(id)] + Ending(id, c, oks[0], LoopEvents(id, c + 1, oks[1..]))))
  }

  lemma {:induction false} RunCons(s: State, e: Event, es: seq<Event>)
    ensures Run(s, [e] + es) == Run(Apply(s, e), es)
  {
    assert ([e] + es)[1..] == es;
  }

  /** Run `id` over `rs` has finished its first `n` backups, in order, with these
      outcomes; the rest is Incomplete. */
  ghost predicate BackedUp(s: State, id: nat, key: string, rs: seq<string>, oks: seq<bool>, n: nat)
    requires n <= |rs| == |oks|
  {
    && id in s.ticks && s.ticks[id].key == key && s.ticks[id].repositories == rs
    && |s.ticks[id].status| == |rs| && n <= |s.ticks[id].children| <= |rs|
    && (forall j | 0 <= j < n ::
          && s.ticks[id].status[j] == (if oks[j] then Complete else Failed)
          && s.ticks[id].children[j] in s.ops
          && s.ops[s.ticks[id].children[j]] == Op(BackupOp, rs[j], Settled(oks[j]), Some(id), j))
    && (forall j | n <= j < |rs| :: s.ticks[id].status[j] == Incomplete)
  }

  /** Run `id` awaits the admission of backup `n`, the newest operation. */
  ghost predicate AwaitsChild(s: State, id: nat, key: string, rs: seq<string>, oks: seq<bool>, n: nat, others: set<string>)
    requires n < |rs| == |oks|
  {
    && BackedUp(s, id, key, rs, oks, n) && id !in s.table.aborted && s.next > 0
    && s.ticks[id].stage == AwaitStart && |s.ticks[id].children| == n + 1 && s.ticks[id].children[n] == s.next - 1
    && s.next - 1 in s.ops && s.ops[s.next - 1] == Op(BackupOp, rs[n], Preparing, Some(id), n)
    && (forall j | 0 <= j < n :: s.ticks[id].children[j] < s.next - 1)
    && s.table.activeTasks.Keys == others + {key} && key !in others
    && forall r | r in rs :: r !in others && r != key
  }

  ghost predicate AllBackedUp(s: State, id: nat, key: string, rs: seq<string>, oks: seq<bool>, others: set<string>)
    requires |rs| == |oks|
  {
    && BackedUp(s, id, key, rs, oks, |rs|) && s.ticks[id].stage == Finished
    && s.table.activeTasks.Keys == others
  }

  /** Up to the child's admission. */
  lemma {:induction false} ChildAdmitted(s: State, id: nat, key: string, rs: seq<string>, oks: seq<bool>, n: nat, others: set<string>, rest: seq<Event>)
    returns (s3: State)
    requires n < |rs| == |oks| && AwaitsChild(s, id, key, rs, oks, n, others)
    ensures var c := s.next - 1;
      && s3 == s.(ops := s.ops[c := s.ops[c].(stage := Announcing)], ticks := s.ticks[id := s.ticks[id].(stage := AwaitTask)])
      && Run(s, [Advance(c)] + ([Advance(c)] + ([TickStep(id)] + rest))) == Run(s3, rest)
  {
    var c := s.next - 1;
    var s1 := Apply(s, Advance(c));
    var s2 := Apply(s1, Advance(c));
    assert s2 == s.(ops := s.ops[c := s.ops[c].(stage := Announcing)]);
    s3 := Apply(s2, TickStep(id));
    RunCons(s, Advance(c), [Advance(c)] + ([TickStep(id)] + rest));
    RunCons(s1, Advance(c), [TickStep(id)] + rest);
    RunCons(s2, TickStep(id), rest);
  }

  /** Up to the end of the child's task. */
  lemma {:induction false} TaskEnds(s: State, c: nat, ok: bool, rest: seq<Event>) returns (s': State)
    requires c in s.ops && s.ops[c].stage == Announcing && s.ops[c].kind == BackupOp && s.ops[c].key !in s.table.activeTasks
    ensures s'.ops == s.ops[c := s.ops[c].(stage := Settled(ok))] && s'.next == s.next && s'.ticks == s.ticks
    ensures s'.table.aborted == s.table.aborted && s'.table.activeTasks.Keys == s.table.activeTasks.Keys
    ensures Run(s, [Advance(c)] + ([if ok then Advance(c) else Fail(c)] + rest)) == Run(s', rest)
  {
    var e := if ok then Advance(c) else Fail(c);
    var s1 := Apply(s, Advance(c));
    s' := Apply(s1, e);
    RunCons(s, Advance(c), [e] + rest);
    RunCons(s1, e, rest);
  }

  lemma {:induction false} Records(s: State, id: nat, ok: bool) returns (table: Table)
    requires Recordable(s, id) && s.ticks[id].stage == AwaitTask && s.ticks[id].key in s.table.activeTasks
    requires s.ops[s.ticks[id].children[|s.ticks[id].children| - 1]].stage == Settled(ok)
    ensures table.aborted == s.table.aborted && table.activeTasks.Keys == s.table.activeTasks.Keys
    ensures Apply(s, TickStep(id)) == NextChild(s.(table := table), id, Noted(s.ticks[id], ok))
  {
    table := UpdateStatus(s.table, s.ticks[id].key, Items(Noted(s.ticks[id], ok))).value;
  }

  /** The child of `s` has ended in `s5` and nothing else has changed. */
  ghost predicate ChildEnded(s: State, s5: State, id: nat, ok: bool) {
    && s.next > 0 && s.next - 1 in s.ops && id in s.ticks
    && s5.ops == s.ops[s.next - 1 := s.ops[s.next - 1].(stage := Settled(ok))] && s5.next == s.next
    && s5.ticks == s.ticks[id := s.ticks[id].(stage := AwaitTask)]
    && s5.table.aborted == s.table.aborted && s5.table.activeTasks.Keys == s.table.activeTasks.Keys
  }

  lemma {:induction false} NextCalled(s: State, s5: State, id: nat, key: string, rs: seq<string>, oks: seq<bool>, n: nat, others: set<string>)
    requires n + 1 < |rs| == |oks| && AwaitsChild(s, id, key, rs, oks, n, others) && ChildEnded(s, s5, id, oks[n])
    ensures var s' := Apply(s5, TickStep(id));
      AwaitsChild(s', id, key, rs, oks, n + 1, others) && s'.next == s.next + 1
  {
    var _ := Records(s5, id, oks[n]);
    assert rs[n + 1] in rs;
  }

  lemma {:induction false} LastRecorded(s: State, s5: State, id: nat, key: string, rs: seq<string>, oks: seq<bool>, others: set<string>)
    requires |rs| == |oks| > 0 && AwaitsChild(s, id, key, rs, oks, |rs| - 1, others) && ChildEnded(s, s5, id, oks[|rs| - 1])
    ensures AllBackedUp(Apply(s5, TickStep(id)), id, key, rs, oks, others)
  {
    var _ := Records(s5, id, oks[|rs| - 1]);
  }

  lemma {:induction false} TaskRecorded(s: State, s5: State, id: nat, key: string, rs: seq<string>, oks: seq<bool>, n: nat, others: set<string>, rest: seq<Event>)
    returns (s': State)
    requires n < |rs| == |oks| && AwaitsChild(s, id, key, rs, oks, n, others) && ChildEnded(s, s5, id, oks[n])
    ensures if n + 1 < |rs| then AwaitsChild(s', id, key, rs, oks, n + 1, others) && s'.next == s.next + 1
            else AllBackedUp(s', id, key, rs, oks, others)
    ensures Run(s5, [TickStep(id)] + rest) == Run(s', rest)
  {
    s' := Apply(s5, TickStep(id));
    if n + 1 < |rs| { NextCalled(s, s5, id, key, rs, oks, n, others); } else { LastRecorded(s, s5, id, key, rs, oks, others); }
    RunCons(s5, TickStep(id), rest);
  }

  lemma {:induction false} ChildAlone(s: State, id: nat, key: string, rs: seq<string>, oks: seq<bool>, n: nat, others: set<string>)
    returns (s': State)
    requires n < |rs| == |oks| && AwaitsChild(s, id, key, rs, oks, n, others)
    ensures if n + 1 < |rs| then AwaitsChild(s', id, key, rs, oks, n + 1, others) && s'.next == s.next + 1
            else AllBackedUp(s', id, key, rs, oks, others)
    ensures Run(s, LoopEvents(id, s.next - 1, oks[n..])) == Run(s', LoopEvents(id, s.next, oks[n + 1..]))
  {
    var c, rest := s.next - 1, LoopEvents(id, s.next, oks[n + 1..]);
    assert oks[n..][1..] == oks[n + 1..];
    assert rs[n] in rs;
    var s3 := ChildAdmitted(s, id, key, rs, oks, n, others, Ending(id, c, oks[n], rest));
    var s5 := TaskEnds(s3, c, oks[n], [TickStep(id)] + rest);
    s' := TaskRecorded(s, s5, id, key, rs, oks, n, others, rest);
  }

  lemma {:induction false} LoopAlone(s: State, id: nat, key: string, rs: seq<string>, oks: seq<bool>, n: nat, others: set<string>)
    requires n < |rs| == |oks| && AwaitsChild(s, id, key, rs, oks, n, others)
    ensures AllBackedUp(Run(s, LoopEvents(id, s.next - 1, oks[n..])), id, key, rs, oks, others)
    decreases |rs| - n
  {
    var s' := ChildAlone(s, id, key, rs, oks, n, others);
    if n + 1 < |rs| {
      LoopAlone(s', id, key, rs, oks, n + 1, others);
    } else {
      assert LoopEvents(id, s.next, oks[n + 1..]) == [];
    }
  }

  /** A new run has read the schedule. */
  function AtMarking(s: State, key: string, rs: seq<string>): State {
    s.(ticks := s.ticks[s.next := Tick(key, Marking, rs, [], [])], next := s.next + 1)
  }

  lemma {:induction false} HasRead(s: State, key: string, rs: seq<string>)
    ensures Apply(Apply(s, OnTick(key, true)), TickRead(s.next, rs)) == AtMarking(s, key, rs)
  {
  }

  lemma {:induction false} TickReads(s: State, key: string, rs: seq<string>, rest: seq<Event>)
    ensures var id := s.next;
      Run(s, [OnTick(key, true)] + ([TickRead(id, rs)] + ([TickStep(id)] + rest))) == Run(Apply(AtMarking(s, key, rs), TickStep(id)), rest)
  {
    var id := s.next;
    HasRead(s, key, rs);
    RunCons(s, OnTick(key, true), [TickRead(id, rs)] + ([TickStep(id)] + rest));
    RunCons(Apply(s, OnTick(key, true)), TickRead(id, rs), [TickStep(id)] + rest);
    RunCons(AtMarking(s, key, rs), TickStep(id), rest);
  }

  lemma {:induction false} EntersLoop(s: State, id: nat) returns (table: Table)
    requires id in s.ticks && s.ticks[id].stage == Marking && s.ticks[id].repositories != []
    ensures table.aborted == s.table.aborted && table.activeTasks.Keys == s.table.activeTasks.Keys + {s.ticks[id].key}
    ensures Apply(s, TickStep(id)) ==
      NextChild(s.(table := table), id, s.ticks[id].(status := seq(|s.ticks[id].repositories|, _ => Incomplete), children := []))
  {
    var t := s.ticks[id];
    var t' := t.(status := seq(|t.repositories|, _ => Incomplete), children := []);
    var started := Start(s.table, t.key, TaskType.Schedule, None, id, None);
    table := UpdateStatus(started, t.key, Items(t')).value;
  }

  /** The first child is called. */
  lemma {:induction false} Entered(s: State, key: string, rs: seq<string>, oks: seq<bool>)
    requires Sane(s) && |rs| == |oks| && rs != []
    requires forall r | r in rs :: r !in s.table.activeTasks && r != key
    ensures var s' := Apply(AtMarking(s, key, rs), TickStep(s.next));
      AwaitsChild(s', s.next, key, rs, oks, 0, s.table.activeTasks.Keys - {key}) && s'.next == s.next + 2
  {
    assert rs[0] in rs;
    var _ := EntersLoop(AtMarking(s, key, rs), s.next);
  }

  lemma {:induction false} TickEnters(s: State, key: string, rs: seq<string>, oks: seq<bool>, rest: seq<Event>) returns (s': State)
    requires Sane(s) && |rs| == |oks|
    requires forall r | r in rs :: r !in s.table.activeTasks && r != key
    ensures Run(s, [OnTick(key, true)] + ([TickRead(s.next, rs)] + ([TickStep(s.next)] + rest))) == Run(s', rest)
    ensures if rs == [] then s.next in s'.ticks && s'.ticks[s.next].stage == Skipped && s'.table == s.table && s'.ops == s.ops
            else AwaitsChild(s', s.next, key, rs, oks, 0, s.table.activeTasks.Keys - {key}) && s'.next == s.next + 2
  {
    TickReads(s, key, rs, rest);
    s' := Apply(AtMarking(s, key, rs), TickStep(s.next));
    if rs != [] { Entered(s, key, rs, oks); }
  }

  /** The events of such a run. */
  function TickEvents(id: nat, key: string, rs: seq<string>, oks: seq<bool>): seq<Event> {
    [OnTick(key, true)] + ([TickRead(id, rs)] + ([TickStep(id)] + LoopEvents(id, id + 1, oks)))
  }

  /** From every reachable state: the tick of a schedule whose repositories have no
      entry, left alone, backs up every repository of the list, in the order of the
      list, records for each how its backup ended, and leaves the table without an
      entry for the schedule; an empty schedule does nothing. */
  lemma {:induction false} ScheduleAlone(past: seq<Event>, key: string, rs: seq<string>, oks: seq<bool>)
    requires |rs| == |oks|
    requires forall r | r in rs :: r !in Run(EMPTY, past).table.activeTasks && r != key
    ensures var s := Run(EMPTY, past);
      var s' := Run(s, TickEvents(s.next, key, rs, oks));
      if rs == [] then s.next in s'.ticks && s'.ticks[s.next].stage == Skipped && s'.table == s.table && s'.ops == s.ops
      else AllBackedUp(s', s.next, key, rs, oks, s.table.activeTasks.Keys - {key})
  {
    SaneRun(EMPTY, past);
    var s := Run(EMPTY, past);
    var s' := TickEnters(s, key, rs, oks, LoopEvents(s.next, s.next + 1, oks));
    if rs != [] {
      assert oks[0..] == oks;
      LoopAlone(s', s.next, key, rs, oks, 0, s.table.activeTasks.Keys - {key});
    } else {
      assert LoopEvents(s.next, s.next + 1, oks) == [];
    }
  }

  /** A run in its loop can go on exactly when what it awaits is decided: the admission
      of its child once that is refused or its body has begun, the child's task once
      that has settled. */
  lemma {:induction false} GoesOnIff(es: seq<Event>, id: nat)
    requires var s := Run(EMPTY, es); id in s.ticks && s.ticks[id].stage in {AwaitStart, AwaitTask}
    ensures var s := Run(EMPTY, es);
      && Recordable(s, id)
      && (StepTick(s, id) == s <==> StillWaits(s.ticks[id].stage, s.ops[s.ticks[id].children[|s.ticks[id].children| - 1]].stage))
  {
    RegularRun(EMPTY, es);
    var s := Run(EMPTY, es);
    assert TickShape(s, id) && IsChild(s, id, |s.ticks[id].children| - 1);
    if s.ticks[id].stage == AwaitStart { LeavesAdmission(s, id); } else { LeavesTask(s, id); }
  }

  predicate StillWaits(run: TickStage, child: Stage) {
    child in {Preparing, Logging, Lost} || (run == AwaitTask && child in {Announcing, Running, Rejected})
  }

  lemma {:induction false} LeavesAdmission(s: State, id: nat)
    requires Recordable(s, id) && TickShape(s, id) && s.ticks[id].stage == AwaitStart
    ensures StepTick(s, id) == s <==> StillWaits(AwaitStart, s.ops[s.ticks[id].children[|s.ticks[id].children| - 1]].stage)
  {
    RecordMoves(s, id, false);
    assert s.ticks[id := s.ticks[id].(stage := AwaitTask)][id] != s.ticks[id];
  }

  lemma {:induction false} LeavesTask(s: State, id: nat)
    requires Recordable(s, id) && TickShape(s, id) && s.ticks[id].stage == AwaitTask
    ensures StepTick(s, id) == s <==> StillWaits(AwaitTask, s.ops[s.ticks[id].children[|s.ticks[id].children| - 1]].stage)
  {
    RecordMoves(s, id, true);
    RecordMoves(s, id, false);
  }

  lemma {:induction false} RecordMoves(s: State, id: nat, ok: bool)
    requires Recordable(s, id) && TickShape(s, id) && s.ticks[id].stage in {AwaitStart, AwaitTask}
    ensures Record(s, id, ok) != s
  {
    var t := s.ticks[id];
    assert t.status[|t.children| - 1] == Incomplete;
    assert Record(s, id, ok).ticks[id].status != t.status;
  }

  /** A tick that fails to read the schedule or to note its run ends there: it starts
      no backup and leaves no entry. */
  lemma {:induction false} TickFailsEarly(s: State, key: string, rs: seq<string>)
    ensures var id := s.next;
      var unread := Run(s, [OnTick(key, true), TickFail(id)]);
      var unmarked := Run(s, [OnTick(key, true), TickRead(id, rs), TickFail(id)]);
      && unread == s.(ticks := s.ticks[id := Tick(key, Skipped, [], [], [])], next := id + 1)
      && unmarked == s.(ticks := s.ticks[id := Tick(key, Skipped, rs, [], [])], next := id + 1)
  {
    var id := s.next;
    assert [OnTick(key, true), TickFail(id)] == [OnTick(key, true)] + [TickFail(id)];
    RunCons(s, OnTick(key, true), [TickFail(id)]);
    RunOne(Apply(s, OnTick(key, true)), TickFail(id));
    assert [OnTick(key, true), TickRead(id, rs), TickFail(id)] == [OnTick(key, true)] + ([TickRead(id, rs)] + [TickFail(id)]);
    RunCons(s, OnTick(key, true), [TickRead(id, rs)] + [TickFail(id)]);
    RunCons(Apply(s, OnTick(key, true)), TickRead(id, rs), [TickFail(id)]);
    HasRead(s, key, rs);
    RunOne(AtMarking(s, key, rs), TickFail(id));
  }
}
