/** What the task table guarantees over every interleaving, and when operations
    on one repository exclude each other. */
module TaskSafety {
  import opened Prelude
  import opened RunningTasks
  import opened TaskLifecycle

  // ---- What a schedule run's step leaves alone ----------------------------------------

  /** From `s` to `s'` run `id` moved: at most its own child, `s.next`, was added, no
      controller was handed a signal or aborted, and other keys' entries stayed. */
  ghost predicate OwnStep(s: State, s': State, id: nat)
    requires id in s.ticks
  {
    && s'.table.linked == s.table.linked && s'.table.aborted == s.table.aborted
    && (forall k | k != s.ticks[id].key :: k in s'.table.activeTasks <==> k in s.table.activeTasks)
    && s'.table.controllers - {s.ticks[id].key} == s.table.controllers - {s.ticks[id].key}
    && id in s'.ticks && s'.ticks == s.ticks[id := s'.ticks[id]] && s'.ticks[id].key == s.ticks[id].key
    && ((s'.ops == s.ops && s'.next == s.next) || AddsChild(s, s', id))
  }

  ghost predicate AddsChild(s: State, s': State, id: nat) {
    && s.next in s'.ops && s'.ops == s.ops[s.next := s'.ops[s.next]] && s'.next == s.next + 1
    && s'.ops[s.next].kind == BackupOp && s'.ops[s.next].tick == Some(id) && s'.ops[s.next].stage in {Preparing, Rejected}
  }

  lemma {:induction false} NextChildOwn(s: State, table: Table, id: nat, t: Tick)
    requires id in s.ticks && t.key == s.ticks[id].key
    requires table.linked == s.table.linked && table.aborted == s.table.aborted
    requires forall k | k != t.key :: k in table.activeTasks <==> k in s.table.activeTasks
    requires table.controllers - {t.key} == s.table.controllers - {t.key}
    ensures OwnStep(s, NextChild(s.(table := table), id, t), id)
  {
  }

  lemma {:induction false} EnterLoopOwn(s: State, id: nat)
    requires id in s.ticks
    ensures OwnStep(s, EnterLoop(s, id), id)
  {
    var t := s.ticks[id];
    if t.repositories != [] {
      var t' := t.(status := seq(|t.repositories|, _ => Incomplete), children := []);
      var started := Start(s.table, t.key, TaskType.Schedule, None, id, None);
      var updated := UpdateStatus(started, t.key, Items(t'));
      NextChildOwn(s, if updated.Ok? then updated.value else started, id, t');
    }
  }

  lemma {:induction false} RecordOwn(s: State, id: nat, ok: bool)
    requires Recordable(s, id)
    ensures OwnStep(s, Record(s, id, ok), id)
  {
    var t := s.ticks[id];
    var t' := Noted(t, ok);
    match UpdateStatus(s.table, t.key, Items(t'))
    case Ok(table) => NextChildOwn(s, table, id, t');
    case Err(_) =>
  }

  lemma {:induction false} StepIsOwn(s: State, id: nat)
    requires id in s.ticks
    ensures OwnStep(s, StepTick(s, id), id)
  {
    var t := s.ticks[id];
    if t.stage == Marking {
      EnterLoopOwn(s, id);
    } else if t.stage in {AwaitStart, AwaitTask} && Recordable(s, id) {
      RecordOwn(s, id, true);
      RecordOwn(s, id, false);
    }
  }

  lemma {:induction false} TickTable(s: State, id: nat)
    requires id in s.ticks
    ensures StepTick(s, id).table.linked == s.table.linked && StepTick(s, id).table.aborted == s.table.aborted
  {
    StepIsOwn(s, id);
  }

  lemma {:induction false} TickOp(s: State, id: nat, c: nat)
    requires id in s.ticks
    ensures c in s.ops && c < s.next ==> c in StepTick(s, id).ops && StepTick(s, id).ops[c] == s.ops[c]
    ensures c in StepTick(s, id).ops && c !in s.ops ==> c == s.next && AddsChild(s, StepTick(s, id), id)
  {
    StepIsOwn(s, id);
  }

  /** An operation moves by its own awaits only. */
  lemma {:induction false} OpsKept(s: State, e: Event, c: nat)
    requires c in s.ops && c < s.next
    ensures c in Apply(s, e).ops
    ensures e != Advance(c) && e != Fail(c) ==> Apply(s, e).ops[c] == s.ops[c]
  {
    if e.TickStep? && e.id in s.ticks { TickOp(s, e.id, c); }
  }

  lemma {:induction false} TickOther(s: State, id: nat, i: nat)
    requires id in s.ticks && i in s.ticks && i != id
    ensures i in StepTick(s, id).ticks && StepTick(s, id).ticks[i] == s.ticks[i]
  {
    StepIsOwn(s, id);
  }

  lemma {:induction false} TickEntry(s: State, id: nat, key: string)
    requires id in s.ticks && s.ticks[id].key != key && key in s.table.activeTasks
    ensures key in StepTick(s, id).table.activeTasks
  {
    StepIsOwn(s, id);
  }

  // ---- The table mirrors what is live ----------------------------------------

  /** Operation `c` is between its `startTask` and its `endTask` for `key`. */
  predicate Live(s: State, c: nat, key: string) {
    || (c in s.ops && s.ops[c].stage == Running && s.ops[c].key == key)
    || (c in s.ticks && InLoop(s.ticks[c]) && s.ticks[c].key == key)
  }

  /** Both maps have the same keys, and a present entry's controller, which is
      that of the most recent starter for the key, belongs to a live operation. */
  ghost predicate Sound(s: State) {
    && s.table.activeTasks.Keys == s.table.controllers.Keys
    && (forall key | key in s.table.controllers :: Live(s, s.table.controllers[key], key))
    && (forall id | id in s.ops :: id < s.next)
    && (forall id | id in s.ticks :: id < s.next && id !in s.ops)
  }

  lemma MoveSound(s: State, id: nat, stage: Stage)
    requires Sound(s) && id in s.ops
    ensures Sound(Move(s, id, stage))
  {
    var s' := Move(s, id, stage);
    forall key | key in s'.table.controllers ensures Live(s', s'.table.controllers[key], key) {
      if s'.table.controllers[key] != id { assert Live(s, s.table.controllers[key], key); }
    }
  }

  /** A step that leaves the operations' stages alone, and the table alone but for
      the entry of schedule run `id`, keeps the table sound. */
  lemma TickSoundIf(s: State, s': State, id: nat)
    requires Sound(s) && id in s.ticks && id in s'.ticks && s'.ticks[id].key == s.ticks[id].key
    requires s'.ticks.Keys == s.ticks.Keys && s'.ticks - {id} == s.ticks - {id}
    requires s.next <= s'.next && s'.ops.Keys <= s.ops.Keys + {s.next} && (s.next in s'.ops ==> s.next < s'.next)
    requires forall i | i in s.ops :: i in s'.ops && s'.ops[i] == s.ops[i]
    requires s'.table.activeTasks.Keys == s'.table.controllers.Keys
    requires s'.table.controllers - {s.ticks[id].key} == s.table.controllers - {s.ticks[id].key}
    requires s.ticks[id].key in s'.table.controllers ==>
      || (InLoop(s'.ticks[id]) && s'.table.controllers[s.ticks[id].key] == id)
      || (InLoop(s'.ticks[id]) && s'.table.controllers == s.table.controllers)
      || (s'.table.controllers == s.table.controllers && !InLoop(s.ticks[id]))
    ensures Sound(s')
  {
    forall i | i in s.ticks && i != id ensures s'.ticks[i] == s.ticks[i] {
      assert i in s'.ticks - {id};
    }
    forall key | key in s'.table.controllers ensures Live(s', s'.table.controllers[key], key) {
      var c := s'.table.controllers[key];
      if key != s.ticks[id].key {
        assert key in s'.table.controllers - {s.ticks[id].key};
        assert Live(s, c, key);
      } else if c != id || !InLoop(s'.ticks[id]) {
        assert Live(s, c, key);
      }
    }
  }

  lemma {:induction false} TickSound(s: State, id: nat)
    requires Sound(s) && id in s.ticks
    ensures Sound(StepTick(s, id))
  {
    var t := s.ticks[id];
    match t.stage {
      case Marking => EnterLoopSound(s, id);
      case AwaitStart =>
        if Recordable(s, id) {
          RecordSound(s, id, false);
          TickSoundIf(s, s.(ticks := s.ticks[id := t.(stage := AwaitTask)]), id);
        }
      case AwaitTask =>
        if Recordable(s, id) {
          RecordSound(s, id, true);
          RecordSound(s, id, false);
        }
      case _ =>
    }
  }

  lemma EnterLoopSound(s: State, id: nat)
    requires Sound(s) && id in s.ticks && s.ticks[id].stage == Marking
    ensures Sound(EnterLoop(s, id))
  {
    EnterLoopOwn(s, id);
    EnterLoopEntry(s, id);
    TickSoundIf(s, EnterLoop(s, id), id);
  }

  /** After entering the loop the entry is the run's, or gone with its end. */
  lemma {:induction false} EnterLoopEntry(s: State, id: nat)
    requires Sound(s) && id in s.ticks && s.ticks[id].stage == Marking
    ensures var s', key := EnterLoop(s, id), s.ticks[id].key;
      && id in s'.ticks && s'.table.activeTasks.Keys == s'.table.controllers.Keys
      && (key in s'.table.controllers && s'.table.controllers != s.table.controllers ==>
            InLoop(s'.ticks[id]) && s'.table.controllers[key] == id)
  {
  }

  /** Also when `updateTask` throws: the entry was already gone. */
  lemma RecordSound(s: State, id: nat, ok: bool)
    requires Sound(s) && Recordable(s, id) && InLoop(s.ticks[id])
    ensures Sound(Record(s, id, ok))
  {
    TickSoundIf(s, Record(s, id, ok), id);
  }

  lemma {:induction false} SoundStep(s: State, e: Event)
    requires Sound(s)
    ensures Sound(Apply(s, e))
  {
    match e
    case Advance(id) => if id in s.ops { MoveSound(s, id, NextStage(s.ops[id].kind, s.ops[id].stage)); }
    case Fail(id) => if id in s.ops { MoveSound(s, id, FailedStage(s.ops[id].stage)); }
    case TickStep(id) => if id in s.ticks { TickSound(s, id); }
    case _ =>
      var s' := Apply(s, e);
      forall key | key in s'.table.controllers ensures Live(s', s'.table.controllers[key], key) {
        assert Live(s, s.table.controllers[key], key);
      }
  }

  /** Task table soundness over all interleavings, overlapping restores, overlapping
      ticks and crashed schedule runs included: the two maps have the same keys,
      every entry's last starter is live, and with nothing live both are empty. */
  lemma {:induction false} TableSoundness(s: State, es: seq<Event>)
    requires Sound(s)
    ensures Sound(Run(s, es))
    ensures (forall c, key :: !Live(Run(s, es), c, key)) ==>
      Run(s, es).table.activeTasks == map[] && Run(s, es).table.controllers == map[]
    decreases |es|
  {
    if es != [] {
      SoundStep(s, es[0]);
      TableSoundness(Apply(s, es[0]), es[1..]);
    } else {
      if s.table.controllers.Keys != {} {
        var key :| key in s.table.controllers.Keys;
        assert Live(s, s.table.controllers[key], key);
      }
    }
  }

  // ---- A child whose key has an entry is turned away -----------------------------------

  lemma {:induction false} NextChildRejects(s: State, table: Table, id: nat, t: Tick, p: string)
    requires id in s.ticks && p in table.activeTasks && s.next !in s.ops
    ensures var s' := NextChild(s.(table := table), id, t);
      s.next in s'.ops && s'.ops[s.next].key == p ==> s'.ops[s.next].stage == Rejected
  {
  }

  lemma {:induction false} TickRejects(s: State, id: nat, p: string)
    requires id in s.ticks && p in s.table.activeTasks && s.next !in s.ops
    ensures s.next in StepTick(s, id).ops && StepTick(s, id).ops[s.next].key == p ==> StepTick(s, id).ops[s.next].stage == Rejected
  {
    var t := s.ticks[id];
    if t.stage == Marking {
      EnterRejects(s, id, p);
    } else if t.stage in {AwaitStart, AwaitTask} && Recordable(s, id) {
      RecordRejects(s, id, true, p);
      RecordRejects(s, id, false, p);
    }
  }

  lemma {:induction false} EnterRejects(s: State, id: nat, p: string)
    requires id in s.ticks && p in s.table.activeTasks && s.next !in s.ops
    ensures s.next in EnterLoop(s, id).ops && EnterLoop(s, id).ops[s.next].key == p ==> EnterLoop(s, id).ops[s.next].stage == Rejected
  {
    var t := s.ticks[id];
    if t.repositories != [] {
      var t' := t.(status := seq(|t.repositories|, _ => Incomplete), children := []);
      var started := Start(s.table, t.key, TaskType.Schedule, None, id, None);
      var updated := UpdateStatus(started, t.key, Items(t'));
      NextChildRejects(s, if updated.Ok? then updated.value else started, id, t', p);
    }
  }

  lemma {:induction false} RecordRejects(s: State, id: nat, ok: bool, p: string)
    requires Recordable(s, id) && p in s.table.activeTasks && s.next !in s.ops
    ensures s.next in Record(s, id, ok).ops && Record(s, id, ok).ops[s.next].key == p ==> Record(s, id, ok).ops[s.next].stage == Rejected
  {
    var t := s.ticks[id];
    var t' := Noted(t, ok);
    match UpdateStatus(s.table, t.key, Items(t'))
    case Ok(table) => NextChildRejects(s, table, id, t', p);
    case Err(_) =>
  }

  // ---- Mutual exclusion ------------------------------------------------------------

  /** A backup, prune or forget on `p` after its `canStart` and before its end. */
  predicate Busy(s: State, id: nat, p: string) {
    id in s.ops && Guarded(s.ops[id].kind) && s.ops[id].key == p &&
    s.ops[id].stage in {Preparing, Logging, Announcing, Running}
  }

  predicate IsRunning(s: State, id: nat, p: string) {
    Busy(s, id, p) && s.ops[id].stage == Running
  }

  /** Between `canStart` and `startTask`. */
  predicate InWindow(s: State, id: nat, p: string) {
    Busy(s, id, p) && s.ops[id].stage != Running
  }

  ghost predicate AtMostOneRunning(s: State, p: string) {
    forall i, j | IsRunning(s, i, p) && IsRunning(s, j, p) :: i == j
  }

  ghost predicate AtMostOneBusy(s: State, p: string) {
    forall i, j | Busy(s, i, p) && Busy(s, j, p) :: i == j
  }

  /** The event is a `canStart(p)` that lets its caller through: a call from outside
      or the next child of a schedule run. */
  predicate Admits(s: State, e: Event, p: string) {
    s.next !in s.ops && Busy(Apply(s, e), s.next, p)
  }

  /** No restore and no schedule run is keyed by `p`, and `canStart(p)` lets
      nobody through while another operation is between its own and `startTask`. */
  ghost predicate Polite(s: State, e: Event, p: string) {
    && !(e.Begin? && e.key == p && !Guarded(e.kind))
    && !(e.OnTick? && e.key == p)
    && (Admits(s, e, p) ==> forall id :: !InWindow(s, id, p))
  }

  ghost predicate PoliteRun(s: State, es: seq<Event>, p: string)
    decreases |es|
  {
    es == [] || (Polite(s, es[0], p) && PoliteRun(Apply(s, es[0]), es[1..], p))
  }

  ghost predicate Exclusive(s: State, p: string) {
    && AtMostOneBusy(s, p)
    && (forall id | IsRunning(s, id, p) :: p in s.table.activeTasks)
    && (forall id | id in s.ops && s.ops[id].key == p :: Guarded(s.ops[id].kind))
    && (forall id | id in s.ticks :: s.ticks[id].key != p)
    && (forall id | id in s.ops || id in s.ticks :: id < s.next)
  }

  lemma MoveExclusive(s: State, id: nat, stage: Stage, p: string)
    requires Exclusive(s, p) && id in s.ops
    requires stage in {Preparing, Logging, Announcing, Running} ==>
      s.ops[id].stage in {Preparing, Logging, Announcing, Running}
    ensures Exclusive(Move(s, id, stage), p)
  {
    var s' := Move(s, id, stage);
    forall i | Busy(s', i, p) ensures Busy(s, i, p) {}
    forall i | IsRunning(s', i, p) ensures p in s'.table.activeTasks {
      if i != id || s.ops[id].stage == Running {
        assert IsRunning(s, i, p);
        if s.ops[id].key == p && s.ops[id].stage == Running { assert Busy(s, id, p); }
      }
    }
  }

  lemma {:induction false} NotAdmitted(s: State, p: string)
    requires Exclusive(s, p) && (forall i :: !InWindow(s, i, p)) && p !in s.table.activeTasks
    ensures forall i :: !Busy(s, i, p)
  {
    forall i ensures !Busy(s, i, p) {
      assert !InWindow(s, i, p);
      assert !IsRunning(s, i, p);
    }
  }

  lemma {:induction false} TickBusy(s: State, id: nat, i: nat, p: string)
    requires Exclusive(s, p) && id in s.ticks && Busy(StepTick(s, id), i, p)
    ensures Busy(s, i, p) || (i == s.next && p !in s.table.activeTasks)
    ensures IsRunning(StepTick(s, id), i, p) ==> IsRunning(s, i, p)
  {
    TickOp(s, id, i);
    if i !in s.ops && p in s.table.activeTasks { TickRejects(s, id, p); }
  }

  lemma {:induction false} TickKeeps(s: State, s': State, id: nat, p: string)
    requires Exclusive(s, p) && id in s.ticks && OwnStep(s, s', id)
    ensures forall i | i in s'.ops && s'.ops[i].key == p :: Guarded(s'.ops[i].kind)
    ensures forall i | i in s'.ticks :: s'.ticks[i].key != p
    ensures forall i | i in s'.ops || i in s'.ticks :: i < s'.next
  {
  }

  lemma {:induction false} TickExclusive(s: State, id: nat, p: string)
    requires Exclusive(s, p) && id in s.ticks && Polite(s, TickStep(id), p)
    ensures Exclusive(StepTick(s, id), p)
  {
    var s' := StepTick(s, id);
    StepIsOwn(s, id);
    TickKeeps(s, s', id, p);
    forall i | IsRunning(s', i, p) ensures p in s'.table.activeTasks {
      TickBusy(s, id, i, p);
      TickEntry(s, id, p);
    }
    forall i, j | Busy(s', i, p) && Busy(s', j, p) ensures i == j {
      TickBusy(s, id, i, p);
      TickBusy(s, id, j, p);
      if i == s.next || j == s.next {
        assert Admits(s, TickStep(id), p);
        NotAdmitted(s, p);
      }
    }
  }

  lemma ExclusiveStep(s: State, e: Event, p: string)
    requires Exclusive(s, p) && Polite(s, e, p)
    ensures Exclusive(Apply(s, e), p)
  {
    match e
    case Advance(id) => if id in s.ops { MoveExclusive(s, id, NextStage(s.ops[id].kind, s.ops[id].stage), p); }
    case Fail(id) => if id in s.ops { MoveExclusive(s, id, FailedStage(s.ops[id].stage), p); }
    case TickStep(id) => if id in s.ticks { TickExclusive(s, id, p); }
    case Begin(kind, key) =>
      var s' := Apply(s, e);
      forall i | Busy(s', i, p) ensures Busy(s, i, p) || (i == s.next && Admits(s, e, p)) {}
      forall i | IsRunning(s', i, p) ensures p in s'.table.activeTasks { assert IsRunning(s, i, p); }
      if Admits(s, e, p) {
        forall i ensures !Busy(s, i, p) {
          assert !InWindow(s, i, p);
          assert !IsRunning(s, i, p);
        }
      }
    case _ =>
      var s' := Apply(s, e);
      forall i | Busy(s', i, p) ensures Busy(s, i, p) {}
      forall i | IsRunning(s', i, p) ensures p in s'.table.activeTasks { assert IsRunning(s, i, p); }
  }

  /** Mutual exclusion with its side condition: without restores on `p`, and as
      long as nobody passes `canStart(p)` inside another operation's window, at
      most one backup, prune or forget on `p` is between its start and its end. */
  lemma {:induction false} MutualExclusion(s: State, es: seq<Event>, p: string)
    requires Exclusive(s, p) && PoliteRun(s, es, p)
    ensures Exclusive(Run(s, es), p) && AtMostOneRunning(Run(s, es), p)
    decreases |es|
  {
    if es != [] {
      ExclusiveStep(s, es[0], p);
      MutualExclusion(Apply(s, es[0]), es[1..], p);
    }
  }

  // ---- The side condition is needed --------------------------------------------------

  predicate OnlyAwaits(es: seq<Event>) {
    forall e | e in es :: e.Advance? || e.Fail?
  }

  lemma {:induction false} AwaitsAdmitNobody(s: State, es: seq<Event>, p: string)
    requires AtMostOneBusy(s, p) && OnlyAwaits(es)
    ensures AtMostOneBusy(Run(s, es), p)
    decreases |es|
  {
    if es != [] {
      assert es[0] in es;
      var s' := Apply(s, es[0]);
      forall i | Busy(s', i, p) ensures Busy(s, i, p) {}
      AwaitsAdmitNobody(s', es[1..], p);
    }
  }

  /** The awaits an operation needs to reach `startTask`. */
  function ToRunning(id: nat, op: Op): seq<Event>
    requires Guarded(op.kind)
    decreases match op.stage { case Preparing => 3 case Logging => 2 case Announcing => 1 case _ => 0 }
  {
    if op.stage in {Preparing, Logging, Announcing}
    then [Advance(id)] + ToRunning(id, op.(stage := NextStage(op.kind, op.stage)))
    else []
  }

  lemma {:induction false} ReachesRunning(s: State, id: nat, p: string)
    requires Busy(s, id, p)
    ensures OnlyAwaits(ToRunning(id, s.ops[id]))
    ensures var s' := Run(s, ToRunning(id, s.ops[id]));
      IsRunning(s', id, p) && s'.ops == s.ops[id := s.ops[id].(stage := Running)]
    decreases match s.ops[id].stage { case Preparing => 3 case Logging => 2 case Announcing => 1 case _ => 0 }
  {
    var op := s.ops[id];
    if op.stage != Running {
      var s1 := Apply(s, Advance(id));
      var rest := ToRunning(id, op.(stage := NextStage(op.kind, op.stage)));
      assert s1.ops == s.ops[id := op.(stage := NextStage(op.kind, op.stage))];
      ReachesRunning(s1, id, p);
      assert ([Advance(id)] + rest)[1..] == rest;
    } else {
      assert s.ops == s.ops[id := op.(stage := Running)];
    }
  }

  ghost predicate ExclusionSurvivesAwaits(s: State, p: string) {
    forall es | OnlyAwaits(es) :: AtMostOneRunning(Run(s, es), p)
  }

  /** Exactly when the operations already admitted exclude each other, whatever
      their awaits do: when at most one of them has passed `canStart(p)`. */
  lemma ExclusionIff(s: State, p: string)
    ensures ExclusionSurvivesAwaits(s, p) <==> AtMostOneBusy(s, p)
  {
    if AtMostOneBusy(s, p) {
      forall es | OnlyAwaits(es) ensures AtMostOneRunning(Run(s, es), p) { AwaitsAdmitNobody(s, es, p); }
    } else {
      var i, j :| Busy(s, i, p) && Busy(s, j, p) && i != j;
      ReachesRunning(s, i, p);
      var es1 := ToRunning(i, s.ops[i]);
      var s1 := Run(s, es1);
      ReachesRunning(s1, j, p);
      var es2 := ToRunning(j, s1.ops[j]);
      RunAppend(s, es1, es2);
      assert IsRunning(Run(s, es1 + es2), i, p) && IsRunning(Run(s, es1 + es2), j, p);
      assert OnlyAwaits(es1 + es2);
    }
  }

  /** Two calls one after the other both pass `canStart`, because the entry
      appears only at `startTask`: exclusion then fails. */
  lemma {:induction false} TwoCallsBothAdmitted(s: State, p: string, k1: Kind, k2: Kind)
    requires Guarded(k1) && Guarded(k2) && p !in s.table.activeTasks
    ensures var s' := Run(s, [Begin(k1, p), Begin(k2, p)]);
      !ExclusionSurvivesAwaits(s', p)
  {
    var s1 := Apply(s, Begin(k1, p));
    var s2 := Apply(s1, Begin(k2, p));
    assert [Begin(k1, p), Begin(k2, p)] == [Begin(k1, p)] + [Begin(k2, p)];
    RunAppend(s, [Begin(k1, p)], [Begin(k2, p)]);
    RunOne(s, Begin(k1, p));
    RunOne(s1, Begin(k2, p));
    assert Busy(s2, s.next, p) && Busy(s2, s1.next, p);
    ExclusionIff(s2, p);
  }

  /** A restore never asks `canStart`, and its `endTask` removes the entry of the
      operation it overlaps, so the next call is admitted beside it. */
  lemma {:induction false} RestoreOpensTheDoor(s: State, id: nat, p: string, kind: Kind)
    requires Sound(s) && IsRunning(s, id, p) && Guarded(kind)
    ensures var es := [Begin(RestoreOp, p), Advance(s.next), Advance(s.next), Advance(s.next), Begin(kind, p)];
      !ExclusionSurvivesAwaits(Run(s, es), p)
  {
    var r := s.next;
    var s1 := Apply(s, Begin(RestoreOp, p));
    var s2 := Apply(s1, Advance(r));
    var s3 := Apply(s2, Advance(r));
    var s4 := Apply(s3, Advance(r));
    assert p !in s4.table.activeTasks;
    var s5 := Apply(s4, Begin(kind, p));
    var es := [Begin(RestoreOp, p), Advance(r), Advance(r), Advance(r), Begin(kind, p)];
    RunFive(s, es);
    assert Busy(s5, id, p) && Busy(s5, s4.next, p) && id != s4.next;
    ExclusionIff(s5, p);
  }

  lemma RunFive(s: State, e: seq<Event>)
    requires |e| == 5
    ensures Run(s, e) == Apply(Apply(Apply(Apply(Apply(s, e[0]), e[1]), e[2]), e[3]), e[4])
  {
    RunFrom(s, e, 0);
    var s1 := Apply(s, e[0]); RunFrom(s1, e, 1);
    var s2 := Apply(s1, e[1]); RunFrom(s2, e, 2);
    var s3 := Apply(s2, e[2]); RunFrom(s3, e, 3);
    RunFrom(Apply(s3, e[3]), e, 4);
  }

  lemma RunFrom(s: State, e: seq<Event>, i: nat)
    requires i < |e|
    ensures Run(s, e[i..]) == Run(Apply(s, e[i]), e[i + 1..])
    ensures e[0..] == e && e[|e|..] == []
  {
    assert e[i..][1..] == e[i + 1..];
  }
}
