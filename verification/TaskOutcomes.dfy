/** How operations end, told by the events of the run alone, and what a schedule
    run records of its backups. */
module TaskOutcomes {
  import opened RunningTasks
  import opened TaskLifecycle
  import opened TaskSafety
  import opened ScheduleRuns

  // ---- What happened to an operation --------------------------------------------------

  predicate StageAt(es: seq<Event>, c: nat, stage: Stage) {
    c in Run(EMPTY, es).ops && Run(EMPTY, es).ops[c].stage == stage
  }

  predicate HappenedAt(es: seq<Event>, n: nat, e: Event, c: nat, stage: Stage)
    requires n < |es|
  {
    es[n] == e && StageAt(es[..n], c, stage)
  }

  /** At some moment of the run event `e` found operation `c` in this stage. */
  ghost predicate Happened(es: seq<Event>, e: Event, c: nat, stage: Stage) {
    exists n :: 0 <= n < |es| && HappenedAt(es, n, e, c, stage)
  }

  /** Operation `c` is called by event `n`, asks `canStart` and its key has an entry. */
  ghost predicate TurnedAwayAt(es: seq<Event>, n: nat, c: nat)
    requires n < |es|
  {
    && c !in Run(EMPTY, es[..n]).ops && c in Run(EMPTY, es[..n + 1]).ops
    && var op := Run(EMPTY, es[..n + 1]).ops[c];
      op.kind in {BackupOp, PruneOp, ForgetOp} && op.key in Run(EMPTY, es[..n + 1]).table.activeTasks
  }

  ghost predicate TurnedAway(es: seq<Event>, c: nat) {
    exists n :: 0 <= n < |es| && TurnedAwayAt(es, n, c)
  }

  /** A task resolves exactly by an await that succeeds between `startTask` and
      `endTask` and rejects by one that throws there or just before `startTask`. A
      call throws when its key has an entry or a read fails, and its promise never
      settles when its run cannot be logged. */
  ghost predicate Ended(es: seq<Event>, c: nat)
    requires c in Run(EMPTY, es).ops
  {
    var stage := Run(EMPTY, es).ops[c].stage;
    && (stage == Settled(true) <==> Happened(es, Advance(c), c, Running))
    && (stage == Settled(false) <==> Happened(es, Fail(c), c, Running) || Happened(es, Fail(c), c, Announcing))
    && (stage == Rejected <==> Happened(es, Fail(c), c, Preparing) || TurnedAway(es, c))
    && (stage == Lost <==> Happened(es, Fail(c), c, Logging))
  }

  lemma {:induction false} HappenedEarlier(es: seq<Event>, last: Event, n: nat, e: Event, c: nat, stage: Stage)
    requires n < |es|
    ensures HappenedAt(es + [last], n, e, c, stage) <==> HappenedAt(es, n, e, c, stage)
  {
    assert (es + [last])[..n] == es[..n];
  }

  lemma {:induction false} HappenedLast(es: seq<Event>, last: Event, e: Event, c: nat, stage: Stage)
    ensures HappenedAt(es + [last], |es|, e, c, stage) <==> e == last && StageAt(es, c, stage)
  {
    assert (es + [last])[..|es|] == es;
  }

  lemma {:induction false} HappenedSnoc(es: seq<Event>, last: Event, e: Event, c: nat, stage: Stage)
    ensures Happened(es + [last], e, c, stage) <==> Happened(es, e, c, stage) || (e == last && StageAt(es, c, stage))
  {
    var all := es + [last];
    HappenedLast(es, last, e, c, stage);
    if n :| 0 <= n < |es| && HappenedAt(es, n, e, c, stage) { HappenedEarlier(es, last, n, e, c, stage); }
    if n :| 0 <= n < |all| && HappenedAt(all, n, e, c, stage) {
      if n < |es| { HappenedEarlier(es, last, n, e, c, stage); }
    }
  }

  lemma {:induction false} TurnedAwaySnoc(es: seq<Event>, last: Event, c: nat)
    ensures TurnedAway(es + [last], c) <==> TurnedAway(es, c) || TurnedAwayAt(es + [last], |es|, c)
  {
    var all := es + [last];
    forall n | 0 <= n < |es| ensures TurnedAwayAt(all, n, c) <==> TurnedAwayAt(es, n, c) {
      assert all[..n] == es[..n] && all[..n + 1] == es[..n + 1];
    }
    if n :| 0 <= n < |es| && TurnedAwayAt(es, n, c) { assert TurnedAwayAt(all, n, c); }
    if n :| 0 <= n < |all| && TurnedAwayAt(all, n, c) { assert n < |es| ==> TurnedAwayAt(es, n, c); }
  }

  /** Nothing has happened to an operation that is not there. */
  ghost predicate Untouched(es: seq<Event>, c: nat) {
    !TurnedAway(es, c) && forall e, stage :: !Happened(es, e, c, stage)
  }

  lemma {:induction false} NewIsUntouched(es: seq<Event>, c: nat)
    requires c !in Run(EMPTY, es).ops
    ensures Untouched(es, c)
    decreases |es|
  {
    if es != [] {
      var before, last := es[..|es| - 1], es[|es| - 1];
      assert es == before + [last];
      RunAppend(EMPTY, before, [last]);
      RunOne(Run(EMPTY, before), last);
      RegularRun(EMPTY, before);
      if c in Run(EMPTY, before).ops { OpsKept(Run(EMPTY, before), last, c); }
      NewIsUntouched(before, c);
      TurnedAwaySnoc(before, last, c);
      assert es[..|es| - 1 + 1] == es;
      forall e, stage ensures !Happened(es, e, c, stage) { HappenedSnoc(before, last, e, c, stage); }
    }
  }

  /** A new operation is turned away exactly when it asks and its key has an entry. */
  lemma {:induction false} BornIs(s: State, e: Event, c: nat)
    requires Regular(s) && c !in s.ops && c in Apply(s, e).ops
    ensures var op := Apply(s, e).ops[c];
      && (op.stage == Rejected <==> op.kind in {BackupOp, PruneOp, ForgetOp} && op.key in Apply(s, e).table.activeTasks)
      && op.stage in {Preparing, Logging, Rejected}
  {
    if e.TickStep? { ChildBorn(s, e.id, c); }
  }

  lemma {:induction false} ChildBorn(s: State, id: nat, c: nat)
    requires id in s.ticks && c !in s.ops && c in StepTick(s, id).ops
    ensures var op := StepTick(s, id).ops[c];
      op.kind == BackupOp && op.stage == if op.key in StepTick(s, id).table.activeTasks then Rejected else Preparing
  {
  }

  /** What the last event adds to the history of operation `c`. */
  lemma {:induction false} LastEvent(before: seq<Event>, last: Event, c: nat)
    ensures var es := before + [last];
      && Run(EMPTY, es) == Apply(Run(EMPTY, before), last) && Regular(Run(EMPTY, before))
      && (forall e, stage :: Happened(es, e, c, stage) <==> Happened(before, e, c, stage) || (e == last && StageAt(before, c, stage)))
      && (TurnedAway(es, c) <==> TurnedAway(before, c) || TurnedAwayAt(es, |before|, c))
  {
    RunAppend(EMPTY, before, [last]);
    RunOne(Run(EMPTY, before), last);
    RegularRun(EMPTY, before);
    forall e, stage ensures Happened(before + [last], e, c, stage) <==> Happened(before, e, c, stage) || (e == last && StageAt(before, c, stage)) {
      HappenedSnoc(before, last, e, c, stage);
    }
    TurnedAwaySnoc(before, last, c);
  }

  lemma {:induction false} EndedStep(before: seq<Event>, last: Event, c: nat)
    requires c in Run(EMPTY, before).ops && Ended(before, c)
    ensures c in Run(EMPTY, before + [last]).ops && Ended(before + [last], c)
  {
    LastEvent(before, last, c);
    OpsKept(Run(EMPTY, before), last, c);
    assert !TurnedAwayAt(before + [last], |before|, c) by { assert (before + [last])[..|before|] == before; }
  }

  lemma {:induction false} EndedNew(before: seq<Event>, last: Event, c: nat)
    requires c !in Run(EMPTY, before).ops && c in Run(EMPTY, before + [last]).ops
    ensures Ended(before + [last], c)
  {
    LastEvent(before, last, c);
    NewIsUntouched(before, c);
    BornIs(Run(EMPTY, before), last, c);
    assert (before + [last])[..|before|] == before && (before + [last])[..|before| + 1] == before + [last];
  }

  /** In every run from nothing: how every operation ended. */
  lemma {:induction false} HowOperationsEnd(es: seq<Event>, c: nat)
    requires c in Run(EMPTY, es).ops
    ensures Ended(es, c)
    decreases |es|
  {
    var before, last := es[..|es| - 1], es[|es| - 1];
    assert es == before + [last];
    if c in Run(EMPTY, before).ops {
      HowOperationsEnd(before, c);
      EndedStep(before, last, c);
    } else {
      EndedNew(before, last, c);
    }
  }

  // ---- What a schedule run records -----------------------------------------------------

  /** Slot `slot` has the backup of its repository, which is over, and shows Complete
      exactly when the run holds the await with which the backup's task resolved. */
  ghost predicate Reported(es: seq<Event>, id: nat, slot: nat) {
    var s := Run(EMPTY, es);
    && IsChild(s, id, slot) && slot < |s.ticks[id].status|
    && var c, status := s.ticks[id].children[slot], s.ticks[id].status[slot];
      && Over(s.ops[c].stage)
      && (status == Complete <==> Happened(es, Advance(c), c, Running))
      && (status == Failed <==> !Happened(es, Advance(c), c, Running))
  }

  /** The final status list of a run that reached its `endTask`: a settled prefix,
      Complete exactly where that slot's backup resolved and Failed elsewhere, then
      Incomplete, and something is Incomplete only if the run was cancelled. */
  lemma {:induction false} FinalStatus(es: seq<Event>, id: nat)
    requires var s := Run(EMPTY, es); id in s.ticks && s.ticks[id].stage == Finished
    ensures var s := Run(EMPTY, es); var t := s.ticks[id];
      && |t.status| == |t.repositories|
      && (forall i | 0 <= i < |t.children| :: Reported(es, id, i))
      && (forall i | |t.children| <= i < |t.status| :: t.status[i] == Incomplete)
      && (Incomplete in t.status ==> id in s.table.aborted)
  {
    RegularRun(EMPTY, es);
    var s := Run(EMPTY, es);
    assert TickShape(s, id);
    forall i | 0 <= i < |s.ticks[id].children| ensures Reported(es, id, i) {
      assert IsChild(s, id, i) && Recorded(s, s.ticks[id], i);
      HowOperationsEnd(es, s.ticks[id].children[i]);
    }
    if Incomplete in s.ticks[id].status {
      var i :| 0 <= i < |s.ticks[id].status| && s.ticks[id].status[i] == Incomplete;
      assert i < |s.ticks[id].children| ==> Reported(es, id, i);
    }
  }
}
