/** What cancelling a schedule run reaches. */
module ScheduleCancellation {
  import opened Prelude
  import opened RunningTasks
  import opened TaskLifecycle
  import opened TaskSafety
  import opened ScheduleRuns

  // ---- No further backup ----------------------------------------------------------

  /** After its signal has fired a run starts no further backup. */
  lemma {:induction false} CancelledStartsNoMore(s: State, es: seq<Event>, id: nat)
    requires id in s.ticks && id < s.next && id in s.table.aborted && s.ticks[id].stage !in {Reading, Marking}
    ensures id in Run(s, es).ticks && Run(s, es).ticks[id].children == s.ticks[id].children
    decreases |es|
  {
    if es != [] {
      CancelledStep(s, es[0], id);
      CancelledStartsNoMore(Apply(s, es[0]), es[1..], id);
    }
  }

  lemma CancelledOwn(s: State, id: nat)
    requires id in s.ticks && id in s.table.aborted && s.ticks[id].stage !in {Reading, Marking}
    ensures id in StepTick(s, id).ticks && StepTick(s, id).ticks[id].stage !in {Reading, Marking}
    ensures StepTick(s, id).ticks[id].children == s.ticks[id].children
  {
  }

  lemma CancelledTick(s: State, o: nat, id: nat)
    requires o in s.ticks && id in s.ticks && id in s.table.aborted && s.ticks[id].stage !in {Reading, Marking}
    ensures var s' := StepTick(s, o);
      && id in s'.ticks && s.next <= s'.next && id in s'.table.aborted && s'.ticks[id].stage !in {Reading, Marking}
      && s'.ticks[id].children == s.ticks[id].children
  {
    StepIsOwn(s, o);
    if o == id { CancelledOwn(s, id); }
  }

  lemma CancelledStep(s: State, e: Event, id: nat)
    requires id in s.ticks && id < s.next && id in s.table.aborted && s.ticks[id].stage !in {Reading, Marking}
    ensures var s' := Apply(s, e);
      && id in s'.ticks && id < s'.next && id in s'.table.aborted && s'.ticks[id].stage !in {Reading, Marking}
      && s'.ticks[id].children == s.ticks[id].children
  {
    if e.TickStep? && e.id in s.ticks { CancelledTick(s, e.id, id); }
  }

  // ---- Who listens ------------------------------------------------------------------

  /** `startTask` has been called. */
  predicate HasStarted(stage: Stage) {
    stage == Running || stage.Settled?
  }

  /** Operations that a run started come after it; a controller that listens is
      such an operation's, listens to its run and has been handed out; an aborted
      one is a run's or has been handed out. */
  ghost predicate Linkage(s: State) {
    && (forall c | c in s.ops && s.ops[c].tick.Some? :: s.ops[c].tick.value in s.ticks && s.ops[c].tick.value < c)
    && (forall c | c in s.table.linked :: c in s.ops && s.ops[c].tick == Some(s.table.linked[c]) && HasStarted(s.ops[c].stage))
    && (forall c | c in s.table.aborted ::
          (c in s.ticks && s.ticks[c].stage !in {Reading, Marking}) || (c in s.ops && HasStarted(s.ops[c].stage)))
  }

  ghost predicate Sane(s: State) {
    Sound(s) && Linkage(s)
  }

  lemma {:induction false} LinkageMove(s: State, id: nat, stage: Stage)
    requires Sane(s) && id in s.ops
    requires stage in {NextStage(s.ops[id].kind, s.ops[id].stage), FailedStage(s.ops[id].stage)}
    ensures Linkage(Move(s, id, stage))
  {
  }

  /** A step never goes back before `startTask`. */
  lemma {:induction false} TickStage(s: State, id: nat)
    requires id in s.ticks
    ensures id in StepTick(s, id).ticks
    ensures StepTick(s, id).ticks[id].stage in {Reading, Marking} ==> s.ticks[id].stage in {Reading, Marking}
  {
  }

  lemma {:induction false} LinkageOwn(s: State, s': State, id: nat)
    requires Sane(s) && id in s.ticks && OwnStep(s, s', id)
    requires s'.ticks[id].stage in {Reading, Marking} ==> s.ticks[id].stage in {Reading, Marking}
    ensures Linkage(s')
  {
  }

  lemma {:induction false} LinkageTick(s: State, id: nat)
    requires Sane(s) && id in s.ticks
    ensures Linkage(StepTick(s, id))
  {
    StepIsOwn(s, id);
    TickStage(s, id);
    LinkageOwn(s, StepTick(s, id), id);
  }

  lemma {:induction false} LinkageCancel(s: State, key: string)
    requires Sane(s) && key in s.table.controllers
    ensures Linkage(s.(table := Abort(s.table, s.table.controllers[key])))
  {
    assert Live(s, s.table.controllers[key], key);
  }

  lemma {:induction false} LinkageStep(s: State, e: Event)
    requires Sane(s)
    ensures Linkage(Apply(s, e))
  {
    match e
    case Advance(id) => if id in s.ops { LinkageMove(s, id, NextStage(s.ops[id].kind, s.ops[id].stage)); }
    case Fail(id) => if id in s.ops { LinkageMove(s, id, FailedStage(s.ops[id].stage)); }
    case TickStep(id) => if id in s.ticks { LinkageTick(s, id); }
    case CancelKey(key) => if key in s.table.controllers { LinkageCancel(s, key); }
    case _ =>
  }

  lemma {:induction false} SaneRun(s: State, es: seq<Event>)
    requires Sane(s)
    ensures Sane(Run(s, es))
    decreases |es|
  {
    if es != [] {
      SoundStep(s, es[0]);
      LinkageStep(s, es[0]);
      SaneRun(Apply(s, es[0]), es[1..]);
    }
  }

  // ---- What an operation has done so far ---------------------------------------------

  /** At some moment of the run operation `c` was between `startTask` and `endTask`. */
  ghost predicate StartedIn(es: seq<Event>, c: nat) {
    exists n :: 0 <= n <= |es| && RunsAt(es[..n], c)
  }

  ghost predicate RunsAt(es: seq<Event>, c: nat) {
    c in Run(EMPTY, es).ops && Run(EMPTY, es).ops[c].stage == Running
  }

  /** The stage remembers whether `startTask` was called unless the task is over;
      the table remembers it for a run's child as long as its run is not aborted. */
  ghost predicate Remembered(s: State, c: nat, started: bool) {
    && c in s.ops
    && (started ==> HasStarted(s.ops[c].stage))
    && (s.ops[c].stage == Running ==> started)
    && (c in s.table.aborted || c in s.table.linked ==> started)
    && (started && s.ops[c].tick.Some? && s.ops[c].tick.value !in s.table.aborted ==> c in s.table.linked)
  }

  lemma {:induction false} StartedSnoc(es: seq<Event>, e: Event, c: nat)
    ensures StartedIn(es + [e], c) <==> StartedIn(es, c) || RunsAt(es + [e], c)
  {
    if n :| 0 <= n <= |es| && RunsAt(es[..n], c) {
      assert (es + [e])[..n] == es[..n];
    }
    if n :| 0 <= n <= |es + [e]| && RunsAt((es + [e])[..n], c) {
      if n <= |es| { assert (es + [e])[..n] == es[..n]; } else { assert (es + [e])[..n] == es + [e]; }
    }
    if RunsAt(es + [e], c) { assert (es + [e])[..|es| + 1] == es + [e]; }
  }

  lemma {:induction false} RememberedMove(s: State, id: nat, stage: Stage, c: nat, started: bool)
    requires Sane(s) && id in s.ops && Remembered(s, c, started)
    requires stage in {NextStage(s.ops[id].kind, s.ops[id].stage), FailedStage(s.ops[id].stage)}
    ensures var s' := Move(s, id, stage); c in s'.ops && Remembered(s', c, started || s'.ops[c].stage == Running)
  {
  }

  lemma {:induction false} RememberedCancel(s: State, key: string, c: nat, started: bool)
    requires Sane(s) && key in s.table.controllers && Remembered(s, c, started)
    ensures Remembered(s.(table := Abort(s.table, s.table.controllers[key])), c, started)
  {
    var a := s.table.controllers[key];
    assert Live(s, a, key);
    if Hears(s.table.linked, c, a) && c != a { assert c in s.table.linked; }
  }

  lemma {:induction false} RememberedStep(s: State, e: Event, c: nat, started: bool)
    requires Sane(s) && Remembered(s, c, started)
    ensures var s' := Apply(s, e); c in s'.ops && Remembered(s', c, started || s'.ops[c].stage == Running)
  {
    match e
    case Advance(id) => if id in s.ops { RememberedMove(s, id, NextStage(s.ops[id].kind, s.ops[id].stage), c, started); }
    case Fail(id) => if id in s.ops { RememberedMove(s, id, FailedStage(s.ops[id].stage), c, started); }
    case TickStep(id) =>
      if id in s.ticks {
        TickOp(s, id, c);
        TickTable(s, id);
      }
    case CancelKey(key) => if key in s.table.controllers { RememberedCancel(s, key, c, started); }
    case _ =>
  }

  lemma {:induction false} RememberedNew(s: State, e: Event, c: nat)
    requires Sane(s) && c !in s.ops && c in Apply(s, e).ops
    ensures Remembered(Apply(s, e), c, false)
  {
    if e.TickStep? {
      TickOp(s, e.id, c);
      TickTable(s, e.id);
    }
  }

  /** Every operation of every run. */
  lemma {:induction false} RememberedRun(es: seq<Event>)
    ensures Sane(Run(EMPTY, es))
    ensures forall c | c in Run(EMPTY, es).ops :: Remembered(Run(EMPTY, es), c, StartedIn(es, c))
    decreases |es|
  {
    SaneRun(EMPTY, es);
    if es != [] {
      var before, e := es[..|es| - 1], es[|es| - 1];
      assert es == before + [e];
      RememberedRun(before);
      RunAppend(EMPTY, before, [e]);
      RunOne(Run(EMPTY, before), e);
      forall c | c in Run(EMPTY, es).ops ensures Remembered(Run(EMPTY, es), c, StartedIn(es, c)) {
        StartedSnoc(before, e, c);
        RememberedLast(before, e, c);
      }
    }
  }

  lemma {:induction false} RememberedLast(before: seq<Event>, e: Event, c: nat)
    requires Sane(Run(EMPTY, before)) && c in Apply(Run(EMPTY, before), e).ops
    requires c in Run(EMPTY, before).ops ==> Remembered(Run(EMPTY, before), c, StartedIn(before, c))
    ensures var s' := Apply(Run(EMPTY, before), e);
      Remembered(s', c, StartedIn(before, c) || s'.ops[c].stage == Running)
  {
    var s := Run(EMPTY, before);
    if c in s.ops {
      RememberedStep(s, e, c, StartedIn(before, c));
    } else {
      RememberedNew(s, e, c);
      NotYet(before, c);
    }
  }

  /** An operation that is not there has never been. */
  lemma {:induction false} NotYet(es: seq<Event>, c: nat)
    requires c !in Run(EMPTY, es).ops
    ensures !StartedIn(es, c)
  {
    if n :| 0 <= n <= |es| && RunsAt(es[..n], c) {
      assert es == es[..n] + es[n..];
      RunAppend(EMPTY, es[..n], es[n..]);
      SaneRun(EMPTY, es[..n]);
      OpStays(Run(EMPTY, es[..n]), es[n..], c);
    }
  }

  lemma {:induction false} OpStays(s: State, es: seq<Event>, c: nat)
    requires Sane(s) && c in s.ops
    ensures c in Run(s, es).ops && Run(s, es).ops[c] == s.ops[c].(stage := Run(s, es).ops[c].stage)
    decreases |es|
  {
    if es != [] {
      SoundStep(s, es[0]);
      LinkageStep(s, es[0]);
      OverIsFinal(s, es[0], c);
      OpStays(Apply(s, es[0]), es[1..], c);
    }
  }

  // ---- Exactly whom a cancellation reaches -----------------------------------------------

  lemma {:induction false} AbortedStays(s: State, es: seq<Event>, c: nat)
    requires c in s.table.aborted
    ensures c in Run(s, es).table.aborted
    decreases |es|
  {
    if es != [] {
      AbortedStep(s, es[0], c);
      AbortedStays(Apply(s, es[0]), es[1..], c);
    }
  }

  lemma {:induction false} AbortedStep(s: State, e: Event, c: nat)
    requires c in s.table.aborted
    ensures c in Apply(s, e).table.aborted
  {
    if e.TickStep? && e.id in s.ticks { TickTable(s, e.id); }
  }

  /** A child of an aborted run that neither listens nor is aborted. */
  ghost predicate Deaf(s: State, child: nat, id: nat) {
    && child in s.ops && s.ops[child].tick == Some(id) && id in s.table.aborted
    && child !in s.table.linked && child !in s.table.aborted
  }

  lemma {:induction false} DeafStep(s: State, e: Event, child: nat, id: nat)
    requires Sane(s) && Deaf(s, child, id) && e != CancelKey(s.ops[child].key)
    ensures Deaf(Apply(s, e), child, id) && Apply(s, e).ops[child].key == s.ops[child].key
  {
    AbortedStep(s, e, id);
    OverIsFinal(s, e, child);
    if e.TickStep? && e.id in s.ticks { TickTable(s, e.id); }
    if e.CancelKey? && e.key in s.table.controllers { assert Live(s, s.table.controllers[e.key], e.key); }
  }

  lemma {:induction false} DeafRun(s: State, es: seq<Event>, child: nat, id: nat)
    requires Sane(s) && Deaf(s, child, id) && CancelKey(s.ops[child].key) !in es
    ensures child !in Run(s, es).table.aborted
    decreases |es|
  {
    if es != [] {
      assert es[0] in es;
      DeafStep(s, es[0], child, id);
      SoundStep(s, es[0]);
      LinkageStep(s, es[0]);
      DeafRun(Apply(s, es[0]), es[1..], child, id);
    }
  }

  /** Run `id` is cancelled for the first time by `CancelKey(key)`. */
  predicate Fires(s: State, key: string, id: nat) {
    key in s.table.controllers && s.table.controllers[key] == id && id in s.ticks && id !in s.table.aborted
  }

  /** In every run from nothing: when a schedule run is cancelled, a backup it has
      started is aborted, then and in every continuation without a cancellation
      under the backup's own key, if and only if that backup had already called
      `startTask`. */
  lemma {:induction false} CancelAbortsExactlyStarted(es: seq<Event>, key: string, id: nat, child: nat, fs: seq<Event>)
    requires Fires(Run(EMPTY, es), key, id)
    requires child in Run(EMPTY, es).ops && Run(EMPTY, es).ops[child].tick == Some(id)
    requires CancelKey(Run(EMPTY, es).ops[child].key) !in fs
    ensures child in Run(Apply(Run(EMPTY, es), CancelKey(key)), fs).table.aborted <==> StartedIn(es, child)
  {
    RememberedRun(es);
    var s := Run(EMPTY, es);
    var s1 := Apply(s, CancelKey(key));
    assert Remembered(s, child, StartedIn(es, child));
    if StartedIn(es, child) {
      assert Hears(s.table.linked, child, id);
      AbortedStays(s1, fs, child);
    } else {
      SoundStep(s, CancelKey(key));
      LinkageStep(s, CancelKey(key));
      DeafRun(s1, fs, child, id);
    }
  }

  /** For a backup that is not over this can be read off its stage: one between
      `startTask` and `endTask` is aborted, one still being admitted never is. */
  lemma {:induction false} CancelByStage(es: seq<Event>, key: string, id: nat, child: nat, fs: seq<Event>)
    requires Fires(Run(EMPTY, es), key, id)
    requires child in Run(EMPTY, es).ops && Run(EMPTY, es).ops[child].tick == Some(id)
    requires CancelKey(Run(EMPTY, es).ops[child].key) !in fs
    requires Run(EMPTY, es).ops[child].stage in {Preparing, Logging, Announcing, Running}
    ensures child in Run(Apply(Run(EMPTY, es), CancelKey(key)), fs).table.aborted <==> Run(EMPTY, es).ops[child].stage == Running
  {
    RememberedRun(es);
    assert Remembered(Run(EMPTY, es), child, StartedIn(es, child));
    CancelAbortsExactlyStarted(es, key, id, child, fs);
  }
}
