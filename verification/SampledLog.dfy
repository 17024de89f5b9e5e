/** The sampled log writer: status events are dropped unless a second has passed
    or progress has moved by one hundredth. Percentages are reals; the writer
    reads the clock once to decide and once more to remember. */
module SampledLog {
  import opened Prelude

  datatype Event = Event(messageType: string, percentDone: Option<real>)

  /** An event with the two clock readings (ms) and the stream's state at its time. */
  datatype Input = Input(event: Event, now: int, later: int, writable: bool)

  datatype Memory = Memory(lastAt: int, lastPercent: real)

  const START := Memory(0, -1.0)

  function Abs(x: real): real {
    if x < 0.0 then -x else x
  }

  predicate IsStatus(i: Input) {
    i.event.messageType == "status"
  }

  function Percent(i: Input): real {
    match i.event.percentDone case Some(p) => p case None => 0.0
  }

  /** A status event below 100% that is close in time and progress to the last
      written one. */
  predicate Sampled(m: Memory, i: Input) {
    IsStatus(i) && Percent(i) < 1.0 && i.now - m.lastAt < 1000 && Abs(Percent(i) - m.lastPercent) < 0.01
  }

  /** A status below 100%. */
  predicate InProgress(e: Event) {
    e.messageType == "status" && match e.percentDone case Some(p) => p < 1.0 case None => true
  }

  predicate Writes(m: Memory, i: Input) {
    i.writable && !Sampled(m, i)
  }

  function After(m: Memory, i: Input): Memory {
    if Writes(m, i) && IsStatus(i) then Memory(i.later, Percent(i)) else m
  }

  function AfterAll(m: Memory, es: seq<Input>): Memory
    decreases |es|
  {
    if es == [] then m else AfterAll(After(m, es[0]), es[1..])
  }

  /** What ends up in the stream. */
  function Output(m: Memory, es: seq<Input>): seq<Event>
    decreases |es|
  {
    if es == [] then []
    else (if Writes(m, es[0]) then [es[0].event] else []) + Output(After(m, es[0]), es[1..])
  }

  class SampledLogWriter {
    var lastAt: int
    var lastPercent: real
    var stream: seq<Event>

    constructor ()
      ensures Memory(lastAt, lastPercent) == START && stream == []
    {
      lastAt, lastPercent, stream := 0, -1.0, [];
    }

    method Write(i: Input)
      modifies this
      ensures Memory(lastAt, lastPercent) == After(old(Memory(lastAt, lastPercent)), i)
      ensures stream == old(stream) + Output(old(Memory(lastAt, lastPercent)), [i])
      ensures stream == old(stream) + [i.event] || (stream == old(stream) && lastAt == old(lastAt) && lastPercent == old(lastPercent))
      ensures stream == old(stream) <==>
        !i.writable || (InProgress(i.event) && i.now - old(lastAt) < 1000 && Abs(Percent(i) - old(lastPercent)) < 0.01)
      ensures stream != old(stream) && i.event.messageType == "status" ==> lastAt == i.later && lastPercent == Percent(i)
    {
      assert Output(Memory(lastAt, lastPercent), [i]) == if Writes(Memory(lastAt, lastPercent), i) then [i.event] else [];
      if !i.writable {
        return;
      }
      if i.event.messageType == "status" {
        var percent := match i.event.percentDone case Some(p) => p case None => 0.0;
        if percent < 1.0 && i.now - lastAt < 1000 && Abs(percent - lastPercent) < 0.01 {
          return;
        }
        lastAt := i.later;
        lastPercent := percent;
      }
      stream := stream + [i.event];
    }
  }

  // ---- The amortised bound -----------------------------------------------------

  /** Clock readings never go back, within an event or between events. */
  predicate Clocked(es: seq<Input>) {
    && (forall k | 0 <= k < |es| :: es[k].now <= es[k].later)
    && (forall j, k | 0 <= j < k < |es| :: es[j].later <= es[k].now)
  }

  /** How many status events below 100% end up in the stream. */
  function Count(m: Memory, es: seq<Input>): nat {
    |Filter(Output(m, es), InProgress)|
  }

  lemma {:induction false} CountCons(m: Memory, es: seq<Input>)
    requires es != []
    ensures Count(m, es) == (if Writes(m, es[0]) && InProgress(es[0].event) then 1 else 0) + Count(After(m, es[0]), es[1..])
  {
    var first := if Writes(m, es[0]) then [es[0].event] else [];
    FilterAppend(first, Output(After(m, es[0]), es[1..]), InProgress);
    if first != [] { assert first[1..] == []; }
  }

  /** The total variation of the percentages of the status events, from `p` on. */
  function Variation(p: real, es: seq<Input>): real
    decreases |es|
  {
    if es == [] then 0.0
    else if IsStatus(es[0]) then Abs(Percent(es[0]) - p) + Variation(Percent(es[0]), es[1..])
    else Variation(p, es[1..])
  }

  /** The variation between the first status event and the last. */
  function TotalVariation(es: seq<Input>): real {
    if es == [] then 0.0
    else if IsStatus(es[0]) then Variation(Percent(es[0]), es[1..])
    else TotalVariation(es[1..])
  }

  /** Going through `q` on the way is no shorter. */
  lemma {:induction false} VariationTriangle(p: real, q: real, es: seq<Input>)
    ensures Variation(p, es) <= Abs(p - q) + Variation(q, es)
    decreases |es|
  {
    if es != [] && !IsStatus(es[0]) { VariationTriangle(p, q, es[1..]); }
  }

  lemma {:induction false} VariationNonNegative(p: real, es: seq<Input>)
    ensures Variation(p, es) >= 0.0
    decreases |es|
  {
    if es != [] { VariationNonNegative(if IsStatus(es[0]) then Percent(es[0]) else p, es[1..]); }
  }

  lemma {:induction false} TotalNonNegative(es: seq<Input>)
    ensures TotalVariation(es) >= 0.0
  {
    if es != [] {
      if IsStatus(es[0]) { VariationNonNegative(Percent(es[0]), es[1..]); } else { TotalNonNegative(es[1..]); }
    }
  }

  /** From a memory left by a written event, every further write is paid for by a
      second of time or a hundredth of movement. */
  lemma {:induction false} BoundFrom(m: Memory, es: seq<Input>, end: int)
    requires Clocked(es) && m.lastAt <= end
    requires forall k | 0 <= k < |es| :: m.lastAt <= es[k].now && es[k].later <= end
    ensures |Filter(Output(m, es), InProgress)| as real <= (end - m.lastAt) as real / 1000.0 + 100.0 * Variation(m.lastPercent, es)
    decreases |es|
  {
    if es != [] {
      var i, rest := es[0], es[1..];
      var m' := After(m, i);
      assert forall k | 0 <= k < |rest| :: rest[k] == es[k + 1];
      CountCons(m, es);
      BoundFrom(m', rest, end);
      if IsStatus(i) && !Writes(m, i) {
        VariationTriangle(m.lastPercent, Percent(i), rest);
      } else if IsStatus(i) && Percent(i) < 1.0 {
        Paid(m, i, end);
      }
    }
  }

  lemma Paid(m: Memory, i: Input, end: int)
    requires m.lastAt <= i.now <= i.later <= end
    requires Writes(m, i) && IsStatus(i) && Percent(i) < 1.0
    ensures 1.0 + (end - i.later) as real / 1000.0 <=
      (end - m.lastAt) as real / 1000.0 + 100.0 * Abs(Percent(i) - m.lastPercent)
  {
    if i.now - m.lastAt >= 1000 {
      assert end - i.later <= end - m.lastAt - 1000;
    } else {
      assert Abs(Percent(i) - m.lastPercent) >= 0.01;
    }
  }

  /** For every list of events with a clock that never goes back, the number of
      status events below 100% in the stream is at most one, plus one per elapsed second,
      plus one per hundredth of total movement. */
  lemma {:induction false} WritesAreBounded(m: Memory, es: seq<Input>)
    requires Clocked(es) && es != []
    ensures |Filter(Output(m, es), InProgress)| as real <= 1.0 + (es[|es| - 1].later - es[0].now) as real / 1000.0 + 100.0 * TotalVariation(es)
    decreases |es|
  {
    var i, rest := es[0], es[1..];
    var end := es[|es| - 1].later;
    assert forall k | 0 <= k < |rest| :: rest[k] == es[k + 1];
    CountCons(m, es);
    TotalNonNegative(rest);
    VariationNonNegative(Percent(i), rest);
    if Writes(m, i) && IsStatus(i) {
      BoundFrom(After(m, i), rest, end);
    } else if rest != [] {
      WritesAreBounded(m, rest);
      if IsStatus(i) { DropFirst(Percent(i), rest); }
    }
  }

  lemma {:induction false} DropFirst(p: real, es: seq<Input>)
    ensures TotalVariation(es) <= Variation(p, es)
    decreases |es|
  {
    if es != [] && !IsStatus(es[0]) { DropFirst(p, es[1..]); }
  }

  // ---- What is dropped and what is kept ------------------------------------------

  predicate MustKeep(e: Event) {
    !InProgress(e)
  }

  function Events(es: seq<Input>): seq<Event> {
    if es == [] then [] else [es[0].event] + Events(es[1..])
  }

  /** Events that are not status events, and status events at 100% or above, are
      all written, in order. */
  lemma {:induction false} OthersAreKeptInOrder(m: Memory, es: seq<Input>)
    requires forall i | i in es :: i.writable
    ensures Filter(Output(m, es), MustKeep) == Filter(Events(es), MustKeep)
    decreases |es|
  {
    if es != [] {
      OthersAreKeptInOrder(After(m, es[0]), es[1..]);
      var first := if Writes(m, es[0]) then [es[0].event] else [];
      FilterAppend(first, Output(After(m, es[0]), es[1..]), MustKeep);
      FilterAppend([es[0].event], Events(es[1..]), MustKeep);
      assert es[0] in es;
      assert Filter([es[0].event], MustKeep) == if MustKeep(es[0].event) then [es[0].event] else [];
    }
  }

  // ---- The stream, told without the writer's memory --------------------------------------

  /** `ks` are the positions of the events in the stream, `j` is the last of a status
      event before position `n`. */
  ghost predicate LastStatus(es: seq<Input>, ks: seq<nat>, j: nat, n: nat) {
    && j in ks && j < n <= |es| && IsStatus(es[j])
    && forall i | i in ks && j < i < n :: !IsStatus(es[i])
  }

  ghost predicate NoStatus(es: seq<Input>, ks: seq<nat>, n: nat) {
    forall i | i in ks && i < n <= |es| :: !IsStatus(es[i])
  }

  /** Within 1000 ms and one hundredth of the last status event in the stream; the
      first one is compared with the epoch and -100%. */
  ghost predicate Near(es: seq<Input>, ks: seq<nat>, n: nat)
    requires n < |es|
  {
    || (exists j: nat :: LastStatus(es, ks, j, n) && es[n].now - es[j].later < 1000 && Abs(Percent(es[n]) - Percent(es[j])) < 0.01)
    || (NoStatus(es, ks, n) && es[n].now < 1000 && Abs(Percent(es[n]) + 1.0) < 0.01)
  }

  /** `out` is the events at the positions `ks`, in order and unchanged. */
  ghost predicate Copies(es: seq<Input>, ks: seq<nat>, out: seq<Event>) {
    && |out| == |ks|
    && (forall i, j | 0 <= i < j < |ks| :: ks[i] < ks[j])
    && (forall i | 0 <= i < |ks| :: ks[i] < |es| && out[i] == es[ks[i]].event)
  }

  /** The stream holds, in order and unchanged, all events but those of an unwritable
      stream and the status events below 100% that are near the last one in it. */
  ghost predicate Samples(es: seq<Input>, ks: seq<nat>, out: seq<Event>) {
    && Copies(es, ks, out)
    && (forall n | 0 <= n < |es| :: n in ks <==> es[n].writable && !(InProgress(es[n].event) && Near(es, ks, n)))
  }

  /** The memory is the last status event in the stream, or the initial one. */
  ghost predicate Holds(es: seq<Input>, ks: seq<nat>, m: Memory) {
    || (NoStatus(es, ks, |es|) && m == START)
    || (exists j: nat :: LastStatus(es, ks, j, |es|) && m == Memory(es[j].later, Percent(es[j])))
  }

  lemma {:induction false} AfterAllSnoc(m: Memory, es: seq<Input>, i: Input)
    ensures AfterAll(m, es + [i]) == After(AfterAll(m, es), i)
    decreases |es|
  {
    if es == [] {
      assert [] + [i] == [i];
    } else {
      assert (es + [i])[1..] == es[1..] + [i];
      AfterAllSnoc(After(m, es[0]), es[1..], i);
    }
  }

  lemma {:induction false} OutputSnoc(m: Memory, es: seq<Input>, i: Input)
    ensures Output(m, es + [i]) == Output(m, es) + if Writes(AfterAll(m, es), i) then [i.event] else []
    decreases |es|
  {
    if es == [] {
      assert [] + [i] == [i] && [i][1..] == [];
    } else {
      assert (es + [i])[1..] == es[1..] + [i];
      OutputSnoc(After(m, es[0]), es[1..], i);
    }
  }

  /** Later events change nothing for the earlier ones. */
  lemma {:induction false} NearEarlier(es: seq<Input>, i: Input, ks: seq<nat>, ks': seq<nat>, n: nat)
    requires n < |es| && (forall k | k in ks :: k < |es|) && (ks' == ks || ks' == ks + [|es|])
    ensures Near(es + [i], ks', n) <==> Near(es, ks, n)
  {
    assert forall k | 0 <= k < |es| :: (es + [i])[k] == es[k];
    assert forall k :: k in ks' && k < |es| <==> k in ks;
    forall j ensures LastStatus(es + [i], ks', j, n) <==> LastStatus(es, ks, j, n) {}
  }

  /** At the end of the stream so far near means what the memory says. */
  lemma {:induction false} NearNow(es: seq<Input>, i: Input, ks: seq<nat>, ks': seq<nat>, m: Memory)
    requires Holds(es, ks, m) && (forall k | k in ks :: k < |es|) && (ks' == ks || ks' == ks + [|es|])
    ensures Near(es + [i], ks', |es|) <==> i.now - m.lastAt < 1000 && Abs(Percent(i) - m.lastPercent) < 0.01
  {
    var all := es + [i];
    assert forall k | 0 <= k < |es| :: all[k] == es[k];
    assert forall k :: k in ks' && k < |es| <==> k in ks;
    forall j ensures LastStatus(all, ks', j, |es|) <==> LastStatus(es, ks, j, |es|) {}
    forall a, b | LastStatus(es, ks, a, |es|) && LastStatus(es, ks, b, |es|) ensures a == b {}
  }

  lemma {:induction false} HoldsNext(es: seq<Input>, i: Input, ks: seq<nat>, m: Memory)
    requires Holds(es, ks, m) && forall k | k in ks :: k < |es|
    ensures Holds(es + [i], if Writes(m, i) then ks + [|es|] else ks, After(m, i))
  {
    var all, ks' := es + [i], if Writes(m, i) then ks + [|es|] else ks;
    assert forall k | 0 <= k < |es| :: all[k] == es[k];
    assert forall k :: k in ks' && k < |es| <==> k in ks;
    if Writes(m, i) && IsStatus(i) {
      assert |es| in ks' && LastStatus(all, ks', |es|, |all|);
    } else if j: nat :| LastStatus(es, ks, j, |es|) && m == Memory(es[j].later, Percent(es[j])) {
      assert LastStatus(all, ks', j, |all|);
    }
  }

  lemma {:induction false} CopiesNext(es: seq<Input>, i: Input, ks: seq<nat>, out: seq<Event>)
    requires Copies(es, ks, out)
    ensures Copies(es + [i], ks, out) && Copies(es + [i], ks + [|es|], out + [i.event])
    ensures forall k | k in ks :: k < |es|
  {
    assert forall k | 0 <= k < |es| :: (es + [i])[k] == es[k];
  }

  lemma {:induction false} SamplesNext(es: seq<Input>, i: Input, ks: seq<nat>, out: seq<Event>, m: Memory)
    requires Samples(es, ks, out) && Holds(es, ks, m)
    ensures if Writes(m, i) then Samples(es + [i], ks + [|es|], out + [i.event]) else Samples(es + [i], ks, out)
  {
    var all, ks' := es + [i], if Writes(m, i) then ks + [|es|] else ks;
    CopiesNext(es, i, ks, out);
    NearNow(es, i, ks, ks', m);
    forall n | 0 <= n < |all| ensures n in ks' <==> all[n].writable && !(InProgress(all[n].event) && Near(all, ks', n)) {
      if n < |es| {
        NearEarlier(es, i, ks, ks', n);
        assert n in ks' <==> n in ks;
      } else {
        assert n in ks' <==> Writes(m, i);
      }
    }
  }

  lemma {:induction false} StreamGrows(es: seq<Input>, i: Input, ks: seq<nat>) returns (ks': seq<nat>)
    requires Samples(es, ks, Output(START, es)) && Holds(es, ks, AfterAll(START, es))
    ensures Samples(es + [i], ks', Output(START, es + [i])) && Holds(es + [i], ks', AfterAll(START, es + [i]))
  {
    var m := AfterAll(START, es);
    SamplesNext(es, i, ks, Output(START, es), m);
    HoldsNext(es, i, ks, m);
    OutputSnoc(START, es, i);
    AfterAllSnoc(START, es, i);
    ks' := if Writes(m, i) then ks + [|es|] else ks;
  }

  /** For every list of events, whatever clock and stream do: what the stream holds,
      told by the stream alone. */
  lemma {:induction false} StreamSamples(es: seq<Input>) returns (ks: seq<nat>)
    ensures Samples(es, ks, Output(START, es)) && Holds(es, ks, AfterAll(START, es))
    decreases |es|
  {
    if es == [] {
      ks := [];
    } else {
      ks := StreamSamples(es[..|es| - 1]);
      ks := StreamGrows(es[..|es| - 1], es[|es| - 1], ks);
      assert es == es[..|es| - 1] + [es[|es| - 1]];
    }
  }

  /** With a clock that has run for a second since its epoch: what is missing from a
      writable stream is a status below 100% within 1000 ms and one hundredth of the
      last status event that is in it. */
  lemma {:induction false} DroppedIsCloseToLastWritten(es: seq<Input>, n: nat) returns (ks: seq<nat>, j: nat)
    requires n < |es| && es[n].writable && es[n].now >= 1000
    ensures Samples(es, ks, Output(START, es))
    ensures n !in ks ==> InProgress(es[n].event) && LastStatus(es, ks, j, n)
    ensures n !in ks ==> es[n].now - es[j].later < 1000 && Abs(Percent(es[n]) - Percent(es[j])) < 0.01
  {
    ks := StreamSamples(es);
    j := 0;
    if n !in ks {
      j :| LastStatus(es, ks, j, n) && es[n].now - es[j].later < 1000 && Abs(Percent(es[n]) - Percent(es[j])) < 0.01;
    }
  }
}
