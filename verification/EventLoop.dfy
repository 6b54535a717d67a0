/** sched_thread: on every pass each event is planned if it has no next run, and
    fired and unplanned again if its next run has come. */
module EventLoop {
  import opened Bytes
  import opened Calendar
  import opened Scheduler

  const EVENTS_READ := 32

  datatype NextRun = Unplanned | At(tm: Tm)

  /** A row of the events table; `nextRun` is the stored local date and time. */
  datatype Event = Event(enabled: bool, scheduled: bool, schedule: string, nextRun: NextRun)

  datatype Firing = Firing(planned: int, at: int)

  /** The stored date and time as an instant; 0 stands for none. */
  function Stored(e: Event, offset: int): int {
    match e.nextRun
    case Unplanned => 0
    case At(tm) => Mktime(tm, offset)
  }

  /** The instant an active event is planned for on a pass at `now`. */
  function Planned(e: Event, now: int, offset: int): int {
    var next := Stored(e, offset);
    if next == 0 then ParseSchedule(e.schedule, now, offset) else next
  }

  /** The event after a pass, and what the pass fired. */
  datatype Passed = Passed(event: Event, fired: seq<Firing>)

  function Pass(e: Event, now: int, offset: int): Passed {
    if !e.enabled || !e.scheduled then Passed(e, [])
    else
      var next := Planned(e, now, offset);
      if next - now <= 0 then Passed(e.(nextRun := Unplanned), [Firing(next, now)])
      else if Stored(e, offset) == 0 then Passed(e.(nextRun := At(Localtime(next, offset))), [])
      else Passed(e, [])
  }

  /** The thread with its table and, for each event, the history of its firings. */
  class SchedThread {
    const offset: int
    const events: array<Event>
    ghost var fired: seq<seq<Firing>>

    ghost predicate Valid()
      reads this
    {
      |fired| == events.Length
    }

    constructor (events: array<Event>, offset: int)
      ensures Valid() && this.events == events && this.offset == offset
      ensures forall i :: 0 <= i < |fired| ==> fired[i] == []
    {
      this.events := events;
      this.offset := offset;
      fired := seq(events.Length, _ => []);
    }

    /** One event of a pass. */
    method PassEvent(i: nat, now: int)
      requires Valid() && i < events.Length
      modifies events, `fired
      ensures Valid()
      ensures var p := Pass(old(events[i]), now, offset);
              events[..] == old(events[..])[i := p.event] && fired == old(fired)[i := old(fired)[i] + p.fired]
    {
      hide ParseSchedule, Mktime, Localtime;
      var e := events[i];
      assert fired[i] + [] == fired[i];
      if !e.enabled || !e.scheduled {
        return;
      }
      var next := 0;
      if e.nextRun.At? {
        next := Mktime(e.nextRun.tm, offset);
      }
      if next == 0 {
        next := ParseSchedule(e.schedule, now, offset);
        events[i] := e.(nextRun := At(Localtime(next, offset)));
      }
      if next - now <= 0 {
        events[i] := events[i].(nextRun := Unplanned);
        fired := fired[i := fired[i] + [Firing(next, now)]];
      }
    }

    /** One pass: at most the first 32 events are read. */
    method Tick(now: int)
      requires Valid()
      modifies events, `fired
      ensures Valid()
      ensures forall i :: 0 <= i < events.Length && i < EVENTS_READ ==>
                var p := Pass(old(events[i]), now, offset);
                events[i] == p.event && fired[i] == old(fired)[i] + p.fired
      ensures forall i :: EVENTS_READ <= i < events.Length ==> events[i] == old(events[i]) && fired[i] == old(fired)[i]
    {
      var count := if events.Length < EVENTS_READ then events.Length else EVENTS_READ;
      for k := 0 to count
        invariant Valid()
        invariant forall i :: 0 <= i < k ==>
          events[i] == Pass(old(events[i]), now, offset).event &&
          fired[i] == old(fired)[i] + Pass(old(events[i]), now, offset).fired
        invariant forall i :: k <= i < events.Length ==> events[i] == old(events[i]) && fired[i] == old(fired)[i]
      {
        PassEvent(k, now);
      }
    }
  }

  /* ---------- whole runs ---------- */

  /** The event and its firings after passes at the instants `clock`. */
  function Run(e: Event, clock: seq<int>, offset: int): Passed {
    if clock == [] then Passed(e, [])
    else
      var n := |clock| - 1;
      var before := Run(e, clock[..n], offset);
      var last := Pass(before.event, clock[n], offset);
      Passed(last.event, before.fired + last.fired)
  }

  /** Each pass sees a later clock than the one before; the first one a positive clock. */
  predicate Advancing(clock: seq<int>) {
    (forall i :: 0 <= i < |clock| ==> clock[i] > 0) &&
    forall i, j :: 0 <= i < j < |clock| ==> clock[i] < clock[j]
  }

  /** What holds after passes up to the clock `last`. */
  predicate OnTime(p: Passed, last: int, offset: int) {
    (forall i :: 0 <= i < |p.fired| ==> p.fired[i].planned <= p.fired[i].at <= last) &&
    (forall i, j :: 0 <= i < j < |p.fired| ==> p.fired[i].planned < p.fired[j].planned) &&
    (Stored(p.event, offset) != 0 ==>
       forall i :: 0 <= i < |p.fired| ==> p.fired[i].planned < Stored(p.event, offset))
  }

  lemma PassStaysOnTime(p: Passed, last: int, now: int, offset: int)
    requires OnTime(p, last, offset) && 0 <= last < now && TimeOfDay(PlanOf(p.event.schedule))
    ensures var q := Pass(p.event, now, offset);
            OnTime(Passed(q.event, p.fired + q.fired), now, offset) &&
            (p.event.enabled && p.event.scheduled && q.event.nextRun.At? ==> Stored(q.event, offset) > now)
  {
    hide ParseSchedule, PlanOf, Mktime, Localtime;
    NeverPast(p.event.schedule, now, offset);
    MktimeLocaltime(ParseSchedule(p.event.schedule, now, offset), offset);
  }

  lemma {:induction false} RunStaysOnTime(e: Event, clock: seq<int>, offset: int)
    requires TimeOfDay(PlanOf(e.schedule)) && Advancing(clock)
    ensures var p := Run(e, clock, offset);
            p.event == e.(nextRun := p.event.nextRun) &&
            OnTime(p, if clock == [] then 0 else clock[|clock| - 1], offset) &&
            (e.enabled && e.scheduled && clock != [] && p.event.nextRun.At? ==>
               Stored(p.event, offset) > clock[|clock| - 1])
    decreases |clock|
  {
    if clock != [] {
      var n := |clock| - 1;
      RunStaysOnTime(e, clock[..n], offset);
      PassStaysOnTime(Run(e, clock[..n], offset), if n == 0 then 0 else clock[n - 1], clock[n], offset);
    }
  }

  /** Over any run with an advancing clock no event fires before the instant it was
      planned for, and one event's planned instants strictly increase, whatever plan is
      stored when the run begins. */
  lemma FiresInOrder(e: Event, clock: seq<int>, offset: int)
    requires TimeOfDay(PlanOf(e.schedule)) && Advancing(clock)
    ensures var fired := Run(e, clock, offset).fired;
            (forall i :: 0 <= i < |fired| ==> fired[i].planned <= fired[i].at) &&
            (forall i, j :: 0 <= i < j < |fired| ==> fired[i].planned < fired[j].planned)
  {
    RunStaysOnTime(e, clock, offset);
  }

  /** An event that is switched off or of another type never fires. */
  lemma {:induction false} NeverFires(e: Event, clock: seq<int>, offset: int)
    requires !e.enabled || !e.scheduled
    ensures Run(e, clock, offset) == Passed(e, [])
    decreases |clock|
  {
    if clock != [] {
      NeverFires(e, clock[..|clock| - 1], offset);
    }
  }

  /** A planned event keeps its plan until a pass at or after it, and that pass fires it. */
  lemma {:induction false} FiresAtFirstChance(e: Event, clock: seq<int>, offset: int)
    requires e.enabled && e.scheduled && e.nextRun.At? && Stored(e, offset) != 0 && clock != []
    requires forall i :: 0 <= i < |clock| - 1 ==> clock[i] < Stored(e, offset)
    ensures var p, last := Run(e, clock, offset), clock[|clock| - 1];
            if Stored(e, offset) <= last then p == Passed(e.(nextRun := Unplanned), [Firing(Stored(e, offset), last)])
            else p == Passed(e, [])
    decreases |clock|
  {
    var n := |clock| - 1;
    if n > 0 {
      FiresAtFirstChance(e, clock[..n], offset);
    }
  }

  /** One pass over an event that has no plan: it is fired if the instant that its
      schedule asks for has come, and planned for that instant otherwise. */
  lemma PassPlans(e: Event, now: int, t: int, offset: int)
    requires e.enabled && e.scheduled && Stored(e, offset) == 0 && now > 0
    requires TimeOfDay(PlanOf(e.schedule)) && Falls(PlanOf(e.schedule), now, t, offset)
    ensures var p := Pass(e, now, offset);
            if t <= now then p == Passed(e.(nextRun := Unplanned), [Firing(t, now)])
            else p == Passed(e.(nextRun := p.event.nextRun), []) && p.event.nextRun.At? && Stored(p.event, offset) == t
  {
    hide PlanOf, NextInstant, Falls, Mktime, Localtime;
    PlanIsSane(e.schedule);
    FallsIff(PlanOf(e.schedule), now, t, offset);
    MktimeLocaltime(t, offset);
  }

  lemma {:induction false} RunsOn(e: Event, clock: seq<int>, n: nat, offset: int)
    requires n <= |clock|
    ensures var p := Run(e, clock[..n], offset);
            var q := Run(p.event, clock[n..], offset);
            Run(e, clock, offset) == Passed(q.event, p.fired + q.fired)
    decreases |clock|
  {
    hide Pass;
    var p, k := Run(e, clock[..n], offset), |clock| - 1;
    if n == |clock| {
      assert clock[..n] == clock && p.fired + [] == p.fired;
    } else {
      RunsOn(e, clock[..k], n, offset);
      assert clock[..k][..n] == clock[..n] && clock[..k][n..] == clock[n..][..k - n];
      var q := Run(p.event, clock[n..k], offset);
      assert clock[n..][..k - n] == clock[n..k];
      Assoc(p.fired, q.fired, Pass(q.event, clock[k], offset).fired);
    }
  }

  /** From an event without a plan on: the first pass fires it or plans it, the passes
      before the planned instant leave it, and the first one at or after it fires it. */
  lemma FreshRun(e: Event, clock: seq<int>, t: int, offset: int)
    requires e.enabled && e.scheduled && Stored(e, offset) == 0 && clock != [] && Advancing(clock)
    requires TimeOfDay(PlanOf(e.schedule)) && Falls(PlanOf(e.schedule), clock[0], t, offset)
    requires forall k :: 0 <= k < |clock| - 1 ==> clock[k] < t
    ensures var p, last := Run(e, clock, offset), clock[|clock| - 1];
            if t <= last then p == Passed(e.(nextRun := Unplanned), [Firing(t, last)])
            else p == Passed(e.(nextRun := p.event.nextRun), []) && p.event.nextRun.At? && Stored(p.event, offset) == t
  {
    hide Pass, Stored, PlanOf, Falls;
    PassPlans(e, clock[0], t, offset);
    RunsOn(e, clock, 1, offset);
    OnePass(e, clock, offset);
    assert forall k :: 0 <= k < |clock[1..]| ==> clock[1..][k] == clock[k + 1];
    var p := Pass(e, clock[0], offset);
    if |clock| == 1 {
      assert clock[1..] == [] && p.fired + [] == p.fired;
    } else {
      StaysPlanned(p.event, clock[1..], t, offset);
      assert [] + Run(p.event, clock[1..], offset).fired == Run(p.event, clock[1..], offset).fired;
    }
  }

  lemma OnePass(e: Event, clock: seq<int>, offset: int)
    requires clock != []
    ensures Run(e, clock[..1], offset) == Pass(e, clock[0], offset)
  {
    hide Pass;
    assert clock[..1][..0] == [] && [] + Pass(e, clock[0], offset).fired == Pass(e, clock[0], offset).fired;
  }

  lemma StaysPlanned(e: Event, clock: seq<int>, t: int, offset: int)
    requires e.enabled && e.scheduled && e.nextRun.At? && Stored(e, offset) == t != 0 && clock != []
    requires forall k :: 0 <= k < |clock| - 1 ==> clock[k] < t
    ensures var p, last := Run(e, clock, offset), clock[|clock| - 1];
            if t <= last then p == Passed(e.(nextRun := Unplanned), [Firing(t, last)]) else p == Passed(e, [])
  {
    hide Run, Stored;
    FiresAtFirstChance(e, clock, offset);
  }

  /** Whenever an active event has no plan in a run, as at the beginning and after each
      firing, the next pass plans it for the instant that its schedule asks for, and the
      first pass at or after that instant, which may be the same, fires it, once. */
  lemma PlannedAndFired(e: Event, clock: seq<int>, n: nat, t: int, offset: int)
    requires e.enabled && e.scheduled && Advancing(clock) && TimeOfDay(PlanOf(e.schedule)) && n < |clock|
    requires Stored(Run(e, clock[..n], offset).event, offset) == 0
    requires Falls(PlanOf(e.schedule), clock[n], t, offset) && forall k :: n <= k < |clock| - 1 ==> clock[k] < t
    ensures var before, p, last := Run(e, clock[..n], offset), Run(e, clock, offset), clock[|clock| - 1];
            if t <= last then p == Passed(e.(nextRun := Unplanned), before.fired + [Firing(t, last)])
            else p.fired == before.fired && p.event.nextRun.At? && Stored(p.event, offset) == t
  {
    hide Run, Stored, PlanOf, Falls, Advancing, OnTime;
    var before := Run(e, clock[..n], offset);
    ClockParts(clock, n, t);
    RunStaysOnTime(e, clock[..n], offset);
    RunsOn(e, clock, n, offset);
    FreshRun(before.event, clock[n..], t, offset);
    assert before.fired + [] == before.fired;
  }

  lemma ClockParts(clock: seq<int>, n: nat, t: int)
    requires Advancing(clock) && n < |clock| && forall k :: n <= k < |clock| - 1 ==> clock[k] < t
    ensures Advancing(clock[..n]) && Advancing(clock[n..]) && clock[n..][0] == clock[n]
    ensures clock[n..][|clock[n..]| - 1] == clock[|clock| - 1]
    ensures forall k :: 0 <= k < |clock[n..]| - 1 ==> clock[n..][k] < t
  {
    assert forall k :: 0 <= k < |clock[n..]| ==> clock[n..][k] == clock[n + k];
  }
}
