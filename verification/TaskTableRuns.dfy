/** What every interleaving of schedulers, cancellers and the worker keeps. */
module TaskTableRuns {
  import opened TaskTable

  predicate FiredIn(fired: seq<Firing>, id: nat) {
    exists k :: 0 <= k < |fired| && fired[k].id == id
  }

  /** Every task handed out is in exactly one place, and carries what was asked for. */
  ghost predicate Inv(h: Host) {
    Sane(h) && SlotsHold(h) && SlotsDistinct(h) && FiringsHold(h) && FiringsDistinct(h) && CancelledHold(h) &&
    Accounted(h) && (h.worker.Running? ==> h.worker.now <= h.clock)
  }

  ghost predicate SlotsHold(h: Host) {
    forall k :: 0 <= k < |h.tasks| && h.tasks[k].active ==> SlotHolds(h, h.tasks[k])
  }

  ghost predicate SlotHolds(h: Host, t: Task) {
    t.id in h.issued && t.id !in h.cancelled && !FiredIn(h.fired, t.id) &&
    t.fn == h.issued[t.id].fn && t.runAt == h.issued[t.id].due % TWO64
  }

  ghost predicate SlotsDistinct(h: Host) {
    forall j, k :: 0 <= j < k < |h.tasks| && h.tasks[j].active && h.tasks[k].active ==> h.tasks[j].id != h.tasks[k].id
  }

  ghost predicate FiringsHold(h: Host) {
    forall k :: 0 <= k < |h.fired| ==> FiringHolds(h, h.fired[k])
  }

  ghost predicate FiringHolds(h: Host, f: Firing) {
    f.id in h.issued && f.id !in h.cancelled && f.fn == h.issued[f.id].fn &&
    h.issued[f.id].due % TWO64 <= f.at <= h.clock
  }

  ghost predicate FiringsDistinct(h: Host) {
    forall j, k :: 0 <= j < k < |h.fired| ==> h.fired[j].id != h.fired[k].id
  }

  ghost predicate CancelledHold(h: Host) {
    forall id :: id in h.cancelled ==> id in h.issued
  }

  ghost predicate Accounted(h: Host) {
    forall id :: id in h.issued ==> id < h.nextId && (Pending(h, id) || FiredIn(h.fired, id) || id in h.cancelled)
  }

  lemma StartHolds(firstId: nat, now: u64)
    ensures Inv(Start(firstId, now))
  {
  }

  lemma ScheduledKeeps(h: Host, fn: nat, delay: nat, now: u64)
    requires Inv(h) && h.clock <= now
    ensures Inv(Scheduled(h, fn, delay, now))
  {
    if fn != 0 && FreeSlot(h.tasks, 0) < |h.tasks| {
      ScheduledSlots(h, fn, delay, now);
      ScheduledAccounts(h, fn, delay, now);
      hide SlotsHold, SlotsDistinct, Accounted, Pending;
      NewIdIsNew(h);
    } else {
      hide Accounted, SlotsDistinct;
    }
  }

  lemma NewIdIsNew(h: Host)
    requires Inv(h)
    ensures h.nextId !in h.issued && h.nextId !in h.cancelled && !FiredIn(h.fired, h.nextId)
  {
    forall k | 0 <= k < |h.fired| ensures h.fired[k].id != h.nextId {
      assert FiringHolds(h, h.fired[k]);
    }
  }

  lemma ScheduledSlots(h: Host, fn: nat, delay: nat, now: u64)
    requires Inv(h) && fn != 0 && FreeSlot(h.tasks, 0) < |h.tasks|
    ensures var r := Scheduled(h, fn, delay, now); SlotsHold(r) && SlotsDistinct(r)
  {
    hide Accounted, FiringsHold, FiringsDistinct, FiredIn, Pending;
    var r := Scheduled(h, fn, delay, now);
    NewIdIsNew(h);
    forall k | 0 <= k < |r.tasks| && r.tasks[k].active
      ensures SlotHolds(r, r.tasks[k]) && (k == FreeSlot(h.tasks, 0) || r.tasks[k].id != h.nextId)
    {
      if k != FreeSlot(h.tasks, 0) {
        assert SlotHolds(h, h.tasks[k]);
      }
    }
  }

  lemma ScheduledAccounts(h: Host, fn: nat, delay: nat, now: u64)
    requires Inv(h) && fn != 0 && FreeSlot(h.tasks, 0) < |h.tasks|
    ensures Accounted(Scheduled(h, fn, delay, now))
  {
    hide SlotsHold, SlotsDistinct, FiringsHold, FiringsDistinct, CancelledHold, FiredIn;
    var r := Scheduled(h, fn, delay, now);
    var slot := FreeSlot(h.tasks, 0);
    forall id | id in r.issued
      ensures id < r.nextId && (Pending(r, id) || FiredIn(r.fired, id) || id in r.cancelled)
    {
      if id == h.nextId {
        assert r.tasks[slot].active && r.tasks[slot].id == id;
      } else if Pending(h, id) {
        var k :| 0 <= k < |h.tasks| && h.tasks[k].active && h.tasks[k].id == id;
        assert r.tasks[k] == h.tasks[k];
      }
    }
  }

  lemma CancelKeeps(h: Host, id: nat)
    requires Inv(h)
    ensures Inv(Next(h, Cancel(id)))
  {
    var r := Next(h, Cancel(id));
    var j := SlotOf(h.tasks, id, 0);
    if j < |h.tasks| {
      forall x | x in r.issued
        ensures x < r.nextId && (Pending(r, x) || FiredIn(r.fired, x) || x in r.cancelled)
      {
        if x != id && Pending(h, x) {
          var k :| 0 <= k < |h.tasks| && h.tasks[k].active && h.tasks[k].id == x;
          assert r.tasks[k] == h.tasks[k];
        }
      }
    }
  }

  lemma WorkedKeeps(h: Host, i: nat, now: u64)
    requires Inv(h) && i <= |h.tasks| && now <= h.clock
    ensures Inv(Worked(h, i, now))
  {
    var r := Worked(h, i, now);
    var j := DueSlot(h.tasks, i, now);
    if j < |h.tasks| {
      var t := h.tasks[j];
      assert SlotHolds(h, t);
      assert r.fired[|h.fired|].id == t.id;
      FiredGrows(h.fired, Firing(t.id, t.fn, h.clock));
      forall x | x in r.issued
        ensures x < r.nextId && (Pending(r, x) || FiredIn(r.fired, x) || x in r.cancelled)
      {
        if x != t.id && Pending(h, x) {
          var k :| 0 <= k < |h.tasks| && h.tasks[k].active && h.tasks[k].id == x;
          assert r.tasks[k] == h.tasks[k];
        }
      }
      forall k | 0 <= k < |r.tasks| && r.tasks[k].active ensures SlotHolds(r, r.tasks[k]) {
        assert k != j && SlotHolds(h, h.tasks[k]);
      }
      forall k | 0 <= k < |h.fired| ensures h.fired[k].id != t.id {
        assert !FiredIn(h.fired, t.id);
      }
    }
  }

  lemma FiredGrows(fired: seq<Firing>, f: Firing)
    ensures forall id :: FiredIn(fired + [f], id) <==> FiredIn(fired, id) || id == f.id
  {
    var more := fired + [f];
    assert more[|fired|] == f;
    forall id | FiredIn(fired, id) ensures FiredIn(more, id) {
      var k :| 0 <= k < |fired| && fired[k].id == id;
      assert more[k].id == id;
    }
  }

  lemma NextKeeps(h: Host, s: Step)
    requires Inv(h) && Enabled(h, s)
    ensures Inv(Next(h, s))
  {
    match s
    case Enqueue(fn, now) => ScheduledKeeps(h, fn, 0, now);
    case AfterMs(delay, fn, now) => ScheduledKeeps(h, fn, delay, now);
    case Cancel(id) => CancelKeeps(h, id);
    case Wake(now) => WorkedKeeps(h.(clock := now), 0, now);
    case Resume => WorkedKeeps(h, h.worker.next, h.worker.now);
  }

  /** The table has 64 slots.  A task with a callback is refused if and only if all of them
      are taken; otherwise it is pending, with the next id and its due time, and so is
      whatever was pending before. */
  lemma RefusedIffFull(h: Host, fn: nat, delay: u64, now: u64)
    requires Inv(h) && h.clock <= now && fn != 0
    ensures |h.tasks| == 64
    ensures var r := Next(h, AfterMs(delay, fn, now));
            if forall k :: 0 <= k < 64 ==> h.tasks[k].active then r == h.(clock := now)
            else
              r.nextId == h.nextId + 1 && Pending(r, h.nextId) &&
              r.issued == h.issued[h.nextId := Job(fn, now + delay)] &&
              forall id :: Pending(h, id) ==> Pending(r, id)
    ensures delay == 0 ==> Next(h, Enqueue(fn, now)) == Next(h, AfterMs(delay, fn, now))
  {
    hide SlotsHold, SlotsDistinct, FiringsHold, FiringsDistinct, CancelledHold, Accounted;
    var r, slot := Next(h, AfterMs(delay, fn, now)), FreeSlot(h.tasks, 0);
    FreeSlotIsFirst(h.tasks, 0);
    if slot < 64 {
      assert r.tasks[slot].active && r.tasks[slot].id == h.nextId;
      forall id | Pending(h, id) ensures Pending(r, id) {
        var k :| 0 <= k < |h.tasks| && h.tasks[k].active && h.tasks[k].id == id;
        assert r.tasks[k] == h.tasks[k];
      }
    }
  }

  lemma {:induction false} FreeSlotIsFirst(tasks: seq<Task>, i: nat)
    requires i <= |tasks|
    ensures forall k :: i <= k < FreeSlot(tasks, i) ==> tasks[k].active
    decreases |tasks| - i
  {
    if i < |tasks| && tasks[i].active {
      FreeSlotIsFirst(tasks, i + 1);
    }
  }

  /* ---------- whole runs ---------- */

  ghost predicate Possible(h: Host, steps: seq<Step>)
    requires Sane(h)
    decreases |steps|
  {
    steps == [] || (Enabled(h, steps[0]) && Possible(Next(h, steps[0]), steps[1..]))
  }

  ghost function Run(h: Host, steps: seq<Step>): (r: Host)
    requires Sane(h) && Possible(h, steps)
    ensures Sane(r)
    decreases |steps|
  {
    if steps == [] then h else Run(Next(h, steps[0]), steps[1..])
  }

  lemma {:induction false} RunKeeps(h: Host, steps: seq<Step>)
    requires Inv(h) && Possible(h, steps)
    ensures Inv(Run(h, steps))
    decreases |steps|
  {
    if steps != [] {
      NextKeeps(h, steps[0]);
      RunKeeps(Next(h, steps[0]), steps[1..]);
    }
  }

  /** Nothing in the history is ever taken back. */
  ghost predicate Extends(h: Host, r: Host) {
    h.cancelled <= r.cancelled && h.fired <= r.fired && h.nextId <= r.nextId &&
    forall id :: id in h.issued ==> id in r.issued && r.issued[id] == h.issued[id]
  }

  lemma NextExtends(h: Host, s: Step)
    requires Inv(h) && Enabled(h, s)
    ensures Extends(h, Next(h, s))
  {
    assert forall id :: id in h.issued ==> id != h.nextId;
  }

  lemma {:induction false} RunExtends(h: Host, steps: seq<Step>)
    requires Inv(h) && Possible(h, steps)
    ensures Extends(h, Run(h, steps))
    decreases |steps|
  {
    if steps != [] {
      hide Inv, Next, Enabled;
      NextKeeps(h, steps[0]);
      NextExtends(h, steps[0]);
      RunExtends(Next(h, steps[0]), steps[1..]);
    }
  }

  /** In every reachable state each id handed out is pending, fired or cancelled,
      and only one of these. */
  lemma ExactlyOnePlace(firstId: nat, now: u64, steps: seq<Step>, id: nat)
    requires Possible(Start(firstId, now), steps)
    requires id in Run(Start(firstId, now), steps).issued
    ensures var r := Run(Start(firstId, now), steps);
            (Pending(r, id) && !FiredIn(r.fired, id) && id !in r.cancelled) ||
            (!Pending(r, id) && FiredIn(r.fired, id) && id !in r.cancelled) ||
            (!Pending(r, id) && !FiredIn(r.fired, id) && id in r.cancelled)
  {
    var h := Start(firstId, now);
    StartHolds(firstId, now);
    RunKeeps(h, steps);
    OnePlace(Run(h, steps), id);
  }

  lemma OnePlace(r: Host, id: nat)
    requires Inv(r) && id in r.issued
    ensures Pending(r, id) ==> !FiredIn(r.fired, id) && id !in r.cancelled
    ensures FiredIn(r.fired, id) ==> id !in r.cancelled
    ensures Pending(r, id) || FiredIn(r.fired, id) || id in r.cancelled
  {
    if Pending(r, id) {
      var k :| 0 <= k < |r.tasks| && r.tasks[k].active && r.tasks[k].id == id;
      assert SlotHolds(r, r.tasks[k]);
    }
    if FiredIn(r.fired, id) {
      var k :| 0 <= k < |r.fired| && r.fired[k].id == id;
      assert FiringHolds(r, r.fired[k]);
    }
  }

  /** No task runs twice, each runs the callback it was given, and a task that runs
      does so before its due time if and only if that does not fit 64 bits. */
  lemma FiresOnceOnTime(firstId: nat, now: u64, steps: seq<Step>, k: nat)
    requires Possible(Start(firstId, now), steps)
    requires k < |Run(Start(firstId, now), steps).fired|
    ensures var r := Run(Start(firstId, now), steps);
            var f := r.fired[k];
            f.id in r.issued && f.fn == r.issued[f.id].fn &&
            (forall j :: 0 <= j < |r.fired| && j != k ==> r.fired[j].id != f.id) &&
            (r.issued[f.id].due <= f.at <==> r.issued[f.id].due < TWO64)
  {
    var h := Start(firstId, now);
    StartHolds(firstId, now);
    RunKeeps(h, steps);
    var r := Run(h, steps);
    assert FiringHolds(r, r.fired[k]);
  }

  /** After a successful cancel the task never runs, whatever happens next. */
  lemma CancelIsFinal(h: Host, id: nat, steps: seq<Step>)
    requires Inv(h) && Pending(h, id) && Possible(Next(h, Cancel(id)), steps)
    ensures !FiredIn(Run(Next(h, Cancel(id)), steps).fired, id)
  {
    var c := Next(h, Cancel(id));
    assert id in c.cancelled;
    NextKeeps(h, Cancel(id));
    RunExtends(c, steps);
    RunKeeps(c, steps);
    var r := Run(c, steps);
    CancelKeptIssued(h, id);
    assert id in c.issued && id in r.issued;
    OnePlace(r, id);
  }

  lemma CancelKeptIssued(h: Host, id: nat)
    requires Inv(h) && Pending(h, id)
    ensures id in h.issued
  {
    var k :| 0 <= k < |h.tasks| && h.tasks[k].active && h.tasks[k].id == id;
    assert SlotHolds(h, h.tasks[k]);
  }

  /* ---------- when the due time does not fit 64 bits ---------- */

  /** A task scheduled on an empty table is run by the next pass before its due
      time exactly when the sum of the clock and the delay does not fit 64 bits. */
  lemma EarlyExactlyOnWrap(h: Host, delay: u64, fn: nat, now: u64)
    requires Inv(h) && h.worker.Waiting? && h.clock <= now && fn != 0 && delay > 0
    requires forall k :: 0 <= k < |h.tasks| ==> !h.tasks[k].active
    ensures var s := Next(h, AfterMs(delay, fn, now));
            var r := Next(s, Wake(now));
            (FiredIn(r.fired, h.nextId) && now < r.issued[h.nextId].due) <==> now + delay >= TWO64
  {
    var s := Next(h, AfterMs(delay, fn, now));
    assert FreeSlot(h.tasks, 0) == 0;
    assert forall k :: 1 <= k < |s.tasks| ==> !s.tasks[k].active;
    assert (now + delay) % TWO64 <= now <==> now + delay >= TWO64;
    var w := s.(clock := now);
    ScheduledKeeps(h, fn, delay, now);
    forall k | 0 <= k < |h.fired| ensures h.fired[k].id != h.nextId {
      assert FiringHolds(h, h.fired[k]);
    }
    var j := DueSlot(w.tasks, 0, now);
    if j < |w.tasks| {
      assert j == 0;
      FiredGrows(h.fired, Firing(h.nextId, fn, now));
    }
  }

  /* ---------- a whole pass of the worker ---------- */

  /** In the middle of a pass that began at time `now`, the tasks that were due
      then and still are pending lie in slots the pass has yet to reach. */
  ghost predicate Ahead(h: Host, before: nat, now: u64) {
    h.nextId >= before &&
    (h.worker.Running? ==> h.worker.now == now) &&
    forall k :: 0 <= k < |h.tasks| && h.tasks[k].active && h.tasks[k].id < before && h.tasks[k].runAt <= now ==>
      h.worker.Running? && k >= h.worker.next
  }

  lemma WorkedGoesAhead(h: Host, i: nat, before: nat, now: u64)
    requires Inv(h) && i <= |h.tasks| && before <= h.nextId
    requires forall k :: 0 <= k < i && h.tasks[k].active && h.tasks[k].id < before ==> h.tasks[k].runAt > now
    ensures Ahead(Worked(h, i, now), before, now)
  {
  }

  lemma NextStaysAhead(h: Host, s: Step, before: nat, now: u64)
    requires Inv(h) && Enabled(h, s) && Ahead(h, before, now) && h.worker.Running?
    ensures Ahead(Next(h, s), before, now)
  {
    if s.Resume? {
      WorkedGoesAhead(h, h.worker.next, before, now);
    }
  }

  /** Once a pass is over, every task that was pending and due when it began has
      been fired or cancelled, whatever was scheduled and cancelled meanwhile. */
  lemma {:induction false} PassServesDueTasks(h: Host, steps: seq<Step>, before: nat, now: u64)
    requires Inv(h) && Possible(h, steps) && Ahead(h, before, now)
    requires forall i :: 0 <= i < |steps| ==> !steps[i].Wake?
    requires Run(h, steps).worker.Waiting?
    ensures var r := Run(h, steps);
            forall k :: 0 <= k < |r.tasks| && r.tasks[k].active && r.tasks[k].id < before ==> r.tasks[k].runAt > now
    decreases |steps|
  {
    if steps != [] {
      hide Inv, Next, SlotHolds;
      NextKeeps(h, steps[0]);
      if h.worker.Running? {
        NextStaysAhead(h, steps[0], before, now);
      }
      PassServesDueTasks(Next(h, steps[0]), steps[1..], before, now);
    }
  }

  lemma PassFromWake(h: Host, now: u64, steps: seq<Step>, k: nat)
    requires Inv(h) && Enabled(h, Wake(now)) && Possible(Next(h, Wake(now)), steps)
    requires forall i :: 0 <= i < |steps| ==> !steps[i].Wake?
    requires Run(Next(h, Wake(now)), steps).worker.Waiting?
    requires k < |h.tasks| && Due(h.tasks[k], now)
    ensures var r := Run(Next(h, Wake(now)), steps);
            !Pending(r, h.tasks[k].id) && (FiredIn(r.fired, h.tasks[k].id) || h.tasks[k].id in r.cancelled)
  {
    hide Inv, Enabled, Next, Run, Possible, Ahead, Pending, FiredIn;
    var id := h.tasks[k].id;
    DueIsIssued(h, now, k);
    WakeBegins(h, now);
    var w := Next(h, Wake(now));
    PassServesDueTasks(w, steps, h.nextId, now);
    RunKeeps(w, steps);
    RunExtends(w, steps);
    var r := Run(w, steps);
    NotPending(r, id, h.nextId, now);
    OnePlace(r, id);
  }

  lemma DueIsIssued(h: Host, now: u64, k: nat)
    requires Inv(h) && k < |h.tasks| && Due(h.tasks[k], now)
    ensures Sane(h)
    ensures var id := h.tasks[k].id; id in h.issued && id < h.nextId && h.issued[id].due % TWO64 <= now
  {
    assert SlotHolds(h, h.tasks[k]);
  }

  lemma WakeBegins(h: Host, now: u64)
    requires Inv(h) && Enabled(h, Wake(now))
    ensures var w := Next(h, Wake(now)); Inv(w) && Extends(h, w) && Ahead(w, h.nextId, now)
  {
    hide Worked;
    NextKeeps(h, Wake(now));
    NextExtends(h, Wake(now));
    WorkedGoesAhead(h.(clock := now), 0, h.nextId, now);
  }

  lemma NotPending(r: Host, id: nat, before: nat, now: u64)
    requires Inv(r) && id in r.issued && id < before && r.issued[id].due % TWO64 <= now
    requires forall k :: 0 <= k < |r.tasks| && r.tasks[k].active && r.tasks[k].id < before ==> r.tasks[k].runAt > now
    ensures !Pending(r, id)
  {
    forall j | 0 <= j < |r.tasks| && r.tasks[j].active ensures r.tasks[j].id != id {
      assert SlotHolds(r, r.tasks[j]);
    }
  }
}
