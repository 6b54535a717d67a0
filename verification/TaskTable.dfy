/** The plugin task table: a fixed table of timed tasks shared by schedulers,
    cancellers and one worker that drops the lock to run each callback. */
module TaskTable {
  const TASK_MAX := 64
  const TWO64 := 0x1_0000_0000_0000_0000

  type u64 = x: int | 0 <= x < 0x1_0000_0000_0000_0000

  /** A slot of the table; `fn` is the callback with its argument, 0 for NULL. */
  datatype Task = Task(id: nat, fn: nat, runAt: u64, active: bool)

  /** What the caller asked for: `due` is the true sum of the clock and the delay. */
  datatype Job = Job(fn: nat, due: nat)

  datatype Firing = Firing(id: nat, fn: nat, at: u64)

  /** Waiting for the condition variable, or running a callback with the lock
      released in the middle of a pass that began at time `now`. */
  datatype Worker = Waiting | Running(next: nat, now: u64)

  /** The shared state, the worker, and the history of one running period. */
  datatype Host = Host(
    tasks: seq<Task>, nextId: nat, clock: u64, worker: Worker,
    issued: map<nat, Job>, fired: seq<Firing>, cancelled: set<nat>)

  /** The critical sections, in any order and any number. */
  datatype Step =
    | Enqueue(fn: nat, now: u64)
    | AfterMs(delay: u64, fn: nat, now: u64)
    | Cancel(id: nat)
    | Wake(now: u64)
    | Resume

  predicate Enabled(h: Host, s: Step) {
    match s
    case Enqueue(_, now) => h.clock <= now
    case AfterMs(_, _, now) => h.clock <= now
    case Cancel(_) => true
    case Wake(now) => h.clock <= now && h.worker.Waiting?
    case Resume => h.worker.Running?
  }

  /** The first slot at or after `i` that is not active. */
  function FreeSlot(tasks: seq<Task>, i: nat): (j: nat)
    requires i <= |tasks|
    ensures i <= j <= |tasks|
    ensures j < |tasks| ==> !tasks[j].active
    decreases |tasks| - i
  {
    if i < |tasks| && tasks[i].active then FreeSlot(tasks, i + 1) else i
  }

  /** The first active slot at or after `i` that holds `id`. */
  function SlotOf(tasks: seq<Task>, id: nat, i: nat): (j: nat)
    requires i <= |tasks|
    ensures i <= j <= |tasks|
    ensures j < |tasks| ==> tasks[j].active && tasks[j].id == id
    ensures forall k :: i <= k < j ==> !(tasks[k].active && tasks[k].id == id)
    decreases |tasks| - i
  {
    if i < |tasks| && !(tasks[i].active && tasks[i].id == id) then SlotOf(tasks, id, i + 1) else i
  }

  predicate Due(t: Task, now: u64) {
    t.active && t.runAt <= now
  }

  /** The first slot at or after `i` that is due at `now`. */
  function DueSlot(tasks: seq<Task>, i: nat, now: u64): (j: nat)
    requires i <= |tasks|
    ensures i <= j <= |tasks|
    ensures j < |tasks| ==> Due(tasks[j], now)
    ensures forall k :: i <= k < j ==> !Due(tasks[k], now)
    decreases |tasks| - i
  {
    if i < |tasks| && !Due(tasks[i], now) then DueSlot(tasks, i + 1, now) else i
  }

  /** Putting a task into the first free slot; the table may be full. */
  function Scheduled(h: Host, fn: nat, delay: nat, now: u64): Host {
    var slot := FreeSlot(h.tasks, 0);
    if fn == 0 || slot == |h.tasks| then
      h.(clock := now)
    else
      h.(clock := now, nextId := h.nextId + 1,
         tasks := h.tasks[slot := Task(h.nextId, fn, (now + delay) % TWO64, true)],
         issued := h.issued[h.nextId := Job(fn, now + delay)])
  }

  /** The worker's part of a pass from slot `i` until it runs a callback or the pass ends. */
  function Worked(h: Host, i: nat, now: u64): Host
    requires i <= |h.tasks|
  {
    var j := DueSlot(h.tasks, i, now);
    if j == |h.tasks| then
      h.(worker := Waiting)
    else
      var t := h.tasks[j];
      h.(worker := Running(j + 1, now), tasks := h.tasks[j := t.(active := false)],
         fired := h.fired + [Firing(t.id, t.fn, h.clock)])
  }

  predicate Sane(h: Host) {
    |h.tasks| == TASK_MAX && (h.worker.Running? ==> h.worker.next <= TASK_MAX)
  }

  function Next(h: Host, s: Step): (r: Host)
    requires Sane(h) && Enabled(h, s)
    ensures Sane(r)
  {
    match s
    case Enqueue(fn, now) => Scheduled(h, fn, 0, now)
    case AfterMs(delay, fn, now) => Scheduled(h, fn, delay, now)
    case Cancel(id) =>
      var j := SlotOf(h.tasks, id, 0);
      if j == |h.tasks| then h
      else h.(tasks := h.tasks[j := h.tasks[j].(active := false)], cancelled := h.cancelled + {id})
    case Wake(now) => Worked(h.(clock := now), 0, now)
    case Resume => Worked(h, h.worker.next, h.worker.now)
  }

  /* ---------- the table itself ---------- */

  datatype Rc = OK | EINVAL | EINTERNAL

  class Table {
    const tasks: array<Task>
    var nextId: nat
    ghost var clock: u64
    ghost var worker: Worker
    ghost var issued: map<nat, Job>
    ghost var fired: seq<Firing>
    ghost var cancelled: set<nat>

    ghost predicate Valid()
      reads this
    {
      tasks.Length == TASK_MAX && (worker.Running? ==> worker.next <= TASK_MAX)
    }

    ghost function Value(): Host
      reads this, tasks
    {
      Host(tasks[..], nextId, clock, worker, issued, fired, cancelled)
    }

    /** plugin_sched_init: a cleared table */
    constructor (now: u64)
      ensures Valid() && fresh(tasks) && Value() == Start(1, now)
    {
      tasks := new Task[TASK_MAX](_ => NO_TASK);
      nextId := 1;
      clock, worker, issued, fired, cancelled := now, Waiting, map[], [], {};
    }

    method HostSchedAfterMs(delay: u64, fn: nat, now: u64) returns (rc: Rc, id: nat)
      requires Valid() && clock <= now
      modifies this, tasks
      ensures Valid() && Value() == Next(old(Value()), AfterMs(delay, fn, now))
      ensures rc == OK <==> nextId == old(nextId) + 1
      ensures rc == EINTERNAL <==> fn != 0 && forall k :: 0 <= k < TASK_MAX ==> old(tasks[k].active)
      ensures rc == OK ==> id == old(nextId) && issued == old(issued)[id := Job(fn, now + delay)]
      ensures rc == EINVAL <==> fn == 0
    {
      id := 0;
      clock := now;
      if fn == 0 {
        return EINVAL, 0;
      }
      for i := 0 to TASK_MAX
        invariant FreeSlot(tasks[..], i) == FreeSlot(tasks[..], 0)
        invariant forall k :: 0 <= k < i ==> tasks[k].active
        invariant Valid() && nextId == old(nextId) && Value() == old(Value()).(clock := now)
      {
        if !tasks[i].active {
          id := nextId;
          nextId := nextId + 1;
          tasks[i] := Task(id, fn, (now + delay) % TWO64, true);
          issued := issued[id := Job(fn, now + delay)];
          return OK, id;
        }
      }
      rc := EINTERNAL;
    }

    method HostSchedEnqueue(fn: nat, now: u64) returns (rc: Rc)
      requires Valid() && clock <= now
      modifies this, tasks
      ensures Valid() && Value() == Next(old(Value()), Enqueue(fn, now))
      ensures rc == EINVAL <==> fn == 0
    {
      clock := now;
      if fn == 0 {
        return EINVAL;
      }
      for i := 0 to TASK_MAX
        invariant FreeSlot(tasks[..], i) == FreeSlot(tasks[..], 0)
        invariant Valid() && Value() == old(Value()).(clock := now)
      {
        if !tasks[i].active {
          tasks[i] := Task(nextId, fn, now, true);
          issued := issued[nextId := Job(fn, now)];
          nextId := nextId + 1;
          return OK;
        }
      }
      rc := EINTERNAL;
    }

    method HostSchedCancel(id: nat) returns (rc: Rc)
      requires Valid()
      modifies this, tasks
      ensures Valid() && Value() == Next(old(Value()), Cancel(id))
      ensures rc == OK <==> Pending(old(Value()), id)
      ensures rc == OK || rc == EINVAL
    {
      for i := 0 to TASK_MAX
        invariant SlotOf(tasks[..], id, i) == SlotOf(tasks[..], id, 0)
        invariant Valid() && Value() == old(Value())
      {
        if tasks[i].active && tasks[i].id == id {
          tasks[i] := tasks[i].(active := false);
          cancelled := cancelled + {id};
          return OK;
        }
      }
      rc := EINVAL;
    }

    /** The worker from taking the lock to releasing it: `from` is 0 at the start
        of a pass and the slot after the last one run within it. */
    method WorkerSection(from: nat, now: u64) returns (next: nat, fn: nat)
      requires Valid() && from <= TASK_MAX
      modifies this, tasks
      ensures Valid() && Value() == Worked(old(Value()), from, now)
      ensures next == TASK_MAX + 1 <==> Value().worker.Waiting?
      ensures Value().worker.Running? ==> Value().worker == Running(next, now) && fn == fired[|fired| - 1].fn
    {
      for i := from to TASK_MAX
        invariant DueSlot(tasks[..], i, now) == DueSlot(tasks[..], from, now)
        invariant Valid() && Value() == old(Value())
      {
        if tasks[i].active && tasks[i].runAt <= now {
          fn := tasks[i].fn;
          fired := fired + [Firing(tasks[i].id, fn, clock)];
          tasks[i] := tasks[i].(active := false);
          worker := Running(i + 1, now);
          return i + 1, fn;
        }
      }
      worker := Waiting;
      return TASK_MAX + 1, 0;
    }
  }

  const NO_TASK := Task(0, 0, 0, false)

  function Start(firstId: nat, now: u64): Host {
    Host(seq(TASK_MAX, _ => NO_TASK), firstId, now, Waiting, map[], [], {})
  }

  ghost predicate Pending(h: Host, id: nat) {
    exists k :: 0 <= k < |h.tasks| && h.tasks[k].active && h.tasks[k].id == id
  }
}
