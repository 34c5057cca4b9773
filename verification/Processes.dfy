/** Processes, the PID pool and the run queue as values, and what each scheduler operation does to them.
 */
module Processes {
  import opened Options
  import opened ForkGuard

  const PID_MAX: nat := 32768
  const LEVELS: nat := 40
  const MASK_BITS: nat := 64
  const NICE_MIN: int := -20
  const NICE_MAX: int := 19
  const SIGSTOP: nat := 19
  const SIGCONT: nat := 18
  const SIGNALS: nat := 64

  datatype Pid = Pid(index: nat, generation: nat)

  const IDLE: Pid := Pid(0, 0)

  datatype ProcessState =
    | Ready
    | Running
    | Blocked
    | Waiting(child: Option<Pid>)
    | Sleeping(wakeAt: nat)
    | Stopped
    | Zombie(code: int)

  datatype Process = Process(pid: Pid, parent: Option<Pid>, state: ProcessState, nice: int)

  type Slots = seq<Option<Process>>

  /** One core: the pool, its run queue with the bitmap of non-empty levels, the running process, the
      process orphans go to, and where the next slot search starts. */
  datatype Sched = Sched(slots: Slots, levels: seq<seq<Pid>>, mask: seq<bool>, current: Pid, init: Option<Pid>,
                         next: nat)

  // ---------------------------------------------------------------------------
  // The pool
  // ---------------------------------------------------------------------------

  function Get(slots: Slots, pid: Pid): Option<Process> {
    if pid.index < |slots| && slots[pid.index].Some? && slots[pid.index].value.pid == pid
    then slots[pid.index] else None
  }

  function SetState(s: Sched, pid: Pid, state: ProcessState): Sched {
    match Get(s.slots, pid)
    case Some(p) => s.(slots := s.slots[pid.index := Some(p.(state := state))])
    case None => s
  }

  function SetParent(s: Sched, pid: Pid, parent: Pid): Sched {
    match Get(s.slots, pid)
    case Some(p) => s.(slots := s.slots[pid.index := Some(p.(parent := Some(parent)))])
    case None => s
  }

  predicate FreeIndex(slots: Slots, index: nat) {
    0 < index < PID_MAX && (index < |slots| ==> slots[index].None?)
  }

  function Tried(next: nat, offset: nat): nat {
    (next + offset) % PID_MAX
  }

  /** The first free index among next, next + 1, ..., wrapping at PID_MAX, after `offset` tries. */
  function Search(slots: Slots, next: nat, offset: nat): (r: Option<nat>)
    requires offset <= PID_MAX
    ensures r.Some? ==> FreeIndex(slots, r.value)
    ensures r.None? ==> forall k :: offset <= k < PID_MAX ==> !FreeIndex(slots, Tried(next, k))
    decreases PID_MAX - offset
  {
    if offset == PID_MAX then None
    else if FreeIndex(slots, Tried(next, offset)) then Some(Tried(next, offset))
    else Search(slots, next, offset + 1)
  }

  function Padded(slots: Slots, index: nat): Slots {
    if index < |slots| then slots else slots + seq(index + 1 - |slots|, _ => None)
  }

  /** `create_process`: a fresh process in a free slot, Ready but not queued. */
  function Create(s: Sched, parent: Pid): (Sched, Option<Pid>) {
    match Search(s.slots, s.next, 0)
    case None => (s, None)
    case Some(index) =>
      var pid := Pid(index, 1);
      var p := Process(pid, Some(parent), Ready, 0);
      (s.(slots := Padded(s.slots, index)[index := Some(p)], next := (index + 1) % PID_MAX), Some(pid))
  }

  function FreeSlot(s: Sched, pid: Pid): Sched {
    if Get(s.slots, pid).Some? then s.(slots := s.slots[pid.index := None]) else s
  }

  // ---------------------------------------------------------------------------
  // The run queue
  // ---------------------------------------------------------------------------

  /** `nice_to_priority_level`: 8-bit wrapping subtraction, then sign extension to 64 bits. */
  function LevelOf(nice: int): int {
    var d := (nice - NICE_MIN + 128) % 256 - 128;
    if d < 0 then d + 0x1_0000_0000_0000_0000 else d
  }

  function Push(s: Sched, pid: Pid, nice: int): Sched {
    var level := LevelOf(nice);
    if 0 <= level < |s.levels| && level < |s.mask|
    then s.(levels := s.levels[level := s.levels[level] + [pid]], mask := s.mask[level := true])
    else s
  }

  /** Index of the lowest set bit, or the width when no bit is set. */
  function TrailingZeros(mask: seq<bool>): (r: nat)
    ensures r <= |mask| && (r < |mask| ==> mask[r]) && forall k :: 0 <= k < r ==> !mask[k]
  {
    if mask == [] || mask[0] then 0 else 1 + TrailingZeros(mask[1..])
  }

  function Pop(s: Sched): (Sched, Option<Pid>) {
    var level := TrailingZeros(s.mask);
    if level < |s.levels| && level < |s.mask| && s.levels[level] != [] then
      var rest := s.levels[level][1..];
      (s.(levels := s.levels[level := rest], mask := s.mask[level := rest != []]), Some(s.levels[level][0]))
    else (s, None)
  }

  function Without(queue: seq<Pid>, pid: Pid): (r: seq<Pid>) {
    if queue == [] then []
    else if queue[0] == pid then Without(queue[1..], pid)
    else [queue[0]] + Without(queue[1..], pid)
  }

  /** `remove`: every level from `from` on loses `pid`; a level that becomes empty loses its bit. */
  function RemoveFrom(levels: seq<seq<Pid>>, mask: seq<bool>, pid: Pid, from: nat): (seq<seq<Pid>>, seq<bool>)
    decreases |levels| - from
  {
    if from >= |levels| || from >= |mask| then (levels, mask)
    else
      var queue := Without(levels[from], pid);
      var bit := if |queue| < |levels[from]| && queue == [] then false else mask[from];
      RemoveFrom(levels[from := queue], mask[from := bit], pid, from + 1)
  }

  // ---------------------------------------------------------------------------
  // Waking and switching
  // ---------------------------------------------------------------------------

  /** A process becomes Ready and goes to the back of its level. */
  function MakeReady(s: Sched, pid: Pid): Sched {
    match Get(s.slots, pid)
    case Some(p) => Push(SetState(s, pid, Ready), pid, p.nice)
    case None => s
  }

  function Unblock(s: Sched, pid: Pid): Sched {
    match Get(s.slots, pid)
    case Some(p) => if p.state.Blocked? || p.state.Waiting? then MakeReady(s, pid) else s
    case None => s
  }

  predicate WaitsFor(state: ProcessState, child: Pid) {
    state.Waiting? && (state.child == None || state.child == Some(child))
  }

  function WakeParent(s: Sched, child: Pid): Sched {
    match Get(s.slots, child)
    case None => s
    case Some(c) =>
      if c.parent.Some? && Get(s.slots, c.parent.value).Some? &&
         WaitsFor(Get(s.slots, c.parent.value).value.state, child)
      then Unblock(s, c.parent.value)
      else s
  }

  /** The next process to run: the queue's choice, else idle; it becomes Running and current. */
  function Switch(s: Sched): Sched {
    var (s1, pid) := Pop(s);
    var to := if pid.Some? then pid.value else IDLE;
    SetState(s1, to, Running).(current := to)
  }

  /** Processes whose sleep is over, in slot order. */
  function Due(slots: Slots, now: nat): seq<Pid> {
    if slots == [] then []
    else
      var front := Due(slots[..|slots| - 1], now);
      var last := slots[|slots| - 1];
      if last.Some? && last.value.state.Sleeping? && last.value.state.wakeAt <= now
      then front + [last.value.pid] else front
  }

  function WakeAll(s: Sched, pids: seq<Pid>): Sched
    decreases |pids|
  {
    if pids == [] then s else WakeAll(MakeReady(s, pids[0]), pids[1..])
  }

  /** The running process goes back to its queue; idle is never queued. */
  function Requeue(s: Sched): Sched {
    match Get(s.slots, s.current)
    case Some(p) =>
      if p.state.Running? then
        var s1 := SetState(s, s.current, Ready);
        if s.current != IDLE then Push(s1, s.current, p.nice) else s1
      else s
    case None => s
  }

  /** `schedule_on_core` at tick `now`. */
  function Schedule(s: Sched, now: nat): Sched {
    Switch(Requeue(WakeAll(s, Due(s.slots, now))))
  }

  // ---------------------------------------------------------------------------
  // Life and death
  // ---------------------------------------------------------------------------

  /** A child of the running process, queued. */
  function Spawn(s: Sched): Sched {
    var (s1, pid) := Create(s, s.current);
    if pid.Some? then MakeReady(s1, pid.value) else s1
  }

  /** The memory part of a fork with `free` frames left succeeds; a parent without page table needs none. */
  predicate Fits(free: nat, tables: Option<nat>) {
    tables.Some? ==> ForkFits(free, tables.value)
  }

  /** `fork`: the slot comes first, the copy of the address space next.  When the copy fails the slot stays
      occupied, Ready and unqueued. */
  function Fork(s: Sched, free: nat, tables: Option<nat>): Sched {
    if Fits(free, tables) then Spawn(s) else Create(s, s.current).0
  }

  function ChildrenOf(slots: Slots, parent: Pid): seq<Pid> {
    if slots == [] then []
    else
      var front := ChildrenOf(slots[..|slots| - 1], parent);
      var last := slots[|slots| - 1];
      if last.Some? && last.value.parent == Some(parent) then front + [last.value.pid] else front
  }

  /** One orphan goes to `init`; if it is already dead, init is told. */
  function Adopt(s: Sched, child: Pid, init: Pid): Sched {
    var s1 := SetParent(s, child, init);
    if Get(s1.slots, child).Some? && Get(s1.slots, child).value.state.Zombie? then WakeParent(s1, child) else s1
  }

  function AdoptAll(s: Sched, children: seq<Pid>, init: Pid): Sched
    decreases |children|
  {
    if children == [] then s else AdoptAll(Adopt(s, children[0], init), children[1..], init)
  }

  function Exit(s: Sched, code: int): Sched {
    var dead := SetState(s, s.current, Zombie(code));
    var adopted := if s.init.Some? then AdoptAll(dead, ChildrenOf(dead.slots, s.current), s.init.value) else dead;
    Switch(WakeParent(adopted, s.current))
  }

  predicate Reapable(slots: Slots, k: nat, parent: Pid, child: Option<Pid>) {
    && k < |slots| && slots[k].Some? && slots[k].value.parent == Some(parent) && slots[k].value.state.Zombie?
    && (child.Some? ==> slots[k].value.pid == child.value)
  }

  /** The first slot at or after `k` holding a zombie child of `parent` that `child` selects. */
  function FindZombie(slots: Slots, k: nat, parent: Pid, child: Option<Pid>): (r: Option<nat>)
    requires k <= |slots|
    ensures r.Some? ==> k <= r.value && Reapable(slots, r.value, parent, child)
    ensures forall j :: k <= j < (if r.Some? then r.value else |slots|) ==> !Reapable(slots, j, parent, child)
    decreases |slots| - k
  {
    if k == |slots| then None
    else if Reapable(slots, k, parent, child) then Some(k)
    else FindZombie(slots, k + 1, parent, child)
  }

  function Reap(s: Sched, parent: Pid, child: Option<Pid>): (Sched, Option<(Pid, int)>) {
    match FindZombie(s.slots, 0, parent, child)
    case None => (s, None)
    case Some(k) =>
      var p := s.slots[k].value;
      if Get(s.slots, p.pid).Some? then (FreeSlot(s, p.pid), Some((p.pid, p.state.code))) else (s, None)
  }

  function HasChildren(slots: Slots, parent: Pid): bool {
    exists k :: 0 <= k < |slots| && slots[k].Some? && slots[k].value.parent == Some(parent)
  }

  /** One round of `wait`: reap, or give up the processor as Waiting. */
  function Wait(s: Sched, child: Option<Pid>): Sched {
    if !HasChildren(s.slots, s.current) then s
    else if Reap(s, s.current, child).1.Some? then Reap(s, s.current, child).0
    else Switch(SetState(s, s.current, Waiting(child)))
  }

  function Block(s: Sched): Sched {
    Switch(SetState(s, s.current, Blocked))
  }

  function Sleep(s: Sched, wakeAt: nat, now: nat): Sched {
    Schedule(SetState(s, s.current, Sleeping(wakeAt)), now)
  }

  function SetNice(s: Sched, nice: int): Sched {
    match Get(s.slots, s.current)
    case Some(p) => s.(slots := s.slots[s.current.index := Some(p.(nice := nice))])
    case None => s
  }

  function Stop(s: Sched, pid: Pid): Sched {
    match Get(s.slots, pid)
    case None => s
    case Some(p) =>
      if p.state.Zombie? || p.state.Stopped? then s
      else if p.state.Ready? then
        var (levels, mask) := RemoveFrom(s.levels, s.mask, pid, 0);
        SetState(s, pid, Stopped).(levels := levels, mask := mask)
      else SetState(s, pid, Stopped)
  }

  /** `send_signal_to`: SIGSTOP stops, SIGCONT resumes, anything else cuts a sleep or block short. */
  function Signal(s: Sched, pid: Pid, signum: nat): Sched {
    match Get(s.slots, pid)
    case None => s
    case Some(p) =>
      if signum == 0 || signum >= SIGNALS then s
      else if signum == SIGSTOP then Stop(s, pid)
      else if signum == SIGCONT then if p.state.Stopped? then MakeReady(s, pid) else s
      else if p.state.Blocked? || p.state.Sleeping? then MakeReady(s, pid) else s
  }
}
