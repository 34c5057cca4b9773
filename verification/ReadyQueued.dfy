/** No runnable process is lost: as long as no fork gets a slot and then finds too few frames, every Ready
    process but idle is in the run queue, at the level of its nice value.
 */
module ReadyQueued {
  import opened Options
  import opened Processes
  import opened SchedulerInvariant

  ghost predicate QueuedAt(levels: seq<seq<Pid>>, pid: Pid, level: int) {
    0 <= level < |levels| && pid in levels[level]
  }

  /** Every Ready process except idle and those in `lost` is queued. */
  ghost predicate AllQueued(slots: Slots, levels: seq<seq<Pid>>, lost: set<Pid>) {
    forall x :: Get(slots, x).Some? && Get(slots, x).value.state.Ready? && x != IDLE && x !in lost ==>
      QueuedAt(levels, x, Get(slots, x).value.nice - NICE_MIN)
  }

  ghost predicate NoneLost(s: Sched) {
    AllQueued(s.slots, s.levels, {})
  }

  // ---------------------------------------------------------------------------
  // The steps of an operation
  // ---------------------------------------------------------------------------

  lemma ReadyQueues(s: Sched, s': Sched, pid: Pid)
    requires Get(s.slots, pid).Some? && ReadyEffect(s, s', pid) && AllQueued(s.slots, s.levels, {pid})
    ensures NoneLost(s')
  {
  }

  lemma Relax(s: Sched, pid: Pid)
    requires NoneLost(s)
    ensures AllQueued(s.slots, s.levels, {pid})
  {
  }

  lemma StateQueues(s: Sched, s': Sched, pid: Pid, state: ProcessState)
    requires NoneLost(s) && Get(s.slots, pid).Some? && StateEffect(s, s', pid, state) && !state.Ready?
    ensures NoneLost(s')
  {
  }

  lemma WokenQueues(s: Sched, pid: Pid)
    requires Mid(s, None, {}) && NoneLost(s) && Get(s.slots, pid).Some?
    requires var state := Get(s.slots, pid).value.state;
             state.Blocked? || state.Waiting? || state.Sleeping? || state.Stopped?
    ensures NoneLost(MakeReady(s, pid))
  {
    WokenMid(s, pid);
    Relax(s, pid);
    hide Mid;
    ReadyQueues(s, MakeReady(s, pid), pid);
  }

  lemma PoppedQueues(s: Sched, s1: Sched, s': Sched, l: nat)
    requires NoneLost(s) && l < |s.levels| && s.levels[l] != [] && Get(s.slots, s.levels[l][0]).Some?
    requires s1.slots == s.slots && StateEffect(s1, s', s.levels[l][0], Running)
    requires s1.levels == s.levels[l := s.levels[l][1..]]
    ensures NoneLost(s')
  {
    forall x | Get(s'.slots, x).Some? && Get(s'.slots, x).value.state.Ready? && x != IDLE
      ensures QueuedAt(s'.levels, x, Get(s'.slots, x).value.nice - NICE_MIN)
    {
      assert x != s.levels[l][0] && Get(s'.slots, x) == Get(s.slots, x);
      StaysBehind(s.levels, l, x, Get(s.slots, x).value.nice - NICE_MIN);
    }
  }

  lemma SwitchQueues(s: Sched)
    requires Mid(s, None, {}) && NoneLost(s)
    ensures NoneLost(Switch(s))
  {
    var (s1, pid) := Pop(s);
    var to := if pid.Some? then pid.value else IDLE;
    assert Get(s.slots, IDLE).Some? by { assert SlotOk(s.slots, 0); }
    hide PoolOk, QueueOk, MaskOk, ParentsOk, InitOk, WaitOk, RunOk, NoneLost, StateEffect, Pop;
    PopBest(s);
    if pid.Some? {
      PopQueue(s);
      StateChanges(s1, to, Running);
      PoppedQueues(s, s1, SetState(s1, to, Running), TrailingZeros(s.mask));
    } else {
      StateChanges(s, IDLE, Running);
      StateQueues(s, SetState(s, IDLE, Running), IDLE, Running);
    }
    NoneLostFields(SetState(s1, to, Running), Switch(s));
  }

  lemma NoneLostFields(s: Sched, s': Sched)
    requires NoneLost(s) && s'.slots == s.slots && s'.levels == s.levels
    ensures NoneLost(s')
  {
  }

  lemma StaysBehind(levels: seq<seq<Pid>>, l: nat, x: Pid, k: int)
    requires l < |levels| && levels[l] != [] && x != levels[l][0] && QueuedAt(levels, x, k)
    ensures QueuedAt(levels[l := levels[l][1..]], x, k)
  {
  }

  lemma {:induction false} WakeAllQueues(s: Sched, pids: seq<Pid>)
    requires Mid(s, None, {}) && NoRepeats(pids) && NoneLost(s)
    requires forall x :: x in pids ==> Get(s.slots, x).Some? && Get(s.slots, x).value.state.Sleeping?
    ensures NoneLost(WakeAll(s, pids))
    decreases |pids|
  {
    hide Mid, MakeReady, NoneLost;
    if pids != [] {
      assert pids[0] in pids;
      SleeperMid(s, pids[0]);
      WokenQueues(s, pids[0]);
      assert forall x :: x in pids[1..] ==> x in pids && x != pids[0];
      WakeAllQueues(MakeReady(s, pids[0]), pids[1..]);
    }
  }

  lemma RequeueQueues(s: Sched)
    requires Mid(s, None, {}) && NoneLost(s) && (s.current == IDLE ==> Get(s.slots, IDLE).value.state.Running?)
    ensures NoneLost(Requeue(s))
  {
    assert Get(s.slots, s.current).Some? && PoolOk(s.slots);
    var p := Get(s.slots, s.current).value;
    if p.state.Running? {
      if s.current == IDLE {
        StateChanges(s, IDLE, Ready);
        hide Mid;
      } else {
        RunningQueues(s);
      }
    }
  }

  lemma RunningQueues(s: Sched)
    requires Mid(s, None, {}) && NoneLost(s) && s.current != IDLE && Get(s.slots, s.current).value.state.Running?
    ensures NoneLost(MakeReady(s, s.current))
  {
    assert Get(s.slots, s.current).Some?;
    StateMid(s, s.current, Blocked, None, {});
    var s1 := SetState(s, s.current, Blocked);
    StateQueues(s, s1, s.current, Blocked);
    WokenQueues(s1, s.current);
    TwiceSet(s, s.current);
  }

  lemma ScheduleQueues(s: Sched, now: nat)
    requires Mid(s, None, {}) && NoneLost(s) && (s.current == IDLE ==> Get(s.slots, IDLE).value.state.Running?)
    ensures NoneLost(Schedule(s, now))
  {
    assert PoolOk(s.slots) && s.slots[..|s.slots|] == s.slots;
    assert Get(s.slots, s.current).Some?;
    DueAre(s.slots, |s.slots|, now);
    WakeAllMid(s, Due(s.slots, now));
    WakeAllQueues(s, Due(s.slots, now));
    hide Mid, NoneLost;
    var s1 := WakeAll(s, Due(s.slots, now));
    RequeueMid(s1);
    RequeueQueues(s1);
    SwitchQueues(Requeue(s1));
  }

  lemma WakeParentQueues(s: Sched, z: Pid, dying: Option<Pid>, news: set<Pid>)
    requires Mid(s, dying, news) && NoneLost(s) && Get(s.slots, z).Some?
    ensures NoneLost(WakeParent(s, z))
  {
    var up := Get(s.slots, z).value.parent;
    if up.Some? && Get(s.slots, up.value).Some? && WaitsFor(Get(s.slots, up.value).value.state, z) {
      NiceOf(s.slots, up.value);
      NotReadyUnqueued(s.slots, s.levels, up.value);
      ReadyMid(s, up.value, dying, news);
      Relax(s, up.value);
      hide Mid;
      ReadyQueues(s, MakeReady(s, up.value), up.value);
    }
  }

  lemma AdoptQueues(s: Sched, child: Pid, dead: Pid)
    requires Mid(s, Some(dead), {dead}) && NoneLost(s) && Get(s.slots, child).Some? && child != IDLE
    requires Get(s.slots, child).value.parent == Some(dead)
    ensures NoneLost(Adopt(s, child, s.init.value))
  {
    SetParentMid(s, child, dead);
    var s1 := SetParent(s, child, s.init.value);
    hide Mid;
    assert NoneLost(s1);
    hide NoneLost;
    if Get(s1.slots, child).value.state.Zombie? {
      WakeParentQueues(s1, child, Some(dead), {dead, child});
    }
  }

  lemma {:induction false} AdoptAllQueues(s: Sched, children: seq<Pid>, dead: Pid)
    requires Mid(s, Some(dead), {dead}) && NoRepeats(children) && NoneLost(s)
    requires forall x :: x in children ==>
               x != IDLE && Get(s.slots, x).Some? && Get(s.slots, x).value.parent == Some(dead)
    ensures NoneLost(AdoptAll(s, children, s.init.value))
    decreases |children|
  {
    hide Mid, Adopt, NoneLost;
    if children != [] {
      assert children[0] in children;
      SomeInit(s, Some(dead), {dead});
      AdoptMid(s, children[0], dead);
      AdoptQueues(s, children[0], dead);
      assert forall x :: x in children[1..] ==> x in children && x != children[0];
      AdoptAllQueues(Adopt(s, children[0], s.init.value), children[1..], dead);
    }
  }

  // ---------------------------------------------------------------------------
  // The operations
  // ---------------------------------------------------------------------------

  lemma ExitQueues(s: Sched, code: int)
    requires Inv(s) && NoneLost(s) && s.current != IDLE && s.init != Some(s.current)
    ensures NoneLost(Exit(s, code))
  {
    assert Get(s.slots, s.current).Some?;
    DeathMid(s, code);
    DeadChildren(s, code);
    OrphansMoved(s, code);
    var dead := SetState(s, s.current, Zombie(code));
    StateQueues(s, dead, s.current, Zombie(code));
    hide Mid, Inv, NoneLost, AdoptAll, ChildrenOf, SetState, WakeParent, NoRepeats;
    var children := ChildrenOf(dead.slots, s.current);
    AdoptAllQueues(dead, children, s.current);
    var adopted := AdoptAll(dead, children, s.init.value);
    WakeParentMid(adopted, s.current, None, {s.current});
    WakeParentQueues(adopted, s.current, None, {s.current});
    assert {s.current} - {s.current} == {};
    SwitchQueues(WakeParent(adopted, s.current));
  }

  /** The pool has room for one more process. */
  ghost predicate HasRoom(slots: Slots) {
    exists k: nat :: FreeIndex(slots, k)
  }

  /** The wrapping search looks at every slot, so it fails only when the pool is full. */
  lemma CreateIffRoom(s: Sched, parent: Pid)
    ensures Create(s, parent).1.Some? <==> HasRoom(s.slots)
  {
    if HasRoom(s.slots) {
      var k: nat :| FreeIndex(s.slots, k);
      var offset := (k - s.next) % PID_MAX;
      assert Tried(s.next, offset) == k;
    }
  }

  /** A fork that will get a slot and then find too few frames. */
  ghost predicate LosesChild(s: Sched, e: Event) {
    e.Forks? && HasRoom(s.slots) && !Fits(e.free, e.tables)
  }

  lemma ForkQueues(s: Sched, free: nat, tables: Option<nat>)
    requires Inv(s) && NoneLost(s)
    ensures NoneLost(Fork(s, free, tables)) <==> Fits(free, tables) || !HasRoom(s.slots)
  {
    CreateMid(s);
    CreateIffRoom(s, s.current);
    var (s1, pid) := Create(s, s.current);
    hide PoolOk, QueueOk, MaskOk, ParentsOk, InitOk, WaitOk, RunOk, Create, HasRoom, Fits;
    if pid.Some? {
      ReadyMid(s1, pid.value, None, {});
      assert AllQueued(s1.slots, s1.levels, {pid.value});
      ReadyQueues(s1, MakeReady(s1, pid.value), pid.value);
      assert Get(s1.slots, pid.value).value.state.Ready?;
    }
  }

  lemma RemovedQueues(s: Sched, s1: Sched, s': Sched, pid: Pid)
    requires NoneLost(s) && Get(s.slots, pid).Some? && StateEffect(s, s1, pid, Stopped) && s'.slots == s1.slots
    requires |s'.levels| == |s.levels| && forall l :: 0 <= l < |s.levels| ==> s'.levels[l] == Without(s.levels[l], pid)
    ensures NoneLost(s')
  {
    forall x | Get(s'.slots, x).Some? && Get(s'.slots, x).value.state.Ready? && x != IDLE
      ensures QueuedAt(s'.levels, x, Get(s'.slots, x).value.nice - NICE_MIN)
    {
      hide Without;
      var l := Get(s.slots, x).value.nice - NICE_MIN;
      assert QueuedAt(s.levels, x, l);
      WithoutIs(s.levels[l], pid);
    }
  }

  lemma StopQueues(s: Sched, pid: Pid)
    requires Inv(s) && NoneLost(s) && pid != IDLE && pid != s.current
    ensures NoneLost(Stop(s, pid))
  {
    if Get(s.slots, pid).Some? {
      var p := Get(s.slots, pid).value;
      assert |s.levels| == LEVELS && PoolOk(s.slots) && QueueOk(s.slots, s.levels) && MaskOk(s.levels, s.mask);
      hide Inv, RemoveFrom, NoneLost, PoolOk, QueueOk, MaskOk, StateEffect;
      StateChanges(s, pid, Stopped);
      var s1 := SetState(s, pid, Stopped);
      if p.state.Ready? {
        RemoveQueue(s.slots, s.levels, s.mask, pid);
        RemovedSize(s, pid);
        RemovedQueues(s, s1, Stop(s, pid), pid);
      } else if !p.state.Zombie? && !p.state.Stopped? {
        StateQueues(s, s1, pid, Stopped);
      }
    }
  }

  lemma RemovedSize(s: Sched, pid: Pid)
    requires MaskOk(s.levels, s.mask)
    ensures |RemoveFrom(s.levels, s.mask, pid, 0).0| == LEVELS
  {
    RemoveFromIs(s.levels, s.mask, pid, 0);
  }

  lemma WaitQueues(s: Sched, child: Option<Pid>)
    requires Inv(s) && NoneLost(s) && s.current != IDLE
    ensures NoneLost(Wait(s, child))
  {
    assert PoolOk(s.slots) && Get(s.slots, s.current).Some?;
    if FindZombie(s.slots, 0, s.current, child).Some? {
      var k := FindZombie(s.slots, 0, s.current, child).value;
      SlotIsGot(s.slots, k);
      FreeMid(s, s.slots[k].value.pid);
      hide Inv;
    } else {
      WaitingMid(s, child);
      var s1 := SetState(s, s.current, Waiting(child));
      StateQueues(s, s1, s.current, Waiting(child));
      SwitchQueues(s1);
    }
  }

  lemma GiveUpQueues(s: Sched, state: ProcessState)
    requires Inv(s) && NoneLost(s) && s.current != IDLE && (state.Blocked? || state.Sleeping?)
    ensures NoneLost(SetState(s, s.current, state))
  {
    assert PoolOk(s.slots) && Get(s.slots, s.current).Some?;
    StateChanges(s, s.current, state);
    StateQueues(s, SetState(s, s.current, state), s.current, state);
  }

  /** A step loses a Ready process exactly when it is a fork that finds a free slot and too few frames. */
  lemma StepQueues(s: Sched, e: Event)
    requires Inv(s) && NoneLost(s) && Allowed(s, e)
    ensures NoneLost(Step(s, e)) <==> !LosesChild(s, e)
  {
    assert PoolOk(s.slots) && Get(s.slots, s.current).Some?;
    match e
    case Timer(now) => ScheduleQueues(s, now);
    case Forks(free, tables) => ForkQueues(s, free, tables);
    case Exits(code) => ExitQueues(s, code);
    case Waits(child) => WaitQueues(s, child);
    case Blocks =>
      GiveUp(s, Blocked);
      GiveUpQueues(s, Blocked);
      SwitchQueues(SetState(s, s.current, Blocked));
    case Sleeps(wakeAt, now) =>
      GiveUp(s, Sleeping(wakeAt));
      GiveUpQueues(s, Sleeping(wakeAt));
      ScheduleQueues(SetState(s, s.current, Sleeping(wakeAt)), now);
    case Woken(pid) =>
      if Get(s.slots, pid).Some? && (Get(s.slots, pid).value.state.Blocked? || Get(s.slots, pid).value.state.Waiting?) {
        WokenQueues(s, pid);
      }
    case Signalled(pid, signum) => SignalQueues(s, pid, signum);
    case Reniced(nice) => NiceMid(s, nice);
  }

  lemma SignalQueues(s: Sched, pid: Pid, signum: nat)
    requires Inv(s) && NoneLost(s) && pid != IDLE && (signum == SIGSTOP ==> pid != s.current)
    ensures NoneLost(Signal(s, pid, signum))
  {
    if Get(s.slots, pid).Some? && 0 < signum < SIGNALS {
      var state := Get(s.slots, pid).value.state;
      if signum == SIGSTOP {
        StopQueues(s, pid);
      } else if (signum == SIGCONT && state.Stopped?) || (signum != SIGCONT && (state.Blocked? || state.Sleeping?)) {
        WokenQueues(s, pid);
      }
    }
  }

  /** Over every run whose forks find a frame for each table, or a full pool, no runnable process is lost. */
  lemma {:induction false} RunQueues(s: Sched, events: seq<Event>)
    requires Inv(s) && NoneLost(s)
    requires forall k :: 0 <= k < |events| ==> !LosesChild(After(s, events[..k]), events[k])
    ensures NoneLost(After(s, events))
  {
    hide Inv, Step, NoneLost, LosesChild, Allowed;
    if events != [] {
      var n := |events| - 1;
      forall k | 0 <= k < n
        ensures !LosesChild(After(s, events[..n][..k]), events[..n][k])
      {
        assert events[..n][..k] == events[..k];
      }
      RunQueues(s, events[..n]);
      RunKeeps(s, events[..n]);
      if Allowed(After(s, events[..n]), events[n]) { StepQueues(After(s, events[..n]), events[n]); }
    }
  }

  /** The machine starts with nobody lost. */
  lemma BootQueues()
    ensures NoneLost(Booted())
  {
    ColdSpawn();
    var s := Booted();
    hide Spawn;
    assert s.slots[1].value.nice - NICE_MIN == 20 && s.levels[20] == [Pid(1, 1)];
  }

  /** From boot on, a run in which every fork fits loses no one. */
  lemma BootedRunQueues(events: seq<Event>)
    requires forall k :: 0 <= k < |events| && events[k].Forks? ==> Fits(events[k].free, events[k].tables)
    ensures NoneLost(After(Booted(), events))
  {
    hide Inv, Step, NoneLost, Allowed, Fits, HasRoom, Booted;
    BootInv();
    BootQueues();
    RunQueues(Booted(), events);
  }

  /** At boot slot 2 is free; a fork that finds no frame leaves its child Ready and in no queue. */
  lemma LostAtBoot()
    ensures Inv(Booted()) && NoneLost(Booted()) && Allowed(Booted(), Forks(0, Some(0)))
    ensures LosesChild(Booted(), Forks(0, Some(0))) && !NoneLost(Step(Booted(), Forks(0, Some(0))))
  {
    BootInv();
    BootQueues();
    assert FreeIndex(Booted().slots, 2) by { ColdSpawn(); }
    hide Inv, NoneLost, Step, Booted;
    StepQueues(Booted(), Forks(0, Some(0)));
  }
}
