/** The scheduler of one core, mutated in place by every operation.

    Each method is proved equal to the corresponding operation on values; the invariant and the run
    theorems are about those.
 */
module Scheduler {
  import opened Options
  import opened Processes
  import opened SchedulerInvariant

  class Core {
    var slots: Slots
    var next: nat
    var levels: seq<seq<Pid>>
    var mask: seq<bool>
    var current: Pid
    var init: Option<Pid>

    function View(): Sched
      reads this
    {
      Sched(slots, levels, mask, current, init, next)
    }

    /** The core after boot: idle runs, init is queued and registered. */
    constructor ()
      ensures View() == Booted() && Inv(View())
    {
      slots, next := [Some(Process(IDLE, None, Running, 0))], 1;
      levels, mask := seq(LEVELS, _ => []), seq(MASK_BITS, _ => false);
      current, init := IDLE, None;
      new;
      assert View() == Cold();
      ForkChild(0, None);
      init := Some(Pid(1, 1));
      BootInv();
    }

    // -------------------------------------------------------------------------
    // Pool
    // -------------------------------------------------------------------------

    method ChangeState(pid: Pid, state: ProcessState)
      modifies this`slots
      ensures View() == SetState(old(View()), pid, state)
    {
      if Get(slots, pid).Some? {
        slots := slots[pid.index := Some(slots[pid.index].value.(state := state))];
      }
    }

    /** The cyclic search for a free slot. */
    method AllocateSlot() returns (r: Option<Pid>)
      modifies this`slots, this`next
      ensures var found := Search(old(slots), old(next), 0);
              && (found.None? ==> r == None && slots == old(slots) && next == old(next))
              && (found.Some? ==>
                    && r == Some(Pid(found.value, 1)) && slots == Padded(old(slots), found.value)
                    && next == (found.value + 1) % PID_MAX)
    {
      var start := next;
      for offset := 0 to PID_MAX
        invariant slots == old(slots) && next == start
        invariant Search(slots, start, 0) == Search(slots, start, offset)
      {
        var index := (start + offset) % PID_MAX;
        assert index == Tried(start, offset);
        if index == 0 {
          continue;
        }
        if index < |slots| {
          if slots[index].None? {
            next := (index + 1) % PID_MAX;
            return Some(Pid(index, 1));
          }
        } else {
          Pad(index);
          next := (index + 1) % PID_MAX;
          return Some(Pid(index, 1));
        }
      }
      return None;
    }

    /** Empty slots up to and including `index`. */
    method Pad(index: nat)
      modifies this`slots
      ensures slots == Padded(old(slots), index)
    {
      while |slots| <= index
        invariant |old(slots)| <= |slots| && (|slots| <= index + 1 || slots == old(slots))
        invariant slots == old(slots) + seq(|slots| - |old(slots)|, _ => None)
        decreases index + 1 - |slots|
      {
        slots := slots + [None];
      }
    }

    method CreateProcess(parent: Pid) returns (r: Option<Pid>)
      modifies this`slots, this`next
      ensures (View(), r) == Create(old(View()), parent)
    {
      r := AllocateSlot();
      if r.Some? {
        Pad(r.value.index);
        slots := slots[r.value.index := Some(Process(r.value, Some(parent), Ready, 0))];
      }
    }

    // -------------------------------------------------------------------------
    // Run queue
    // -------------------------------------------------------------------------

    method PushPid(pid: Pid, nice: int)
      requires |levels| == LEVELS && |mask| == MASK_BITS && NICE_MIN <= nice <= NICE_MAX
      modifies this`levels, this`mask
      ensures View() == Push(old(View()), pid, nice)
    {
      LevelOfNice(nice);
      var level := LevelOf(nice);
      levels := levels[level := levels[level] + [pid]];
      mask := mask[level := true];
    }

    /** The lowest set bit of the bitmap. */
    method LowestBit() returns (bit: nat)
      ensures bit == TrailingZeros(mask)
    {
      bit := 0;
      while bit < |mask| && !mask[bit]
        invariant bit <= |mask| && TrailingZeros(mask) == bit + TrailingZeros(mask[bit..])
      {
        assert mask[bit..][1..] == mask[bit + 1..];
        bit := bit + 1;
      }
    }

    method PopPid() returns (r: Option<Pid>)
      requires MaskOk(levels, mask)
      modifies this`levels, this`mask
      ensures (View(), r) == Pop(old(View()))
    {
      var level := LowestBit();
      if level == |mask| {
        return None;
      }
      assert mask[level] && level < LEVELS && levels[level] != [];
      r := Some(levels[level][0]);
      levels := levels[level := levels[level][1..]];
      if levels[level] == [] {
        mask := mask[level := false];
      } else {
        assert mask == mask[level := true];
      }
    }

    /** Drop `pid` from every level, clearing the bit of a level that empties. */
    method RemovePid(pid: Pid)
      requires |levels| == LEVELS && |mask| == MASK_BITS
      modifies this`levels, this`mask
      ensures (levels, mask) == RemoveFrom(old(levels), old(mask), pid, 0)
    {
      for l := 0 to LEVELS
        invariant |levels| == LEVELS && |mask| == MASK_BITS
        invariant RemoveFrom(old(levels), old(mask), pid, 0) == RemoveFrom(levels, mask, pid, l)
      {
        var before := |levels[l]|;
        var queue := Retain(levels[l], pid);
        levels := levels[l := queue];
        if |queue| < before && queue == [] {
          mask := mask[l := false];
        } else {
          assert mask == mask[l := mask[l]];
        }
      }
    }

    /** The queue without `pid`, in order. */
    method Retain(queue: seq<Pid>, pid: Pid) returns (r: seq<Pid>)
      ensures r == Without(queue, pid)
    {
      r := [];
      for i := 0 to |queue|
        invariant r + Without(queue[i..], pid) == Without(queue, pid)
      {
        assert queue[i..][0] == queue[i] && queue[i..][1..] == queue[i + 1..];
        if queue[i] != pid {
          r := r + [queue[i]];
        }
      }
    }

    // -------------------------------------------------------------------------
    // Waking and switching
    // -------------------------------------------------------------------------

    method BecomeReady(pid: Pid)
      requires PoolOk(slots) && |levels| == LEVELS && |mask| == MASK_BITS
      modifies this`slots, this`levels, this`mask
      ensures View() == MakeReady(old(View()), pid)
    {
      var p := Get(slots, pid);
      if p.Some? {
        NiceOf(slots, pid);
        ChangeState(pid, Ready);
        PushPid(pid, p.value.nice);
      }
    }

    method UnblockPid(pid: Pid)
      requires PoolOk(slots) && |levels| == LEVELS && |mask| == MASK_BITS
      modifies this`slots, this`levels, this`mask
      ensures View() == Unblock(old(View()), pid)
    {
      var p := Get(slots, pid);
      if p.Some? && (p.value.state.Blocked? || p.value.state.Waiting?) {
        BecomeReady(pid);
      }
    }

    method WakeWaitingParent(child: Pid)
      requires PoolOk(slots) && |levels| == LEVELS && |mask| == MASK_BITS
      modifies this`slots, this`levels, this`mask
      ensures View() == WakeParent(old(View()), child)
    {
      var c := Get(slots, child);
      if c.None? || c.value.parent.None? {
        return;
      }
      var up := c.value.parent.value;
      var parent := Get(slots, up);
      if parent.Some? && WaitsFor(parent.value.state, child) {
        UnblockPid(up);
      }
    }

    /** Take the next process off the queue, or idle, and make it current.  Both processes are in the
        pool, so neither "not in pool" panic can happen. */
    method SwitchAway()
      requires Mid(View(), None, {}) && NoRunner(slots)
      modifies this`slots, this`levels, this`mask, this`current
      ensures View() == Switch(old(View())) && Inv(View())
      ensures Get(slots, old(current)).Some? && Get(slots, current).Some?
    {
      SwitchInv(View());
      SwitchPool(View());
      hide Mid, Inv, NoRunner;
      var next := PopPid();
      var to := if next.Some? then next.value else IDLE;
      ChangeState(to, Running);
      current := to;
    }

    /** Processes whose sleep is over become Ready. */
    method WakeSleepers(now: nat)
      requires Mid(View(), None, {})
      modifies this`slots, this`levels, this`mask
      ensures View() == WakeAll(old(View()), Due(old(slots), now))
      ensures Mid(View(), None, {}) && current == old(current)
    {
      var pids := [];
      for k := 0 to |slots|
        invariant pids == Due(slots[..k], now)
      {
        assert slots[..k + 1][..k] == slots[..k];
        if slots[k].Some? && slots[k].value.state.Sleeping? && slots[k].value.state.wakeAt <= now {
          pids := pids + [slots[k].value.pid];
        }
      }
      assert slots[..|slots|] == slots;
      DueAre(slots, |slots|, now);
      hide Mid;
      for i := 0 to |pids|
        invariant WakeAll(old(View()), pids) == WakeAll(View(), pids[i..])
        invariant Mid(View(), None, {}) && current == old(current)
        invariant NoRepeats(pids) && Asleep(slots, pids[i..])
      {
        assert pids[i..][0] == pids[i] && pids[i..][1..] == pids[i + 1..] && pids[i] in pids[i..];
        SleeperMid(View(), pids[i]);
        StillAsleep(View(), MakeReady(View(), pids[i]), pids, i);
        MidSizes(View());
        BecomeReady(pids[i]);
      }
    }

    /** `schedule_on_core` for the core that also wakes sleepers. */
    method ScheduleNext(now: nat)
      requires Mid(View(), None, {}) && (current == IDLE ==> Get(slots, IDLE).value.state.Running?)
      modifies this`slots, this`levels, this`mask, this`current
      ensures View() == Schedule(old(View()), now) && Inv(View())
    {
      IdleAwake(View(), now);
      WakeSleepers(now);
      RequeueMid(View());
      MidSizes(View());
      hide Mid;
      var p := Get(slots, current);
      ghost var s := View();
      if p.Some? && p.value.state.Running? {
        NiceOf(slots, current);
        ChangeState(current, Ready);
        if current != IDLE {
          PushPid(current, p.value.nice);
        }
      }
      assert View() == Requeue(s);
      SwitchAway();
    }

    // -------------------------------------------------------------------------
    // Operations
    // -------------------------------------------------------------------------

    /** `fork` with the outcome of its memory part given by the frames it finds and the tables it needs. */
    method ForkChild(free: nat, tables: Option<nat>)
      requires PoolOk(slots) && |levels| == LEVELS && |mask| == MASK_BITS
      modifies this`slots, this`next, this`levels, this`mask
      ensures View() == Fork(old(View()), free, tables)
    {
      ghost var s := View();
      var pid := CreateProcess(current);
      if pid.Some? && Fits(free, tables) {
        CreatedSlots(s, current);
        BecomeReady(pid.value);
      }
    }

    /** Children of the dead process go to init one by one. */
    method AdoptOrphans(dead: Pid)
      requires Mid(View(), Some(dead), {dead}) && init.Some?
      requires forall x :: x in ChildrenOf(slots, dead) ==> x != IDLE
      modifies this`slots, this`levels, this`mask
      ensures View() == AdoptAll(old(View()), ChildrenOf(old(slots), dead), init.value)
    {
      var children := [];
      for k := 0 to |slots|
        invariant children == ChildrenOf(slots[..k], dead)
      {
        assert slots[..k + 1][..k] == slots[..k];
        if slots[k].Some? && slots[k].value.parent == Some(dead) {
          children := children + [slots[k].value.pid];
        }
      }
      assert slots[..|slots|] == slots;
      ChildrenAre(slots, |slots|, dead);
      hide Mid, ChildrenOf, Adopt;
      for i := 0 to |children|
        invariant AdoptAll(old(View()), children, init.value) == AdoptAll(View(), children[i..], init.value)
        invariant Mid(View(), Some(dead), {dead}) && NoRepeats(children)
        invariant Orphans(slots, children[i..], dead)
      {
        assert children[i..][0] == children[i] && children[i..][1..] == children[i + 1..];
        assert children[i] in children[i..];
        AdoptMid(View(), children[i], dead);
        StillOrphans(View(), Adopt(View(), children[i], init.value), children, i, dead);
        AdoptOne(children[i], dead);
      }
    }

    method AdoptOne(child: Pid, ghost dead: Pid)
      requires Mid(View(), Some(dead), {dead}) && init.Some? && child != IDLE && Get(slots, child).Some?
      modifies this`slots, this`levels, this`mask
      ensures View() == Adopt(old(View()), child, init.value)
    {
      SetParentMid(View(), child, dead);
      MidSizes(SetParent(View(), child, init.value));
      slots := slots[child.index := Some(slots[child.index].value.(parent := init))];
      hide Mid;
      var c := Get(slots, child);
      if c.Some? && c.value.state.Zombie? {
        WakeWaitingParent(child);
      }
    }

    /** `exit`: the current process becomes a zombie, its children go to init, its parent is told. */
    method ExitCurrent(code: int)
      requires Inv(View()) && current != IDLE && init != Some(current)
      modifies this
      ensures View() == Exit(old(View()), code) && Inv(View())
    {
      var pid := current;
      ghost var s := View();
      DeadChildren(s, code);
      OrphansMoved(s, code);
      hide Mid, Inv, NoRunner, NoRepeats, ChildrenOf, AdoptAll;
      ChangeState(pid, Zombie(code));
      AdoptOrphans(pid);
      WakeParentMid(View(), pid, None, {pid});
      MidSizes(View());
      assert {pid} - {pid} == {};
      NobodyRuns(View(), WakeParent(View(), pid));
      WakeWaitingParent(pid);
      SwitchAway();
    }

    /** `reap`: the first matching zombie child leaves the pool. */
    method ReapZombie(parent: Pid, child: Option<Pid>) returns (r: Option<(Pid, int)>)
      modifies this`slots
      ensures (View(), r) == Reap(old(View()), parent, child)
    {
      for k := 0 to |slots|
        invariant slots == old(slots) && FindZombie(slots, 0, parent, child) == FindZombie(slots, k, parent, child)
      {
        if slots[k].Some? {
          var p := slots[k].value;
          if p.parent == Some(parent) && p.state.Zombie? && (child.None? || p.pid == child.value) {
            assert Reapable(slots, k, parent, child);
            if Get(slots, p.pid).None? {
              return None;
            }
            slots := slots[p.pid.index := None];
            return Some((p.pid, p.state.code));
          }
        }
      }
      return None;
    }

    method AnyChildren(parent: Pid) returns (r: bool)
      ensures r <==> HasChildren(slots, parent)
    {
      for k := 0 to |slots|
        invariant forall j :: 0 <= j < k && slots[j].Some? ==> slots[j].value.parent != Some(parent)
      {
        if slots[k].Some? && slots[k].value.parent == Some(parent) {
          return true;
        }
      }
      return false;
    }

    /** One round of `wait`: reap a child, or go to sleep as Waiting. */
    method WaitChild(child: Option<Pid>) returns (r: Option<(Pid, int)>)
      requires Inv(View()) && current != IDLE
      modifies this
      ensures View() == Wait(old(View()), child) && Inv(View())
      ensures r == if HasChildren(old(slots), old(current)) then Reap(old(View()), old(current), child).1 else None
    {
      ghost var s := View();
      WaitKeeps(s, child);
      var any := AnyChildren(current);
      if !any {
        return None;
      }
      r := ReapZombie(current, child);
      if r.None? {
        NothingReaped(s, child);
        WaitingMid(s, child);
        NobodyElseRuns(s, Waiting(child));
        hide Mid, Inv, NoRunner;
        ChangeState(current, Waiting(child));
        SwitchAway();
      }
    }

    method BlockCurrent()
      requires Inv(View()) && current != IDLE
      modifies this
      ensures View() == Block(old(View())) && Inv(View())
    {
      GiveUp(View(), Blocked);
      hide Mid, Inv, NoRunner;
      ChangeState(current, Blocked);
      SwitchAway();
    }

    method SleepUntil(wakeAt: nat, now: nat)
      requires Inv(View()) && current != IDLE
      modifies this
      ensures View() == Sleep(old(View()), wakeAt, now) && Inv(View())
    {
      GiveUp(View(), Sleeping(wakeAt));
      hide Mid, Inv, NoRunner;
      ChangeState(current, Sleeping(wakeAt));
      ScheduleNext(now);
    }

    /** `send_signal_to`, as far as it moves processes between states. */
    method SendSignal(pid: Pid, signum: nat)
      requires Inv(View()) && pid != IDLE && (signum == SIGSTOP ==> pid != current)
      modifies this
      ensures View() == Signal(old(View()), pid, signum) && Inv(View())
    {
      SignalKeeps(View(), pid, signum);
      MidSizes(View());
      hide Inv;
      var p := Get(slots, pid);
      if p.None? || signum == 0 || signum >= SIGNALS {
        return;
      }
      if signum == SIGSTOP {
        if p.value.state.Zombie? || p.value.state.Stopped? {
        } else if p.value.state.Ready? {
          ChangeState(pid, Stopped);
          RemovePid(pid);
        } else {
          ChangeState(pid, Stopped);
        }
      } else if signum == SIGCONT {
        if p.value.state.Stopped? {
          BecomeReady(pid);
        }
      } else if p.value.state.Blocked? || p.value.state.Sleeping? {
        BecomeReady(pid);
      }
    }

    method Renice(nice: int)
      requires Inv(View()) && NICE_MIN <= nice <= NICE_MAX
      modifies this`slots
      ensures View() == SetNice(old(View()), nice) && Inv(View())
    {
      NiceMid(View(), nice);
      hide Mid;
      if Get(slots, current).Some? {
        slots := slots[current.index := Some(slots[current.index].value.(nice := nice))];
      }
    }

    /** Any run of allowed events drives the core through the states of the value-level run. */
    method Run(events: seq<Event>)
      requires Inv(View())
      modifies this
      ensures View() == After(old(View()), events) && Inv(View())
    {
      hide Inv, Processes.Schedule, Exit, Wait, Signal, Fork, Sleep, Block;
      for k := 0 to |events|
        invariant Inv(View()) && View() == After(old(View()), events[..k])
      {
        assert events[..k + 1][..k] == events[..k];
        if Allowed(View(), events[k]) {
          StepKeeps(View(), events[k]);
          InvFacts(View());
          match events[k]
          case Timer(now) => ScheduleNext(now);
          case Forks(free, tables) => ForkChild(free, tables);
          case Exits(code) => ExitCurrent(code);
          case Waits(child) => var r := WaitChild(child);
          case Blocks => BlockCurrent();
          case Sleeps(wakeAt, now) => SleepUntil(wakeAt, now);
          case Woken(pid) => UnblockPid(pid);
          case Signalled(pid, signum) => SendSignal(pid, signum);
          case Reniced(nice) => Renice(nice);
        }
      }
      assert events[..|events|] == events;
    }
  }

  ghost predicate Asleep(slots: Slots, pids: seq<Pid>) {
    forall x :: x in pids ==> Get(slots, x).Some? && Get(slots, x).value.state.Sleeping?
  }

  lemma StillAsleep(s: Sched, s': Sched, pids: seq<Pid>, i: nat)
    requires i < |pids| && NoRepeats(pids) && Asleep(s.slots, pids[i..]) && Get(s.slots, pids[i]).Some?
    requires ReadyEffect(s, s', pids[i])
    ensures Asleep(s'.slots, pids[i + 1..])
  {
    assert forall x :: x in pids[i + 1..] ==> x in pids[i..] && x != pids[i];
  }

  ghost predicate Orphans(slots: Slots, children: seq<Pid>, dead: Pid) {
    forall x :: x in children ==> x != IDLE && Get(slots, x).Some? && Get(slots, x).value.parent == Some(dead)
  }

  lemma StillOrphans(s: Sched, s': Sched, children: seq<Pid>, i: nat, dead: Pid)
    requires i < |children| && NoRepeats(children) && Orphans(s.slots, children[i..], dead) && s.init.Some?
    requires AdoptEffect(s, s', children[i])
    ensures Orphans(s'.slots, children[i + 1..], dead)
  {
    var rest := children[i + 1..];
    assert forall x :: x in rest ==> x in children[i..] && x != children[i];
    forall x | x in rest
      ensures x != IDLE && Get(s'.slots, x).Some? && Get(s'.slots, x).value.parent == Some(dead)
    {
      assert x in children[i..] && SameLife(s.slots, s'.slots, x);
    }
    assert Orphans(s'.slots, rest, dead);
  }

  lemma MidSizes(s: Sched)
    requires exists dying, news :: Mid(s, dying, news)
    ensures PoolOk(s.slots) && |s.levels| == LEVELS && |s.mask| == MASK_BITS && MaskOk(s.levels, s.mask)
  {
  }

  lemma InvFacts(s: Sched)
    requires Inv(s)
    ensures Mid(s, None, {}) && PoolOk(s.slots) && |s.levels| == LEVELS && |s.mask| == MASK_BITS
    ensures Get(s.slots, s.current).Some? && Get(s.slots, s.current).value.state.Running?
  {
  }

  lemma NothingReaped(s: Sched, child: Option<Pid>)
    requires Inv(s) && Reap(s, s.current, child).1.None?
    ensures forall k :: 0 <= k < |s.slots| ==> !Reapable(s.slots, k, s.current, child)
  {
    var k := FindZombie(s.slots, 0, s.current, child);
    if k.Some? { SlotIsGot(s.slots, k.value); }
  }

  lemma NobodyElseRuns(s: Sched, state: ProcessState)
    requires Inv(s) && !state.Running?
    ensures NoRunner(SetState(s, s.current, state).slots)
  {
    StateChanges(s, s.current, state);
  }

  lemma NobodyRuns(s: Sched, s': Sched)
    requires NoRunner(s.slots) && WakeEffect(s, s')
    ensures NoRunner(s'.slots)
  {
  }

  /** Waking sleepers does not touch a running idle process. */
  lemma IdleAwake(s: Sched, now: nat)
    requires Mid(s, None, {}) && (s.current == IDLE ==> Get(s.slots, IDLE).value.state.Running?)
    ensures var s1 := WakeAll(s, Due(s.slots, now));
            s.current == IDLE ==> Get(s1.slots, IDLE).Some? && Get(s1.slots, IDLE).value.state.Running?
  {
    assert PoolOk(s.slots) && s.slots[..|s.slots|] == s.slots;
    assert Get(s.slots, s.current).Some?;
    DueAre(s.slots, |s.slots|, now);
    WakeAllMid(s, Due(s.slots, now));
  }

  lemma SwitchPool(s: Sched)
    requires Mid(s, None, {}) && NoRunner(s.slots)
    ensures MaskOk(s.levels, s.mask)
    ensures Get(Switch(s).slots, s.current).Some? && Get(Switch(s).slots, Switch(s).current).Some?
  {
    SwitchInv(s);
    PopBest(s);
    if Pop(s).1.Some? { PopQueue(s); }
    var to, s1 := Switch(s).current, Pop(s).0;
    assert s1.slots == s.slots && Get(s.slots, s.current).Some?;
    assert Get(s.slots, to).Some? by { assert SlotOk(s.slots, 0); }
    StateChanges(s1, to, Running);
    assert Switch(s).slots == SetState(s1, to, Running).slots;
  }
}
