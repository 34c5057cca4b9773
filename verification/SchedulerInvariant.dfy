/** What every scheduler operation keeps: the queue, the current process, the family tree and the
    wait protocol.
 */
module SchedulerInvariant {
  import opened Options
  import opened Processes

  // ---------------------------------------------------------------------------
  // The invariant
  // ---------------------------------------------------------------------------

  /** Slot 0 is idle with generation 0; every other occupant has generation 1, however often reused. */
  function PidAt(k: nat): Pid {
    Pid(k, if k == 0 then 0 else 1)
  }

  ghost predicate SlotOk(slots: Slots, k: nat)
    requires k < |slots|
  {
    slots[k].Some? ==>
      && slots[k].value.pid == PidAt(k) && NICE_MIN <= slots[k].value.nice <= NICE_MAX
      && (k == 0 ==> slots[k].value.parent.None? && (slots[k].value.state.Ready? || slots[k].value.state.Running?))
  }

  ghost predicate PoolOk(slots: Slots) {
    && 0 < |slots| <= PID_MAX && slots[0].Some?
    && forall k :: 0 <= k < |slots| ==> SlotOk(slots, k)
  }

  /** A queued PID occupies a slot, is Ready and sits at the level of its nice value. */
  ghost predicate EntryOk(slots: Slots, pid: Pid, level: int) {
    && pid != IDLE && Get(slots, pid).Some?
    && Get(slots, pid).value.state.Ready? && Get(slots, pid).value.nice - NICE_MIN == level
  }

  ghost predicate NoRepeats(queue: seq<Pid>) {
    forall i, j :: 0 <= i < j < |queue| ==> queue[i] != queue[j]
  }

  ghost predicate LevelOk(slots: Slots, queue: seq<Pid>, level: int) {
    NoRepeats(queue) && forall pid :: pid in queue ==> EntryOk(slots, pid, level)
  }

  ghost predicate QueueOk(slots: Slots, levels: seq<seq<Pid>>) {
    |levels| == LEVELS && forall l :: 0 <= l < LEVELS ==> LevelOk(slots, levels[l], l)
  }

  ghost predicate MaskOk(levels: seq<seq<Pid>>, mask: seq<bool>) {
    && |levels| == LEVELS && |mask| == MASK_BITS
    && (forall l :: 0 <= l < LEVELS ==> (mask[l] <==> levels[l] != []))
    && (forall l :: LEVELS <= l < MASK_BITS ==> !mask[l])
  }

  /** Every parent link names an occupied slot whose process is not a zombie, or the one now `dying`. */
  ghost predicate ParentOk(slots: Slots, k: nat, dying: Option<Pid>)
    requires k < |slots|
  {
    slots[k].Some? && k != 0 ==>
      && slots[k].value.parent.Some?
      && Get(slots, slots[k].value.parent.value).Some?
      && (Get(slots, slots[k].value.parent.value).value.state.Zombie? ==> slots[k].value.parent == dying)
  }

  ghost predicate ParentsOk(slots: Slots, dying: Option<Pid>) {
    forall k :: 0 <= k < |slots| ==> ParentOk(slots, k, dying)
  }

  ghost predicate InitOk(slots: Slots, init: Option<Pid>) {
    && init.Some? && init.value != IDLE
    && Get(slots, init.value).Some? && !Get(slots, init.value).value.state.Zombie?
  }

  /** `p` waits for a child that is already its zombie `z`. */
  ghost predicate Overslept(slots: Slots, p: Pid, z: Pid) {
    && Get(slots, p).Some? && Get(slots, z).Some?
    && Get(slots, z).value.state.Zombie? && Get(slots, z).value.parent == Some(p)
    && WaitsFor(Get(slots, p).value.state, z)
  }

  /** Nobody oversleeps, except over zombies in `news` that have yet to be reported. */
  ghost predicate WaitOk(slots: Slots, news: set<Pid>) {
    forall p, z :: Overslept(slots, p, z) ==> z in news
  }

  ghost predicate RunOk(slots: Slots, current: Pid) {
    && Get(slots, current).Some?
    && forall pid :: Get(slots, pid).Some? && Get(slots, pid).value.state.Running? ==> pid == current
  }

  /** The invariant inside an operation. */
  ghost predicate Mid(s: Sched, dying: Option<Pid>, news: set<Pid>) {
    && PoolOk(s.slots) && QueueOk(s.slots, s.levels) && MaskOk(s.levels, s.mask)
    && ParentsOk(s.slots, dying) && InitOk(s.slots, s.init) && WaitOk(s.slots, news) && RunOk(s.slots, s.current)
  }

  /** The invariant between operations: moreover the current process is Running. */
  ghost predicate Inv(s: Sched) {
    Mid(s, None, {}) && Get(s.slots, s.current).value.state.Running?
  }

  ghost predicate NoRunner(slots: Slots) {
    forall pid :: Get(slots, pid).Some? ==> !Get(slots, pid).value.state.Running?
  }

  ghost predicate Unqueued(levels: seq<seq<Pid>>, pid: Pid) {
    forall l :: 0 <= l < |levels| ==> pid !in levels[l]
  }

  // ---------------------------------------------------------------------------
  // Changing one process
  // ---------------------------------------------------------------------------

  /** The slots with the process at `pid` replaced. */
  function Change(slots: Slots, pid: Pid, p: Process): Slots
    requires Get(slots, pid).Some?
  {
    slots[pid.index := Some(p)]
  }

  lemma GetChange(slots: Slots, pid: Pid, p: Process, other: Pid)
    requires Get(slots, pid).Some? && p.pid == pid
    ensures Get(Change(slots, pid, p), other) == if other == pid then Some(p) else Get(slots, other)
  {
  }

  lemma ChangePool(slots: Slots, pid: Pid, p: Process)
    requires PoolOk(slots) && Get(slots, pid).Some? && p.pid == pid && NICE_MIN <= p.nice <= NICE_MAX
    requires pid == IDLE ==> p.parent.None? && (p.state.Ready? || p.state.Running?)
    ensures PoolOk(Change(slots, pid, p))
  {
    forall k | 0 <= k < |slots|
      ensures SlotOk(Change(slots, pid, p), k)
    {
      assert SlotOk(slots, k);
    }
  }

  lemma ChangeQueue(slots: Slots, levels: seq<seq<Pid>>, pid: Pid, p: Process)
    requires QueueOk(slots, levels) && Get(slots, pid).Some? && p.pid == pid
    requires Unqueued(levels, pid)
    ensures QueueOk(Change(slots, pid, p), levels)
  {
    var slots' := Change(slots, pid, p);
    forall l | 0 <= l < LEVELS
      ensures LevelOk(slots', levels[l], l)
    {
      assert LevelOk(slots, levels[l], l);
      forall x | x in levels[l]
        ensures EntryOk(slots', x, l)
      {
        assert EntryOk(slots, x, l);
        GetChange(slots, pid, p, x);
      }
    }
  }

  /** A process that is not Ready is in no queue. */
  lemma NotReadyUnqueued(slots: Slots, levels: seq<seq<Pid>>, pid: Pid)
    requires QueueOk(slots, levels) && (pid == IDLE || (Get(slots, pid).Some? && !Get(slots, pid).value.state.Ready?))
    ensures Unqueued(levels, pid)
  {
    forall l | 0 <= l < |levels|
      ensures pid !in levels[l]
    {
      assert LevelOk(slots, levels[l], l);
    }
  }

  /** Parents survive a change that kills nobody, or kills the one that is dying. */
  lemma ChangeParents(slots: Slots, pid: Pid, p: Process, dying: Option<Pid>, dying': Option<Pid>)
    requires PoolOk(slots) && ParentsOk(slots, dying) && Get(slots, pid).Some? && p.pid == pid
    requires p.state.Zombie? ==> Get(slots, pid).value.state.Zombie? || dying' == Some(pid)
    requires dying.Some? ==> dying' == dying
    requires pid != IDLE && p.parent != Get(slots, pid).value.parent ==>
               && p.parent.Some? && Get(slots, p.parent.value).Some?
               && !Get(slots, p.parent.value).value.state.Zombie?
               && !p.state.Zombie? == !Get(slots, pid).value.state.Zombie?
    ensures ParentsOk(Change(slots, pid, p), dying')
  {
    var slots' := Change(slots, pid, p);
    forall k | 0 <= k < |slots'|
      ensures ParentOk(slots', k, dying')
    {
      assert ParentOk(slots, k, dying) && SlotOk(slots, k) && SlotOk(slots, pid.index);
      if slots'[k].Some? && k != 0 {
        var up := slots'[k].value.parent;
        if up.Some? { GetChange(slots, pid, p, up.value); }
      }
    }
  }

  lemma ChangeInit(slots: Slots, pid: Pid, p: Process, init: Option<Pid>)
    requires InitOk(slots, init) && Get(slots, pid).Some? && p.pid == pid
    requires init == Some(pid) ==> !p.state.Zombie?
    ensures InitOk(Change(slots, pid, p), init)
  {
    GetChange(slots, pid, p, init.value);
  }

  /** Only a process that goes to wait, dies or changes parent can make someone oversleep. */
  lemma ChangeWait(slots: Slots, pid: Pid, p: Process, news: set<Pid>)
    requires WaitOk(slots, news) && Get(slots, pid).Some? && p.pid == pid
    requires p.state.Waiting? ==> p.state == Get(slots, pid).value.state
    requires p.state.Zombie? ==>
               pid in news || (Get(slots, pid).value.state.Zombie? && p.parent == Get(slots, pid).value.parent)
    ensures WaitOk(Change(slots, pid, p), news)
  {
    var slots' := Change(slots, pid, p);
    forall x, z | Overslept(slots', x, z)
      ensures z in news
    {
      GetChange(slots, pid, p, x);
      GetChange(slots, pid, p, z);
      if z !in news { assert Overslept(slots, x, z); }
    }
  }

  lemma ChangeRun(slots: Slots, pid: Pid, p: Process, current: Pid)
    requires RunOk(slots, current) && Get(slots, pid).Some? && p.pid == pid
    requires p.state.Running? ==> pid == current
    ensures RunOk(Change(slots, pid, p), current)
  {
    var slots' := Change(slots, pid, p);
    GetChange(slots, pid, p, current);
    forall x | Get(slots', x).Some? && Get(slots', x).value.state.Running?
      ensures x == current
    {
      GetChange(slots, pid, p, x);
    }
  }

  // ---------------------------------------------------------------------------
  // Changing the queue
  // ---------------------------------------------------------------------------

  /** On legal nice values the wrapping arithmetic is a plain difference: 40 levels, in order. */
  lemma LevelOfNice(nice: int)
    requires NICE_MIN <= nice <= NICE_MAX
    ensures LevelOf(nice) == nice - NICE_MIN && 0 <= LevelOf(nice) < LEVELS
  {
  }

  lemma PushQueue(slots: Slots, levels: seq<seq<Pid>>, mask: seq<bool>, pid: Pid, l: nat)
    requires QueueOk(slots, levels) && MaskOk(levels, mask) && l < LEVELS
    requires EntryOk(slots, pid, l) && Unqueued(levels, pid)
    ensures QueueOk(slots, levels[l := levels[l] + [pid]])
    ensures MaskOk(levels[l := levels[l] + [pid]], mask[l := true])
  {
    hide EntryOk;
    var levels' := levels[l := levels[l] + [pid]];
    forall k | 0 <= k < LEVELS
      ensures LevelOk(slots, levels'[k], k)
    {
      assert LevelOk(slots, levels[k], k);
    }
  }

  /** A waking process: not dead, not running, not queued yet. */
  lemma ReadyMid(s: Sched, pid: Pid, dying: Option<Pid>, news: set<Pid>)
    requires Mid(s, dying, news) && Get(s.slots, pid).Some? && pid != IDLE && Unqueued(s.levels, pid)
    requires !Get(s.slots, pid).value.state.Zombie? && !Get(s.slots, pid).value.state.Running?
    ensures Mid(MakeReady(s, pid), dying, news)
    ensures ReadyEffect(s, MakeReady(s, pid), pid)
  {
    hide PoolOk, QueueOk, MaskOk, ParentsOk, InitOk, WaitOk, RunOk, Unqueued;
    var p := Get(s.slots, pid).value;
    var p' := p.(state := Ready);
    var slots' := Change(s.slots, pid, p');
    NiceOf(s.slots, pid);
    ChangePool(s.slots, pid, p');
    ChangeQueue(s.slots, s.levels, pid, p');
    ChangeParents(s.slots, pid, p', dying, dying);
    ChangeInit(s.slots, pid, p', s.init);
    ChangeWait(s.slots, pid, p', news);
    ChangeRun(s.slots, pid, p', s.current);
    LevelOfNice(p.nice);
    Sizes(s);
    GetChange(s.slots, pid, p', pid);
    PushQueue(slots', s.levels, s.mask, pid, LevelOf(p.nice));
    forall x
      ensures Get(slots', x) == if x == pid then Some(p') else Get(s.slots, x)
    {
      GetChange(s.slots, pid, p', x);
    }
  }

  /** Only `pid` changed, from whatever it was to Ready and queued last at its level. */
  ghost predicate ReadyEffect(s: Sched, s': Sched, pid: Pid)
    requires Get(s.slots, pid).Some?
  {
    && s'.current == s.current && s'.init == s.init && |s'.slots| == |s.slots|
    && (forall x :: Get(s'.slots, x) ==
                    if x == pid then Some(Get(s.slots, pid).value.(state := Ready)) else Get(s.slots, x))
    && |s'.levels| == |s.levels| && var l := Get(s.slots, pid).value.nice - NICE_MIN;
    && 0 <= l < |s.levels| && s'.levels == s.levels[l := s.levels[l] + [pid]]
  }

  lemma NiceOf(slots: Slots, pid: Pid)
    requires PoolOk(slots) && Get(slots, pid).Some?
    ensures NICE_MIN <= Get(slots, pid).value.nice <= NICE_MAX && pid == PidAt(pid.index)
    ensures Get(slots, pid).value.pid == pid
    ensures pid == IDLE ==> Get(slots, pid).value.parent.None?
    ensures pid == IDLE ==> Get(slots, pid).value.state.Ready? || Get(slots, pid).value.state.Running?
  {
    assert SlotOk(slots, pid.index);
  }

  lemma Sizes(s: Sched)
    requires MaskOk(s.levels, s.mask)
    ensures |s.levels| == LEVELS && |s.mask| == MASK_BITS
  {
  }

  /** A process leaves the Running or a waiting state without dying. */
  lemma StateMid(s: Sched, pid: Pid, state: ProcessState, dying: Option<Pid>, news: set<Pid>)
    requires Mid(s, dying, news) && Get(s.slots, pid).Some? && pid != IDLE
    requires !Get(s.slots, pid).value.state.Ready?
    requires state.Blocked? || state.Sleeping? || state.Stopped?
    ensures Mid(SetState(s, pid, state), dying, news)
    ensures StateEffect(s, SetState(s, pid, state), pid, state)
  {
    hide PoolOk, QueueOk, MaskOk, ParentsOk, InitOk, WaitOk, RunOk, Unqueued;
    var p' := Get(s.slots, pid).value.(state := state);
    NiceOf(s.slots, pid);
    NotReadyUnqueued(s.slots, s.levels, pid);
    ChangePool(s.slots, pid, p');
    ChangeQueue(s.slots, s.levels, pid, p');
    ChangeParents(s.slots, pid, p', dying, dying);
    ChangeInit(s.slots, pid, p', s.init);
    ChangeWait(s.slots, pid, p', news);
    ChangeRun(s.slots, pid, p', s.current);
    StateChanges(s, pid, state);
  }

  ghost predicate StateEffect(s: Sched, s': Sched, pid: Pid, state: ProcessState)
    requires Get(s.slots, pid).Some?
  {
    && s' == s.(slots := s'.slots) && |s'.slots| == |s.slots|
    && forall x :: Get(s'.slots, x) ==
         if x == pid then Some(Get(s.slots, pid).value.(state := state)) else Get(s.slots, x)
  }

  lemma StateChanges(s: Sched, pid: Pid, state: ProcessState)
    requires PoolOk(s.slots) && Get(s.slots, pid).Some?
    ensures StateEffect(s, SetState(s, pid, state), pid, state)
    ensures SetState(s, pid, state).slots == Change(s.slots, pid, Get(s.slots, pid).value.(state := state))
  {
    var p' := Get(s.slots, pid).value.(state := state);
    NiceOf(s.slots, pid);
    forall x
      ensures Get(SetState(s, pid, state).slots, x) == if x == pid then Some(p') else Get(s.slots, x)
    {
      GetChange(s.slots, pid, p', x);
    }
  }

  /** A process that found no zombie to reap goes to wait. */
  lemma WaitingMid(s: Sched, child: Option<Pid>)
    requires Inv(s) && s.current != IDLE
    requires forall k :: 0 <= k < |s.slots| ==> !Reapable(s.slots, k, s.current, child)
    ensures Mid(SetState(s, s.current, Waiting(child)), None, {})
    ensures StateEffect(s, SetState(s, s.current, Waiting(child)), s.current, Waiting(child))
  {
    assert Get(s.slots, s.current).Some?;
    hide PoolOk, QueueOk, MaskOk, ParentsOk, InitOk, RunOk, Unqueued;
    var pid := s.current;
    var p' := Get(s.slots, pid).value.(state := Waiting(child));
    NiceOf(s.slots, pid);
    NotReadyUnqueued(s.slots, s.levels, pid);
    ChangePool(s.slots, pid, p');
    ChangeQueue(s.slots, s.levels, pid, p');
    ChangeParents(s.slots, pid, p', None, None);
    ChangeInit(s.slots, pid, p', s.init);
    ChangeRun(s.slots, pid, p', s.current);
    StateChanges(s, pid, Waiting(child));
    var slots' := SetState(s, pid, Waiting(child)).slots;
    forall x, z
      ensures !Overslept(slots', x, z)
    {
      assert !Overslept(s.slots, x, z);
      if z.index < |s.slots| { assert !Reapable(s.slots, z.index, pid, child); }
    }
  }

  /** The current process dies: its children and its waiting parent have yet to hear of it. */
  lemma DeathMid(s: Sched, code: int)
    requires Inv(s) && s.current != IDLE && s.init != Some(s.current)
    ensures Mid(SetState(s, s.current, Zombie(code)), Some(s.current), {s.current})
    ensures StateEffect(s, SetState(s, s.current, Zombie(code)), s.current, Zombie(code))
  {
    assert Get(s.slots, s.current).Some?;
    hide PoolOk, QueueOk, MaskOk, ParentsOk, InitOk, WaitOk, RunOk, Unqueued;
    var pid := s.current;
    var p' := Get(s.slots, pid).value.(state := Zombie(code));
    NiceOf(s.slots, pid);
    NotReadyUnqueued(s.slots, s.levels, pid);
    ChangePool(s.slots, pid, p');
    ChangeQueue(s.slots, s.levels, pid, p');
    ChangeParents(s.slots, pid, p', None, Some(pid));
    ChangeInit(s.slots, pid, p', s.init);
    MoreNews(s.slots, {}, {pid});
    ChangeWait(s.slots, pid, p', {pid});
    ChangeRun(s.slots, pid, p', s.current);
    StateChanges(s, pid, Zombie(code));
  }

  lemma MoreNews(slots: Slots, news: set<Pid>, news': set<Pid>)
    requires WaitOk(slots, news) && news <= news'
    ensures WaitOk(slots, news')
  {
  }

  /** Reporting a zombie to its parent. */
  lemma WakeParentMid(s: Sched, z: Pid, dying: Option<Pid>, news: set<Pid>)
    requires Mid(s, dying, news) && Get(s.slots, z).Some? && Get(s.slots, z).value.state.Zombie?
    ensures Mid(WakeParent(s, z), dying, news - {z})
    ensures WakeEffect(s, WakeParent(s, z))
  {
    var s' := WakeParent(s, z);
    var up := Get(s.slots, z).value.parent;
    if up.Some? && Get(s.slots, up.value).Some? && WaitsFor(Get(s.slots, up.value).value.state, z) {
      hide PoolOk, QueueOk, MaskOk, ParentsOk, InitOk, RunOk, Unqueued;
      NiceOf(s.slots, up.value);
      NotReadyUnqueued(s.slots, s.levels, up.value);
      ReadyMid(s, up.value, dying, news);
      assert s' == MakeReady(s, up.value);
    }
    hide PoolOk, QueueOk, MaskOk, ParentsOk, InitOk, RunOk, Unqueued;
    forall x, y | Overslept(s'.slots, x, y)
      ensures y in news - {z}
    {
      assert Overslept(s.slots, x, y);
    }
  }

  /** Some waiting processes became Ready; nobody else changed. */
  ghost predicate WakeEffect(s: Sched, s': Sched) {
    && s'.current == s.current && s'.init == s.init && |s'.slots| == |s.slots|
    && forall x :: Get(s'.slots, x) == Get(s.slots, x) ||
                   (Get(s.slots, x).Some? && Get(s.slots, x).value.state.Waiting?
                    && Get(s'.slots, x) == Some(Get(s.slots, x).value.(state := Ready)))
  }

  // ---------------------------------------------------------------------------
  // Orphans
  // ---------------------------------------------------------------------------

  lemma SetParentMid(s: Sched, child: Pid, dead: Pid)
    requires Mid(s, Some(dead), {dead}) && Get(s.slots, child).Some? && child != IDLE
    ensures var s1 := SetParent(s, child, s.init.value);
            && Mid(s1, Some(dead), {dead, child}) && s1 == s.(slots := s1.slots) && |s1.slots| == |s.slots|
            && (!Get(s.slots, child).value.state.Zombie? ==> Mid(s1, Some(dead), {dead}))
            && forall x :: Get(s1.slots, x) ==
                           if x == child then Some(Get(s.slots, child).value.(parent := s.init)) else Get(s.slots, x)
  {
    var init := s.init.value;
    var p' := Get(s.slots, child).value.(parent := Some(init));
    var s1 := SetParent(s, child, init);
    assert Get(s.slots, init).Some? && !Get(s.slots, init).value.state.Zombie?;
    hide PoolOk, QueueOk, MaskOk, ParentsOk, InitOk, WaitOk, RunOk, Unqueued;
    NiceOf(s.slots, child);
    ChangePool(s.slots, child, p');
    ParentQueue(s.slots, s.levels, child, init);
    ChangeParents(s.slots, child, p', Some(dead), Some(dead));
    ChangeInit(s.slots, child, p', s.init);
    MoreNews(s.slots, {dead}, {dead, child});
    ChangeWait(s.slots, child, p', {dead, child});
    if !p'.state.Zombie? { ChangeWait(s.slots, child, p', {dead}); }
    ChangeRun(s.slots, child, p', s.current);
    forall x
      ensures Get(s1.slots, x) == if x == child then Some(p') else Get(s.slots, x)
    {
      GetChange(s.slots, child, p', x);
    }
  }

  lemma AdoptMid(s: Sched, child: Pid, dead: Pid)
    requires Mid(s, Some(dead), {dead}) && Get(s.slots, child).Some? && child != IDLE
    requires Get(s.slots, child).value.parent == Some(dead)
    ensures Mid(Adopt(s, child, s.init.value), Some(dead), {dead})
    ensures AdoptEffect(s, Adopt(s, child, s.init.value), child)
  {
    SetParentMid(s, child, dead);
    hide PoolOk, QueueOk, MaskOk, ParentsOk, InitOk, WaitOk, RunOk, SetParent;
    var s1 := SetParent(s, child, s.init.value);
    if Get(s1.slots, child).value.state.Zombie? {
      WakeParentMid(s1, child, Some(dead), {dead, child});
      MoreNews(WakeParent(s1, child).slots, {dead, child} - {child}, {dead});
    }
  }

  /** The child hangs under init now; no other link moved, and nobody died or came back. */
  ghost predicate AdoptEffect(s: Sched, s': Sched, child: Pid)
    requires s.init.Some?
  {
    && s'.current == s.current && s'.init == s.init && |s'.slots| == |s.slots|
    && forall x :: SameLife(s.slots, s'.slots, x) &&
                   (Get(s.slots, x).Some? ==>
                      Get(s'.slots, x).value.parent == if x == child then s.init else Get(s.slots, x).value.parent)
  }

  ghost predicate SameLife(slots: Slots, slots': Slots, x: Pid) {
    && (Get(slots', x).Some? <==> Get(slots, x).Some?)
    && (Get(slots, x).Some? ==>
          && (Get(slots', x).value.state.Zombie? <==> Get(slots, x).value.state.Zombie?)
          && (Get(slots', x).value.state.Running? <==> Get(slots, x).value.state.Running?))
  }

  lemma ParentQueue(slots: Slots, levels: seq<seq<Pid>>, pid: Pid, parent: Pid)
    requires QueueOk(slots, levels) && Get(slots, pid).Some?
    ensures QueueOk(Change(slots, pid, Get(slots, pid).value.(parent := Some(parent))), levels)
  {
    var p' := Get(slots, pid).value.(parent := Some(parent));
    var slots' := Change(slots, pid, p');
    forall l | 0 <= l < LEVELS
      ensures LevelOk(slots', levels[l], l)
    {
      assert LevelOk(slots, levels[l], l);
      forall x | x in levels[l]
        ensures EntryOk(slots', x, l)
      {
        assert EntryOk(slots, x, l);
        GetChange(slots, pid, p', x);
      }
    }
  }

  /** The collected children are the processes whose parent is `parent`, each once. */
  lemma {:induction false} ChildrenAre(slots: Slots, n: nat, parent: Pid)
    requires PoolOk(slots) && n <= |slots|
    ensures forall x :: x in ChildrenOf(slots[..n], parent) <==>
                        x.index < n && Get(slots, x).Some? && Get(slots, x).value.parent == Some(parent)
    ensures NoRepeats(ChildrenOf(slots[..n], parent))
  {
    if n > 0 {
      ChildrenAre(slots, n - 1, parent);
      assert slots[..n][..n - 1] == slots[..n - 1];
      assert SlotOk(slots, n - 1);
    }
  }

  lemma {:induction false} AdoptAllMid(s: Sched, children: seq<Pid>, dead: Pid)
    requires Mid(s, Some(dead), {dead}) && NoRepeats(children)
    requires forall x :: x in children ==>
               x != IDLE && Get(s.slots, x).Some? && Get(s.slots, x).value.parent == Some(dead)
    ensures Mid(AdoptAll(s, children, s.init.value), Some(dead), {dead})
    ensures var s' := AdoptAll(s, children, s.init.value);
            && s'.current == s.current && s'.init == s.init
            && forall x :: SameLife(s.slots, s'.slots, x) &&
                           (Get(s.slots, x).Some? ==>
                              Get(s'.slots, x).value.parent ==
                              if x in children then s.init else Get(s.slots, x).value.parent)
    decreases |children|
  {
    hide Mid, Adopt;
    if children != [] {
      assert children[0] in children;
      SomeInit(s, Some(dead), {dead});
      AdoptMid(s, children[0], dead);
      var s1 := Adopt(s, children[0], s.init.value);
      assert forall x :: x in children[1..] ==> x in children && x != children[0];
      AdoptAllMid(s1, children[1..], dead);
    }
  }

  lemma SomeInit(s: Sched, dying: Option<Pid>, news: set<Pid>)
    requires Mid(s, dying, news)
    ensures s.init.Some?
  {
  }

  /** With no child left under the dead process, it may be forgotten as `dying`. */
  lemma NoOrphans(s: Sched, dead: Pid, news: set<Pid>)
    requires Mid(s, Some(dead), news)
    requires forall x :: Get(s.slots, x).Some? ==> Get(s.slots, x).value.parent != Some(dead)
    ensures Mid(s, None, news)
  {
    forall k | 0 <= k < |s.slots|
      ensures ParentOk(s.slots, k, None)
    {
      assert ParentOk(s.slots, k, Some(dead)) && SlotOk(s.slots, k);
      if s.slots[k].Some? { assert Get(s.slots, s.slots[k].value.pid) == s.slots[k]; }
    }
  }

  // ---------------------------------------------------------------------------
  // Switching
  // ---------------------------------------------------------------------------

  lemma RequeueMid(s: Sched)
    requires Mid(s, None, {}) && (s.current == IDLE ==> Get(s.slots, IDLE).value.state.Running?)
    ensures Mid(Requeue(s), None, {}) && NoRunner(Requeue(s).slots)
  {
    assert Get(s.slots, s.current).Some?;
    var p := Get(s.slots, s.current).value;
    if p.state.Running? {
      NotReadyUnqueued(s.slots, s.levels, s.current);
      if s.current == IDLE {
        IdleReady(s);
      } else {
        RunToReady(s);
      }
    }
  }

  lemma IdleReady(s: Sched)
    requires Mid(s, None, {}) && s.current == IDLE && Get(s.slots, IDLE).value.state.Running?
    ensures Mid(SetState(s, IDLE, Ready), None, {}) && NoRunner(SetState(s, IDLE, Ready).slots)
  {
    assert Get(s.slots, IDLE).Some?;
    hide PoolOk, QueueOk, MaskOk, ParentsOk, InitOk, WaitOk, Unqueued;
    var p' := Get(s.slots, IDLE).value.(state := Ready);
    NiceOf(s.slots, IDLE);
    NotReadyUnqueued(s.slots, s.levels, IDLE);
    ChangePool(s.slots, IDLE, p');
    ChangeQueue(s.slots, s.levels, IDLE, p');
    ChangeParents(s.slots, IDLE, p', None, None);
    ChangeInit(s.slots, IDLE, p', s.init);
    ChangeWait(s.slots, IDLE, p', {});
    ChangeRun(s.slots, IDLE, p', s.current);
    StateChanges(s, IDLE, Ready);
  }

  lemma RunToReady(s: Sched)
    requires Mid(s, None, {}) && s.current != IDLE && Get(s.slots, s.current).value.state.Running?
    ensures Mid(MakeReady(s, s.current), None, {}) && NoRunner(MakeReady(s, s.current).slots)
  {
    assert Get(s.slots, s.current).Some?;
    hide PoolOk, QueueOk, MaskOk, ParentsOk, InitOk, WaitOk, Unqueued;
    var pid := s.current;
    NotReadyUnqueued(s.slots, s.levels, pid);
    NiceOf(s.slots, pid);
    StateMid(s, pid, Blocked, None, {});
    var s1 := SetState(s, pid, Blocked);
    NotReadyUnqueued(s1.slots, s1.levels, pid);
    ReadyMid(s1, pid, None, {});
    assert MakeReady(s1, pid) == MakeReady(s, pid) by { TwiceSet(s, pid); }
  }

  lemma TwiceSet(s: Sched, pid: Pid)
    requires Get(s.slots, pid).Some?
    ensures MakeReady(SetState(s, pid, Blocked), pid) == MakeReady(s, pid)
  {
    var s1 := SetState(s, pid, Blocked);
    assert SetState(s1, pid, Ready).slots == SetState(s, pid, Ready).slots;
  }

  /** `pop` takes the oldest PID of the best non-empty level, and finds none only when none is queued. */
  lemma PopBest(s: Sched)
    requires MaskOk(s.levels, s.mask)
    ensures Pop(s).1.None? <==> forall l :: 0 <= l < LEVELS ==> s.levels[l] == []
    ensures Pop(s).1.None? ==> Pop(s).0 == s
    ensures Pop(s).1.Some? ==>
              var l := TrailingZeros(s.mask);
              && l < LEVELS && s.levels[l] != [] && Pop(s).1.value == s.levels[l][0]
              && (forall k :: 0 <= k < l ==> s.levels[k] == [])
              && Pop(s).0.levels == s.levels[l := s.levels[l][1..]]
              && MaskOk(Pop(s).0.levels, Pop(s).0.mask)
  {
    var l := TrailingZeros(s.mask);
    if l < LEVELS { assert s.mask[l]; }
  }

  /** Popping leaves the rest of the queue as it was, without the popped PID. */
  lemma PopQueue(s: Sched)
    requires QueueOk(s.slots, s.levels) && MaskOk(s.levels, s.mask) && Pop(s).1.Some?
    ensures Pop(s).0 == s.(levels := Pop(s).0.levels, mask := Pop(s).0.mask)
    ensures QueueOk(s.slots, Pop(s).0.levels) && Unqueued(Pop(s).0.levels, Pop(s).1.value)
    ensures Get(s.slots, Pop(s).1.value).Some? && Get(s.slots, Pop(s).1.value).value.state.Ready?
    ensures Pop(s).1.value != IDLE
  {
    PopBest(s);
    var l, pid := TrailingZeros(s.mask), Pop(s).1.value;
    var levels' := Pop(s).0.levels;
    assert LevelOk(s.slots, s.levels[l], l);
    assert pid in s.levels[l] && EntryOk(s.slots, pid, l);
    forall k | 0 <= k < LEVELS
      ensures LevelOk(s.slots, levels'[k], k) && pid !in levels'[k]
    {
      assert LevelOk(s.slots, s.levels[k], k);
      assert pid in s.levels[k] ==> EntryOk(s.slots, pid, k);
    }
  }

  lemma SwitchInv(s: Sched)
    requires Mid(s, None, {}) && NoRunner(s.slots)
    ensures Inv(Switch(s))
  {
    var (s1, pid) := Pop(s);
    var to := if pid.Some? then pid.value else IDLE;
    assert Get(s.slots, IDLE).Some? by { assert SlotOk(s.slots, 0); }
    hide PoolOk, QueueOk, MaskOk, ParentsOk, InitOk, WaitOk, Unqueued;
    PopBest(s);
    if pid.Some? { PopQueue(s); } else { NotReadyUnqueued(s.slots, s.levels, IDLE); }
    var p' := Get(s.slots, to).value.(state := Running);
    NiceOf(s.slots, to);
    ChangePool(s.slots, to, p');
    ChangeQueue(s.slots, s1.levels, to, p');
    ChangeParents(s.slots, to, p', None, None);
    ChangeInit(s.slots, to, p', s.init);
    ChangeWait(s.slots, to, p', {});
    StateChanges(s1, to, Running);
  }

  /** The due sleepers are exactly the Sleeping processes whose time has come, each once. */
  lemma {:induction false} DueAre(slots: Slots, n: nat, now: nat)
    requires PoolOk(slots) && n <= |slots|
    ensures forall x :: x in Due(slots[..n], now) <==>
                        && x.index < n && Get(slots, x).Some?
                        && Get(slots, x).value.state.Sleeping? && Get(slots, x).value.state.wakeAt <= now
    ensures NoRepeats(Due(slots[..n], now))
  {
    if n > 0 {
      DueAre(slots, n - 1, now);
      assert slots[..n][..n - 1] == slots[..n - 1];
      assert SlotOk(slots, n - 1);
    }
  }

  lemma {:induction false} WakeAllMid(s: Sched, pids: seq<Pid>)
    requires Mid(s, None, {}) && NoRepeats(pids)
    requires forall x :: x in pids ==> Get(s.slots, x).Some? && Get(s.slots, x).value.state.Sleeping?
    ensures Mid(WakeAll(s, pids), None, {}) && WakeAll(s, pids).current == s.current
    ensures forall x :: x !in pids ==> Get(WakeAll(s, pids).slots, x) == Get(s.slots, x)
    ensures forall x :: x in pids ==>
              Get(WakeAll(s, pids).slots, x) == Some(Get(s.slots, x).value.(state := Ready))
    decreases |pids|
  {
    hide Mid, MakeReady;
    if pids != [] {
      assert pids[0] in pids;
      SleeperMid(s, pids[0]);
      var s1 := MakeReady(s, pids[0]);
      assert forall x :: x in pids[1..] ==> x in pids && x != pids[0];
      assert forall x :: x in pids && x != pids[0] ==> x in pids[1..];
      WakeAllMid(s1, pids[1..]);
    }
  }

  lemma SleeperMid(s: Sched, pid: Pid)
    requires Mid(s, None, {}) && Get(s.slots, pid).Some? && Get(s.slots, pid).value.state.Sleeping?
    ensures Mid(MakeReady(s, pid), None, {}) && ReadyEffect(s, MakeReady(s, pid), pid)
  {
    hide PoolOk, QueueOk, MaskOk, ParentsOk, InitOk, WaitOk, RunOk, Unqueued;
    NiceOf(s.slots, pid);
    NotReadyUnqueued(s.slots, s.levels, pid);
    ReadyMid(s, pid, None, {});
  }

  /** Any process that is neither dead, running nor Ready may be woken. */
  lemma WokenMid(s: Sched, pid: Pid)
    requires Mid(s, None, {}) && Get(s.slots, pid).Some?
    requires var state := Get(s.slots, pid).value.state;
             state.Blocked? || state.Waiting? || state.Sleeping? || state.Stopped?
    ensures Mid(MakeReady(s, pid), None, {}) && ReadyEffect(s, MakeReady(s, pid), pid)
  {
    hide PoolOk, QueueOk, MaskOk, ParentsOk, InitOk, WaitOk, RunOk, Unqueued;
    NiceOf(s.slots, pid);
    NotReadyUnqueued(s.slots, s.levels, pid);
    ReadyMid(s, pid, None, {});
  }

  // ---------------------------------------------------------------------------
  // Birth and burial
  // ---------------------------------------------------------------------------

  lemma GetCreated(s: Sched, parent: Pid, x: Pid)
    requires PoolOk(s.slots) && Create(s, parent).1.Some?
    ensures var (s', pid) := Create(s, parent);
            Get(s'.slots, x) ==
            if x == pid.value then Some(Process(pid.value, Some(parent), Ready, 0)) else Get(s.slots, x)
    ensures Get(s.slots, Create(s, parent).1.value).None?
    ensures Create(s, parent).1.value == PidAt(Create(s, parent).1.value.index)
    ensures Create(s, parent).1.value != IDLE
  {
    var (s', pid) := Create(s, parent);
    var index := pid.value.index;
    if x.index == index && x != pid.value && index < |s.slots| { assert SlotOk(s.slots, index); }
  }

  lemma CreateMid(s: Sched)
    requires Inv(s)
    ensures var (s', pid) := Create(s, s.current);
            && Mid(s', None, {}) && s'.current == s.current && s'.levels == s.levels
            && (pid.None? ==> s' == s)
            && (pid.Some? ==>
                  && pid.value != IDLE && Unqueued(s.levels, pid.value) && Get(s.slots, pid.value).None?
                  && forall x :: Get(s'.slots, x) ==
                                 if x == pid.value then Some(Process(pid.value, Some(s.current), Ready, 0))
                                 else Get(s.slots, x))
  {
    var (s', pid) := Create(s, s.current);
    if pid.Some? {
      CreatedSlots(s, s.current);
      forall x
        ensures Get(s'.slots, x) ==
                if x == pid.value then Some(Process(pid.value, Some(s.current), Ready, 0)) else Get(s.slots, x)
      {
        GetCreated(s, s.current, x);
      }
      hide PoolOk, Create, Mid;
      CreatedQueue(s, s', pid.value);
      CreatedFamily(s, s', pid.value);
    }
  }

  /** The pool after a birth. */
  lemma CreatedSlots(s: Sched, parent: Pid)
    requires PoolOk(s.slots) && Create(s, parent).1.Some?
    ensures PoolOk(Create(s, parent).0.slots)
    ensures Create(s, parent).0 == s.(slots := Create(s, parent).0.slots, next := Create(s, parent).0.next)
    ensures Create(s, parent).1.value != IDLE && Get(s.slots, Create(s, parent).1.value).None?
  {
    var (s', pid) := Create(s, parent);
    GetCreated(s, parent, pid.value);
    forall k | 0 <= k < |s'.slots|
      ensures SlotOk(s'.slots, k)
    {
      if k < |s.slots| { assert SlotOk(s.slots, k); }
    }
  }

  lemma SlotIsGot(slots: Slots, k: nat)
    requires PoolOk(slots) && k < |slots| && slots[k].Some?
    ensures slots[k].value.pid == PidAt(k) && Get(slots, slots[k].value.pid) == slots[k]
  {
    assert SlotOk(slots, k);
  }

  lemma GotParent(slots: Slots, x: Pid, dying: Option<Pid>)
    requires PoolOk(slots) && ParentsOk(slots, dying) && Get(slots, x).Some? && x != IDLE
    ensures var up := Get(slots, x).value.parent;
            up.Some? && Get(slots, up.value).Some? && (Get(slots, up.value).value.state.Zombie? ==> up == dying)
  {
    NiceOf(slots, x);
    assert ParentOk(slots, x.index, dying);
  }

  ghost predicate Born(slots: Slots, slots': Slots, pid: Pid, parent: Pid) {
    forall x :: Get(slots', x) == if x == pid then Some(Process(pid, Some(parent), Ready, 0)) else Get(slots, x)
  }

  lemma CreatedQueue(s: Sched, s': Sched, pid: Pid)
    requires Inv(s) && Born(s.slots, s'.slots, pid, s.current) && Get(s.slots, pid).None?
    ensures QueueOk(s'.slots, s.levels) && Unqueued(s.levels, pid)
  {
    forall l | 0 <= l < LEVELS
      ensures LevelOk(s'.slots, s.levels[l], l) && pid !in s.levels[l]
    {
      assert LevelOk(s.slots, s.levels[l], l);
      forall x | x in s.levels[l]
        ensures EntryOk(s'.slots, x, l) && x != pid
      {
        assert EntryOk(s.slots, x, l);
      }
    }
  }

  /** A newborn has a living parent, no children and nobody waiting on it as a zombie. */
  lemma CreatedFamily(s: Sched, s': Sched, pid: Pid)
    requires Inv(s) && Born(s.slots, s'.slots, pid, s.current) && Get(s.slots, pid).None? && pid != IDLE
    requires PoolOk(s'.slots)
    ensures ParentsOk(s'.slots, None) && InitOk(s'.slots, s.init) && WaitOk(s'.slots, {}) && RunOk(s'.slots, s.current)
    ensures forall x :: Get(s.slots, x).Some? ==> Get(s.slots, x).value.parent != Some(pid)
  {
    hide PoolOk;
    forall k | 0 <= k < |s'.slots|
      ensures ParentOk(s'.slots, k, None)
    {
      if s'.slots[k].Some? {
        SlotIsGot(s'.slots, k);
        var x := s'.slots[k].value.pid;
        if x != pid && x != IDLE { GotParent(s.slots, x, None); }
      }
    }
    forall x | Get(s.slots, x).Some?
      ensures Get(s.slots, x).value.parent != Some(pid)
    {
      NiceOf(s.slots, x);
      if x != IDLE { GotParent(s.slots, x, None); }
    }
    forall p, z
      ensures !Overslept(s'.slots, p, z)
    {
      assert !Overslept(s.slots, p, z);
    }
  }

  lemma FreeMid(s: Sched, z: Pid)
    requires Inv(s) && Get(s.slots, z).Some? && Get(s.slots, z).value.state.Zombie?
    ensures Inv(FreeSlot(s, z))
    ensures forall x :: Get(FreeSlot(s, z).slots, x) == if x == z then None else Get(s.slots, x)
  {
    var s' := FreeSlot(s, z);
    NiceOf(s.slots, z);
    forall x
      ensures Get(s'.slots, x) == if x == z then None else Get(s.slots, x)
    {
      if x.index == z.index && x.index < |s.slots| { assert SlotOk(s.slots, x.index); }
    }
    forall k | 0 <= k < |s'.slots|
      ensures SlotOk(s'.slots, k) && ParentOk(s'.slots, k, None)
    {
      assert SlotOk(s.slots, k) && ParentOk(s.slots, k, None);
    }
    forall l | 0 <= l < LEVELS
      ensures LevelOk(s'.slots, s.levels[l], l)
    {
      assert LevelOk(s.slots, s.levels[l], l);
      forall x | x in s.levels[l]
        ensures EntryOk(s'.slots, x, l)
      {
        assert EntryOk(s.slots, x, l);
      }
    }
    forall p, y
      ensures !Overslept(s'.slots, p, y)
    {
      assert !Overslept(s.slots, p, y);
    }
  }

  lemma {:induction false} WithoutIs(queue: seq<Pid>, pid: Pid)
    ensures forall x :: x in Without(queue, pid) <==> x in queue && x != pid
    ensures |Without(queue, pid)| <= |queue|
    ensures pid !in queue ==> Without(queue, pid) == queue
    ensures NoRepeats(queue) ==> NoRepeats(Without(queue, pid))
  {
    if queue != [] {
      WithoutIs(queue[1..], pid);
      assert queue == [queue[0]] + queue[1..];
      if NoRepeats(queue) {
        assert queue[0] !in queue[1..];
        assert NoRepeats(queue[1..]);
      }
    }
  }

  lemma {:induction false} RemoveFromIs(levels: seq<seq<Pid>>, mask: seq<bool>, pid: Pid, from: nat)
    requires |levels| <= |mask| && from <= |levels|
    ensures var (levels', mask') := RemoveFrom(levels, mask, pid, from);
            && |levels'| == |levels| && |mask'| == |mask|
            && (forall l :: 0 <= l < from ==> levels'[l] == levels[l] && mask'[l] == mask[l])
            && (forall l :: from <= l < |levels| ==>
                  && levels'[l] == Without(levels[l], pid)
                  && mask'[l] == if |levels'[l]| < |levels[l]| && levels'[l] == [] then false else mask[l])
            && (forall l :: |levels| <= l < |mask| ==> mask'[l] == mask[l])
    decreases |levels| - from
  {
    if from < |levels| {
      var queue := Without(levels[from], pid);
      var bit := if |queue| < |levels[from]| && queue == [] then false else mask[from];
      RemoveFromIs(levels[from := queue], mask[from := bit], pid, from + 1);
    }
  }

  /** Removing a PID from every level keeps the rest of the queue and the bitmap exact. */
  lemma RemoveQueue(slots: Slots, levels: seq<seq<Pid>>, mask: seq<bool>, pid: Pid)
    requires QueueOk(slots, levels) && MaskOk(levels, mask)
    ensures var (levels', mask') := RemoveFrom(levels, mask, pid, 0);
            && QueueOk(slots, levels') && MaskOk(levels', mask') && Unqueued(levels', pid)
            && forall l :: 0 <= l < LEVELS ==> levels'[l] == Without(levels[l], pid)
  {
    hide RemoveFrom;
    RemoveFromIs(levels, mask, pid, 0);
    var (levels', mask') := RemoveFrom(levels, mask, pid, 0);
    forall l | 0 <= l < LEVELS
      ensures LevelOk(slots, levels'[l], l) && pid !in levels'[l]
      ensures mask'[l] <==> levels'[l] != []
    {
      assert LevelOk(slots, levels[l], l);
      WithoutIs(levels[l], pid);
    }
  }

  lemma StopMid(s: Sched, pid: Pid)
    requires Inv(s) && pid != IDLE && pid != s.current
    ensures Inv(Stop(s, pid))
  {
    if Get(s.slots, pid).Some? {
      assert Get(s.slots, s.current).Some?;
      hide PoolOk, QueueOk, MaskOk, ParentsOk, InitOk, WaitOk, RunOk, Unqueued, RemoveFrom;
      var p := Get(s.slots, pid).value;
      NiceOf(s.slots, pid);
      if p.state.Ready? {
        RemoveQueue(s.slots, s.levels, s.mask, pid);
        var (levels, mask) := RemoveFrom(s.levels, s.mask, pid, 0);
        var p' := p.(state := Stopped);
        ChangePool(s.slots, pid, p');
        ChangeQueue(s.slots, levels, pid, p');
        ChangeParents(s.slots, pid, p', None, None);
        ChangeInit(s.slots, pid, p', s.init);
        ChangeWait(s.slots, pid, p', {});
        ChangeRun(s.slots, pid, p', s.current);
        StateChanges(s, pid, Stopped);
      } else if !p.state.Zombie? && !p.state.Stopped? {
        StateMid(s, pid, Stopped, None, {});
      }
    }
  }

  lemma NiceMid(s: Sched, nice: int)
    requires Inv(s) && NICE_MIN <= nice <= NICE_MAX
    ensures Inv(SetNice(s, nice))
    ensures forall x :: Get(SetNice(s, nice).slots, x) ==
              if x == s.current then Some(Get(s.slots, x).value.(nice := nice)) else Get(s.slots, x)
  {
    assert Get(s.slots, s.current).Some?;
    hide PoolOk, QueueOk, MaskOk, ParentsOk, InitOk, WaitOk, RunOk, Unqueued;
    var pid := s.current;
    var p' := Get(s.slots, pid).value.(nice := nice);
    NiceOf(s.slots, pid);
    NotReadyUnqueued(s.slots, s.levels, pid);
    ChangePool(s.slots, pid, p');
    ChangeQueue(s.slots, s.levels, pid, p');
    ChangeParents(s.slots, pid, p', None, None);
    ChangeInit(s.slots, pid, p', s.init);
    ChangeWait(s.slots, pid, p', {});
    ChangeRun(s.slots, pid, p', s.current);
    forall x
      ensures Get(SetNice(s, nice).slots, x) == if x == pid then Some(p') else Get(s.slots, x)
    {
      GetChange(s.slots, pid, p', x);
    }
  }

  // ---------------------------------------------------------------------------
  // Every operation keeps the invariant
  // ---------------------------------------------------------------------------

  lemma ScheduleKeeps(s: Sched, now: nat)
    requires Mid(s, None, {}) && (s.current == IDLE ==> Get(s.slots, IDLE).value.state.Running?)
    ensures Inv(Schedule(s, now))
  {
    assert PoolOk(s.slots) && Get(s.slots, s.current).Some?;
    assert s.slots[..|s.slots|] == s.slots;
    DueAre(s.slots, |s.slots|, now);
    WakeAllMid(s, Due(s.slots, now));
    hide Mid;
    RequeueMid(WakeAll(s, Due(s.slots, now)));
    SwitchInv(Requeue(WakeAll(s, Due(s.slots, now))));
  }

  lemma ForkKeeps(s: Sched, free: nat, tables: Option<nat>)
    requires Inv(s)
    ensures Inv(Fork(s, free, tables))
  {
    CreateMid(s);
    assert Get(s.slots, s.current).Some?;
    var (s1, pid) := Create(s, s.current);
    hide PoolOk, QueueOk, MaskOk, ParentsOk, InitOk, WaitOk, RunOk, Unqueued, Create;
    if pid.Some? {
      ReadyMid(s1, pid.value, None, {});
    }
  }

  /** The children of a dying process, as collected. */
  lemma DeadChildren(s: Sched, code: int)
    requires Inv(s) && s.current != IDLE && s.init != Some(s.current)
    ensures var dead := SetState(s, s.current, Zombie(code));
            var children := ChildrenOf(dead.slots, s.current);
            && Mid(dead, Some(s.current), {s.current}) && dead.init == s.init && dead.current == s.current
            && NoRepeats(children)
            && (forall x :: x in children <==>
                 Get(dead.slots, x).Some? && Get(dead.slots, x).value.parent == Some(s.current))
            && (forall x :: x in children ==> x != IDLE)
            && Get(dead.slots, s.current).Some? && Get(dead.slots, s.current).value.state.Zombie?
            && NoRunner(dead.slots)
  {
    DeathMid(s, code);
    var dead := SetState(s, s.current, Zombie(code));
    var children := ChildrenOf(dead.slots, s.current);
    assert PoolOk(dead.slots) && RunOk(s.slots, s.current) && dead.slots[..|dead.slots|] == dead.slots;
    ChildrenAre(dead.slots, |dead.slots|, s.current);
    hide Mid, PoolOk, ChildrenOf, RunOk;
    forall x | x in children
      ensures x != IDLE
    {
      NiceOf(dead.slots, x);
    }
    forall x | Get(dead.slots, x).Some?
      ensures x.index < |dead.slots| && !Get(dead.slots, x).value.state.Running?
    {
      InBounds(dead.slots, x);
      if x != s.current { OnlyRunner(s, x); }
    }
  }

  /** After the orphans moved to init nobody hangs under the dead process. */
  lemma OrphansMoved(s: Sched, code: int)
    requires Inv(s) && s.current != IDLE && s.init != Some(s.current)
    ensures s.init.Some?
    ensures var dead := SetState(s, s.current, Zombie(code));
            var adopted := AdoptAll(dead, ChildrenOf(dead.slots, s.current), s.init.value);
            && Mid(adopted, None, {s.current}) && adopted.current == s.current
            && Get(adopted.slots, s.current).Some? && Get(adopted.slots, s.current).value.state.Zombie?
            && NoRunner(adopted.slots)
  {
    var pid := s.current;
    DeadChildren(s, code);
    SomeInit(s, None, {});
    hide Mid, Inv, PoolOk, ChildrenOf, AdoptAll, NoRepeats;
    var dead := SetState(s, pid, Zombie(code));
    var children := ChildrenOf(dead.slots, pid);
    hide SetState;
    AdoptAllMid(dead, children, pid);
    var adopted := AdoptAll(dead, children, s.init.value);
    forall x
      ensures SameLife(dead.slots, adopted.slots, x)
      ensures Get(adopted.slots, x).Some? ==> Get(adopted.slots, x).value.parent != Some(pid)
    {
    }
    hide Get;
    NoOrphans(adopted, pid, {pid});
    assert SameLife(dead.slots, adopted.slots, pid);
  }

  lemma ExitKeeps(s: Sched, code: int)
    requires Inv(s) && s.current != IDLE && s.init != Some(s.current)
    ensures Inv(Exit(s, code))
  {
    OrphansMoved(s, code);
    hide Mid, Inv, AdoptAll, ChildrenOf, SetState, WakeParent;
    var dead := SetState(s, s.current, Zombie(code));
    var adopted := AdoptAll(dead, ChildrenOf(dead.slots, s.current), s.init.value);
    WakeParentMid(adopted, s.current, None, {s.current});
    assert {s.current} - {s.current} == {};
    SwitchInv(WakeParent(adopted, s.current));
  }

  lemma InBounds(slots: Slots, x: Pid)
    ensures Get(slots, x).Some? ==> x.index < |slots|
  {
  }

  lemma OnlyRunner(s: Sched, x: Pid)
    requires Inv(s) && Get(s.slots, x).Some? && x != s.current
    ensures !Get(s.slots, x).value.state.Running?
  {
  }

  lemma GiveUp(s: Sched, state: ProcessState)
    requires Inv(s) && s.current != IDLE && (state.Blocked? || state.Sleeping?)
    ensures Mid(SetState(s, s.current, state), None, {}) && NoRunner(SetState(s, s.current, state).slots)
    ensures SetState(s, s.current, state).current == s.current
  {
    assert Get(s.slots, s.current).Some?;
    StateMid(s, s.current, state, None, {});
    hide PoolOk, QueueOk, MaskOk, ParentsOk, InitOk, WaitOk;
  }

  lemma WaitKeeps(s: Sched, child: Option<Pid>)
    requires Inv(s) && s.current != IDLE
    ensures Inv(Wait(s, child))
  {
    assert PoolOk(s.slots) && Get(s.slots, s.current).Some?;
    var r := Reap(s, s.current, child);
    if FindZombie(s.slots, 0, s.current, child).Some? {
      var k := FindZombie(s.slots, 0, s.current, child).value;
      SlotIsGot(s.slots, k);
      FreeMid(s, s.slots[k].value.pid);
    } else {
      WaitingMid(s, child);
      var s1 := SetState(s, s.current, Waiting(child));
      forall x | Get(s1.slots, x).Some?
        ensures !Get(s1.slots, x).value.state.Running?
      {
        if x != s.current { OnlyRunner(s, x); }
      }
      SwitchInv(s1);
    }
  }

  lemma SignalKeeps(s: Sched, pid: Pid, signum: nat)
    requires Inv(s) && pid != IDLE && (signum == SIGSTOP ==> pid != s.current)
    ensures Inv(Signal(s, pid, signum))
  {
    if Get(s.slots, pid).Some? && 0 < signum < SIGNALS {
      var state := Get(s.slots, pid).value.state;
      if signum == SIGSTOP {
        StopMid(s, pid);
      } else if (signum == SIGCONT && state.Stopped?) || (signum != SIGCONT && (state.Blocked? || state.Sleeping?)) {
        assert Get(s.slots, s.current).Some?;
        WokenMid(s, pid);
        hide Mid;
      }
    }
  }

  lemma UnblockKeeps(s: Sched, pid: Pid)
    requires Inv(s)
    ensures Inv(Unblock(s, pid))
  {
    if Get(s.slots, pid).Some? && (Get(s.slots, pid).value.state.Blocked? || Get(s.slots, pid).value.state.Waiting?) {
      assert Get(s.slots, s.current).Some?;
      WokenMid(s, pid);
      hide Mid;
    }
  }

  // ---------------------------------------------------------------------------
  // Whole runs
  // ---------------------------------------------------------------------------

  /** What can happen on the core between two block points.  A fork finds `free` frames and a parent with
      `tables` user tables, if it has a page table at all. */
  datatype Event =
    | Timer(now: nat)
    | Forks(free: nat, tables: Option<nat>)
    | Exits(code: int)
    | Waits(child: Option<Pid>)
    | Blocks
    | Sleeps(wakeAt: nat, now: nat)
    | Woken(pid: Pid)
    | Signalled(pid: Pid, signum: nat)
    | Reniced(nice: int)

  /** Idle never blocks or exits, init never exits, and nobody stops the running process. */
  predicate Allowed(s: Sched, e: Event) {
    match e
    case Exits(_) => s.current != IDLE && s.init != Some(s.current)
    case Waits(_) => s.current != IDLE
    case Blocks => s.current != IDLE
    case Sleeps(_, _) => s.current != IDLE
    case Signalled(pid, signum) => pid != IDLE && (signum == SIGSTOP ==> pid != s.current)
    case Reniced(nice) => NICE_MIN <= nice <= NICE_MAX
    case _ => true
  }

  function Step(s: Sched, e: Event): Sched {
    match e
    case Timer(now) => Schedule(s, now)
    case Forks(free, tables) => Fork(s, free, tables)
    case Exits(code) => Exit(s, code)
    case Waits(child) => Wait(s, child)
    case Blocks => Block(s)
    case Sleeps(wakeAt, now) => Sleep(s, wakeAt, now)
    case Woken(pid) => Unblock(s, pid)
    case Signalled(pid, signum) => Signal(s, pid, signum)
    case Reniced(nice) => SetNice(s, nice)
  }

  function After(s: Sched, events: seq<Event>): Sched {
    if events == [] then s
    else
      var s1 := After(s, events[..|events| - 1]);
      var e := events[|events| - 1];
      if Allowed(s1, e) then Step(s1, e) else s1
  }

  lemma StepKeeps(s: Sched, e: Event)
    requires Inv(s) && Allowed(s, e)
    ensures Inv(Step(s, e))
  {
    match e
    case Timer(now) => ScheduleKeeps(s, now);
    case Forks(free, tables) => ForkKeeps(s, free, tables);
    case Exits(code) => ExitKeeps(s, code);
    case Waits(child) => WaitKeeps(s, child);
    case Blocks =>
      GiveUp(s, Blocked);
      SwitchInv(SetState(s, s.current, Blocked));
    case Sleeps(wakeAt, now) =>
      GiveUp(s, Sleeping(wakeAt));
      ScheduleKeeps(SetState(s, s.current, Sleeping(wakeAt)), now);
    case Woken(pid) => UnblockKeeps(s, pid);
    case Signalled(pid, signum) => SignalKeeps(s, pid, signum);
    case Reniced(nice) => NiceMid(s, nice);
  }

  /** Every reachable state satisfies the invariant. */
  lemma {:induction false} RunKeeps(s: Sched, events: seq<Event>)
    requires Inv(s)
    ensures Inv(After(s, events))
  {
    hide Inv, Step;
    if events != [] {
      RunKeeps(s, events[..|events| - 1]);
      var s1, e := After(s, events[..|events| - 1]), events[|events| - 1];
      if Allowed(s1, e) { StepKeeps(s1, e); }
    }
  }

  // ---------------------------------------------------------------------------
  // Boot, and what the invariant buys
  // ---------------------------------------------------------------------------

  /** Only idle exists and runs. */
  function Cold(): Sched {
    Sched([Some(Process(IDLE, None, Running, 0))], seq(LEVELS, _ => []), seq(MASK_BITS, _ => false), IDLE, None, 1)
  }

  /** Init is spawned by idle and registered. */
  function Booted(): Sched {
    Spawn(Cold()).(init := Some(Pid(1, 1)))
  }

  lemma ColdSpawn()
    ensures var cold := Cold();
            Spawn(cold) == cold.(slots := [cold.slots[0], Some(Process(Pid(1, 1), Some(IDLE), Ready, 0))],
                                levels := cold.levels[20 := [Pid(1, 1)]], mask := cold.mask[20 := true], next := 2)
  {
    var cold := Cold();
    var one := Process(Pid(1, 1), Some(IDLE), Ready, 0);
    assert Tried(1, 0) == 1 && FreeIndex(cold.slots, 1);
    assert Search(cold.slots, 1, 0) == Some(1);
    assert Padded(cold.slots, 1) == [cold.slots[0], None];
    var born := Create(cold, IDLE).0;
    assert born == cold.(slots := [cold.slots[0], Some(one)], next := 2);
    LevelOfNice(0);
    assert SetState(born, Pid(1, 1), Ready) == born;
    assert born.levels[20] + [Pid(1, 1)] == [Pid(1, 1)];
  }

  lemma BootInv()
    ensures Inv(Booted())
  {
    ColdSpawn();
    var s := Booted();
    hide Spawn;
    assert SlotOk(s.slots, 0) && SlotOk(s.slots, 1) && ParentOk(s.slots, 0, None) && ParentOk(s.slots, 1, None);
  }

  /** No zombie is forgotten: its parent is alive and `reap` from there finds it. */
  lemma ZombieIsReapable(s: Sched, z: Pid)
    requires Inv(s) && Get(s.slots, z).Some? && Get(s.slots, z).value.state.Zombie?
    ensures var up := Get(s.slots, z).value.parent;
            && up.Some? && Get(s.slots, up.value).Some? && !Get(s.slots, up.value).value.state.Zombie?
            && !WaitsFor(Get(s.slots, up.value).value.state, z)
            && Reap(s, up.value, Some(z)).1 == Some((z, Get(s.slots, z).value.state.code))
            && Reap(s, up.value, None).1.Some?
  {
    NiceOf(s.slots, z);
    GotParent(s.slots, z, None);
    var up := Get(s.slots, z).value.parent.value;
    assert !Overslept(s.slots, up, z);
    assert Reapable(s.slots, z.index, up, Some(z)) && Reapable(s.slots, z.index, up, None);
    var k := FindZombie(s.slots, 0, up, Some(z)).value;
    SlotIsGot(s.slots, k);
    SlotIsGot(s.slots, FindZombie(s.slots, 0, up, None).value);
  }

  /** A reused PID inherits nothing: no process has the newborn as its parent. */
  lemma NoInheritedChildren(s: Sched, x: Pid)
    requires Inv(s) && Create(s, s.current).1.Some? && Get(s.slots, x).Some?
    ensures Get(s.slots, x).value.parent != Create(s, s.current).1
  {
    CreatedSlots(s, s.current);
    NiceOf(s.slots, x);
    if x != IDLE { GotParent(s.slots, x, None); }
  }

  /** A queued PID is queued in one place only. */
  lemma QueuedOnce(s: Sched, l: nat, i: nat, l': nat, i': nat)
    requires Inv(s) && l < LEVELS && l' < LEVELS && i < |s.levels[l]| && i' < |s.levels[l']|
    requires s.levels[l][i] == s.levels[l'][i']
    ensures l == l' && i == i'
    ensures Get(s.slots, s.levels[l][i]).Some? && Get(s.slots, s.levels[l][i]).value.state.Ready?
    ensures s.levels[l][i] != s.current
  {
    assert LevelOk(s.slots, s.levels[l], l) && LevelOk(s.slots, s.levels[l'], l');
    assert EntryOk(s.slots, s.levels[l][i], l) && EntryOk(s.slots, s.levels[l'][i'], l');
  }
}
