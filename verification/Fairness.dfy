/** Who runs next: ticks go round the processes of the best level, and no event lets a queued process fall back.
 */
module Fairness {
  import opened Options
  import opened Processes
  import opened SchedulerInvariant

  // ---------------------------------------------------------------------------
  // One tick
  // ---------------------------------------------------------------------------

  /** Nobody's sleep is over at `now`. */
  ghost predicate NobodyDue(slots: Slots, now: nat) {
    forall x :: Get(slots, x).Some? && Get(slots, x).value.state.Sleeping? ==> now < Get(slots, x).value.state.wakeAt
  }

  lemma NoneDue(slots: Slots, now: nat)
    requires PoolOk(slots) && NobodyDue(slots, now)
    ensures Due(slots, now) == []
  {
    assert slots[..|slots|] == slots;
    assert Due(slots, now) == [] || Due(slots, now)[0] in Due(slots, now);
    DueAre(slots, |slots|, now);
  }

  function LevelIn(slots: Slots, pid: Pid): int {
    if Get(slots, pid).Some? then Get(slots, pid).value.nice - NICE_MIN else 0
  }

  /** The queues with the running process, unless it is idle, at the back of its level. */
  ghost function PutBack(s: Sched): seq<seq<Pid>>
    requires |s.levels| == LEVELS && 0 <= LevelIn(s.slots, s.current) < LEVELS
  {
    var l := LevelIn(s.slots, s.current);
    if s.current == IDLE then s.levels else s.levels[l := s.levels[l] + [s.current]]
  }

  ghost predicate IsBest(levels: seq<seq<Pid>>, b: nat) {
    b < |levels| && levels[b] != [] && forall k :: 0 <= k < b ==> levels[k] == []
  }

  lemma CurrentLevel(s: Sched)
    requires Inv(s)
    ensures |s.levels| == LEVELS && 0 <= LevelIn(s.slots, s.current) < LEVELS && |s.mask| == MASK_BITS
  {
    NiceOf(s.slots, s.current);
  }

  lemma RequeueIs(s: Sched)
    requires Inv(s)
    ensures |s.levels| == LEVELS && 0 <= LevelIn(s.slots, s.current) < LEVELS
    ensures Requeue(s).levels == PutBack(s) && Requeue(s).slots == SetState(s, s.current, Ready).slots
    ensures MaskOk(Requeue(s).levels, Requeue(s).mask)
  {
    CurrentLevel(s);
    assert Get(s.slots, s.current).Some?;
    LevelOfNice(Get(s.slots, s.current).value.nice);
    RequeueMid(s);
  }

  /** A tick with nobody due: the running process goes to the back of its level, and the head of the best level
      runs. */
  lemma TickIs(s: Sched, now: nat, b: nat)
    requires Inv(s) && NobodyDue(s.slots, now)
    ensures |s.levels| == LEVELS && 0 <= LevelIn(s.slots, s.current) < LEVELS
    ensures IsBest(PutBack(s), b) ==>
              && Schedule(s, now).current == PutBack(s)[b][0]
              && Schedule(s, now).levels == PutBack(s)[b := PutBack(s)[b][1..]]
    ensures (forall k :: 0 <= k < LEVELS ==> PutBack(s)[k] == []) ==>
              Schedule(s, now).current == IDLE && Schedule(s, now).levels == PutBack(s)
  {
    NoneDue(s.slots, now);
    RequeueIs(s);
    hide PutBack, Requeue, MaskOk, Inv, Get, IsBest, Switch;
    assert Schedule(s, now) == Switch(Requeue(s));
    TakeBest(Requeue(s), b);
  }

  /** The head of the best level is taken and runs; idle runs when there is none. */
  lemma TakeBest(s: Sched, b: nat)
    requires MaskOk(s.levels, s.mask)
    ensures IsBest(s.levels, b) ==>
              Switch(s).current == s.levels[b][0] && Switch(s).levels == s.levels[b := s.levels[b][1..]]
    ensures (forall k :: 0 <= k < LEVELS ==> s.levels[k] == []) ==>
              Switch(s).current == IDLE && Switch(s).levels == s.levels
  {
    PopBest(s);
    SwitchLevels(s);
    hide Switch, Pop, MaskOk;
  }

  lemma SwitchLevels(s: Sched)
    ensures Switch(s).levels == Pop(s).0.levels
    ensures Switch(s).current == if Pop(s).1.Some? then Pop(s).1.value else IDLE
  {
  }

  // ---------------------------------------------------------------------------
  // A tick that wakes sleepers
  // ---------------------------------------------------------------------------

  /** Sleepers that are due are woken in the order of their slots. */
  lemma {:induction false} DueSorted(slots: Slots, n: nat, now: nat)
    requires PoolOk(slots) && n <= |slots|
    ensures forall i, j :: 0 <= i < j < |Due(slots[..n], now)| ==>
              Due(slots[..n], now)[i].index < Due(slots[..n], now)[j].index
  {
    if n > 0 {
      DueSorted(slots, n - 1, now);
      DueAre(slots, n - 1, now);
      assert slots[..n][..n - 1] == slots[..n - 1];
      assert SlotOk(slots, n - 1);
      var front := Due(slots[..n - 1], now);
      assert forall i :: 0 <= i < |front| ==> front[i] in front;
    }
  }

  /** Those of `pids` that belong to level `l`, in order. */
  ghost function AtLevel(slots: Slots, pids: seq<Pid>, l: nat): seq<Pid> {
    if pids == [] then []
    else (if LevelIn(slots, pids[0]) == l then [pids[0]] else []) + AtLevel(slots, pids[1..], l)
  }

  ghost predicate Known(slots: Slots, pids: seq<Pid>) {
    forall x :: x in pids ==> Get(slots, x).Some? && NICE_MIN <= Get(slots, x).value.nice <= NICE_MAX
  }

  lemma ReadyLevels(s: Sched, pid: Pid, l: nat)
    requires Known(s.slots, [pid]) && |s.levels| == LEVELS && |s.mask| == MASK_BITS && l < LEVELS
    ensures var s1 := MakeReady(s, pid);
            && |s1.levels| == LEVELS && |s1.mask| == MASK_BITS
            && s1.levels[l] == s.levels[l] + (if LevelIn(s.slots, pid) == l then [pid] else [])
            && forall x :: LevelIn(s1.slots, x) == LevelIn(s.slots, x)
  {
    assert pid in [pid];
    LevelOfNice(Get(s.slots, pid).value.nice);
  }

  lemma {:induction false} SameLevels(slots: Slots, slots': Slots, pids: seq<Pid>, l: nat)
    requires forall x :: LevelIn(slots', x) == LevelIn(slots, x)
    ensures AtLevel(slots', pids, l) == AtLevel(slots, pids, l)
    decreases |pids|
  {
    hide LevelIn;
    if pids != [] { SameLevels(slots, slots', pids[1..], l); }
  }

  lemma {:induction false} WakeAllLevels(s: Sched, pids: seq<Pid>, l: nat)
    requires Known(s.slots, pids) && |s.levels| == LEVELS && |s.mask| == MASK_BITS && l < LEVELS
    ensures |WakeAll(s, pids).levels| == LEVELS
    ensures WakeAll(s, pids).levels[l] == s.levels[l] + AtLevel(s.slots, pids, l)
    decreases |pids|
  {
    hide MakeReady;
    if pids != [] {
      var s1 := MakeReady(s, pids[0]);
      ReadyLevels(s, pids[0], l);
      ReadyKnown(s, pids);
      WakeAllLevels(s1, pids[1..], l);
      SameLevels(s.slots, s1.slots, pids[1..], l);
    }
  }

  lemma ReadyKnown(s: Sched, pids: seq<Pid>)
    requires Known(s.slots, pids) && pids != []
    ensures Known(MakeReady(s, pids[0]).slots, pids[1..]) && Known(s.slots, [pids[0]])
  {
    assert forall x :: x in pids[1..] ==> x in pids;
  }

  /** The queues at the end of a tick before the next process is taken: whoever was there, the sleepers that are
      due in slot order, and the running process last. */
  ghost function Queues(s: Sched, now: nat): seq<seq<Pid>>
    requires |s.levels| == LEVELS
  {
    seq(LEVELS, l requires 0 <= l < LEVELS =>
      s.levels[l] + AtLevel(s.slots, Due(s.slots, now), l) +
      if s.current != IDLE && LevelIn(s.slots, s.current) == l then [s.current] else [])
  }

  lemma DueKnown(s: Sched, now: nat)
    requires Inv(s)
    ensures Known(s.slots, Due(s.slots, now)) && s.current !in Due(s.slots, now)
    ensures Inv(WakeAll(s, Due(s.slots, now))) && WakeAll(s, Due(s.slots, now)).current == s.current
    ensures LevelIn(WakeAll(s, Due(s.slots, now)).slots, s.current) == LevelIn(s.slots, s.current)
  {
    assert PoolOk(s.slots) && Get(s.slots, s.current).Some?;
    assert s.slots[..|s.slots|] == s.slots;
    DueAre(s.slots, |s.slots|, now);
    WakeAllMid(s, Due(s.slots, now));
    hide Mid, PoolOk;
    forall x | x in Due(s.slots, now)
      ensures NICE_MIN <= Get(s.slots, x).value.nice <= NICE_MAX
    {
      PoolNice(s, x);
    }
  }

  lemma PoolNice(s: Sched, x: Pid)
    requires Mid(s, None, {}) && Get(s.slots, x).Some?
    ensures NICE_MIN <= Get(s.slots, x).value.nice <= NICE_MAX
  {
    NiceOf(s.slots, x);
  }

  /** Any tick: the head of the best of those queues runs. */
  lemma FullTick(s: Sched, now: nat, b: nat)
    requires Inv(s)
    ensures |s.levels| == LEVELS
    ensures IsBest(Queues(s, now), b) ==>
              && Schedule(s, now).current == Queues(s, now)[b][0]
              && Schedule(s, now).levels == Queues(s, now)[b := Queues(s, now)[b][1..]]
    ensures (forall k :: 0 <= k < LEVELS ==> Queues(s, now)[k] == []) ==>
              Schedule(s, now).current == IDLE && Schedule(s, now).levels == Queues(s, now)
  {
    hide PutBack, Requeue, MaskOk, Inv, Get, Queues, WakeAll, Due, IsBest, Switch;
    QueuesAre(s, now);
    TakeBest(Requeue(WakeAll(s, Due(s.slots, now))), b);
  }

  lemma QueuesAre(s: Sched, now: nat)
    requires Inv(s)
    ensures |s.levels| == LEVELS
    ensures var s2 := Requeue(WakeAll(s, Due(s.slots, now)));
            s2.levels == Queues(s, now) && MaskOk(s2.levels, s2.mask)
  {
    CurrentLevel(s);
    DueKnown(s, now);
    var s1 := WakeAll(s, Due(s.slots, now));
    hide Requeue, MaskOk, Inv, Get, WakeAll, Due;
    CurrentLevel(s1);
    RequeueIs(s1);
    forall l | 0 <= l < LEVELS
      ensures PutBack(s1)[l] == Queues(s, now)[l]
    {
      WakeAllLevels(s, Due(s.slots, now), l);
    }
  }

  // ---------------------------------------------------------------------------
  // Round robin
  // ---------------------------------------------------------------------------

  /** The running process is at level `l`, nobody better is queued, and nobody will wake up by `until`. */
  ghost predicate Settled(s: Sched, l: nat, until: nat) {
    && Inv(s) && s.current != IDLE && l < LEVELS && LevelIn(s.slots, s.current) == l
    && (forall k :: 0 <= k < l && k < |s.levels| ==> s.levels[k] == [])
    && NobodyDue(s.slots, until)
  }

  /** The processes of level `l` in the order they will run, the running one first. */
  ghost function Ring(s: Sched, l: nat): seq<Pid>
    requires l < |s.levels|
  {
    [s.current] + s.levels[l]
  }

  /** The ring after `k` turns. */
  ghost function Turned(ring: seq<Pid>, k: nat): (r: seq<Pid>)
    requires ring != []
    ensures |r| == |ring|
  {
    if k == 0 then ring else Turned(ring, k - 1)[1..] + [Turned(ring, k - 1)[0]]
  }

  lemma {:induction false} TurnedIs(ring: seq<Pid>, k: nat)
    requires ring != [] && k <= |ring|
    ensures Turned(ring, k) == ring[k..] + ring[..k]
  {
    if k > 0 { TurnedIs(ring, k - 1); }
  }

  lemma TickSlots(s: Sched, now: nat, x: Pid)
    requires Inv(s) && NobodyDue(s.slots, now)
    ensures var to := Schedule(s, now).current;
            Get(s.slots, x).Some? ==>
              Get(Schedule(s, now).slots, x) ==
              Some(Get(s.slots, x).value.(state := if x == to then Running
                                                   else if x == s.current then Ready
                                                   else Get(s.slots, x).value.state))
    ensures Get(s.slots, x).None? ==> Get(Schedule(s, now).slots, x).None?
  {
    assert Get(s.slots, s.current).Some? && PoolOk(s.slots);
    NoneDue(s.slots, now);
    RequeueMid(s);
    RequeueIs(s);
    var s1 := Requeue(s);
    StateChanges(s, s.current, Ready);
    assert PoolOk(s1.slots) && Get(s1.slots, IDLE).Some? by { assert SlotOk(s1.slots, 0); }
    hide Requeue, Mid, PoolOk, Inv, NobodyDue, Due, WakeAll;
    if Pop(s1).1.Some? { assert QueueOk(s1.slots, s1.levels) by { MidQueue(s1); } PopQueue(s1); }
    hide Pop;
    var to := if Pop(s1).1.Some? then Pop(s1).1.value else IDLE;
    StateChanges(Pop(s1).0, to, Running);
  }

  lemma MidQueue(s: Sched)
    requires Mid(s, None, {})
    ensures QueueOk(s.slots, s.levels) && MaskOk(s.levels, s.mask)
  {
  }

  /** One tick turns the ring by one. */
  lemma TickTurns(s: Sched, l: nat, now: nat, until: nat)
    requires Settled(s, l, until) && now <= until
    ensures |s.levels| == LEVELS
    ensures var s' := Schedule(s, now);
            && s'.current == (s.levels[l] + [s.current])[0]
            && s'.levels == s.levels[l := (s.levels[l] + [s.current])[1..]]
            && Settled(s', l, until)
  {
    CurrentLevel(s);
    assert NobodyDue(s.slots, now);
    TickIs(s, now, l);
    var s' := Schedule(s, now);
    assert IsBest(PutBack(s), l);
    assert Inv(s') by { assert Mid(s, None, {}); ScheduleKeeps(s, now); }
    TickStays(s, l, now, until);
  }

  /** Whoever runs next is of the same level, and sleepers sleep on. */
  lemma TickStays(s: Sched, l: nat, now: nat, until: nat)
    requires Settled(s, l, until) && now <= until && |s.levels| == LEVELS
    requires Schedule(s, now).current == (s.levels[l] + [s.current])[0]
    ensures var s' := Schedule(s, now);
            s'.current != IDLE && LevelIn(s'.slots, s'.current) == l && NobodyDue(s'.slots, until)
  {
    assert NobodyDue(s.slots, now);
    var s' := Schedule(s, now);
    var to := s'.current;
    if s.levels[l] != [] {
      assert LevelOk(s.slots, s.levels[l], l);
      assert to in s.levels[l] && EntryOk(s.slots, to, l);
    }
    assert Get(s.slots, to).Some?;
    hide Schedule, Inv;
    TickSlots(s, now, to);
    forall x | Get(s'.slots, x).Some? && Get(s'.slots, x).value.state.Sleeping?
      ensures until < Get(s'.slots, x).value.state.wakeAt
    {
      TickSlots(s, now, x);
    }
  }

  ghost function Ticks(s: Sched, nows: seq<nat>): Sched {
    if nows == [] then s else Schedule(Ticks(s, nows[..|nows| - 1]), nows[|nows| - 1])
  }

  /** After any number of ticks the ring has turned that far: the processes of the level take turns in order. */
  lemma {:induction false} RoundRobin(s: Sched, l: nat, nows: seq<nat>, until: nat)
    requires Settled(s, l, until) && |s.levels| == LEVELS && forall k :: 0 <= k < |nows| ==> nows[k] <= until
    ensures var ring := Turned(Ring(s, l), |nows|);
            && Settled(Ticks(s, nows), l, until)
            && Ticks(s, nows).current == ring[0] && Ticks(s, nows).levels == s.levels[l := ring[1..]]
    decreases |nows|
  {
    hide Settled, Schedule;
    SettledLevels(s, l, until);
    var ring := Ring(s, l);
    if nows != [] {
      var n := |nows| - 1;
      RoundRobin(s, l, nows[..n], until);
      var s1 := Ticks(s, nows[..n]);
      SettledLevels(s1, l, until);
      TickTurns(s1, l, nows[n], until);
      assert s1.levels[l] + [s1.current] == Turned(ring, n + 1);
    }
  }

  lemma SettledLevels(s: Sched, l: nat, until: nat)
    requires Settled(s, l, until)
    ensures |s.levels| == LEVELS && l < LEVELS
  {
  }

  /** The process at position `i` of the best level runs at tick `i + 1`, and everyone has run once after as many
      ticks as there are processes. */
  lemma EachTakesItsTurn(s: Sched, l: nat, i: nat, nows: seq<nat>, until: nat)
    requires Settled(s, l, until) && |s.levels| == LEVELS && forall k :: 0 <= k < |nows| ==> nows[k] <= until
    requires i < |s.levels[l]| && |nows| == i + 1
    ensures Ticks(s, nows).current == s.levels[l][i]
    ensures forall k :: 0 <= k <= i ==> Ticks(s, nows[..k]).current != s.levels[l][i]
  {
    hide Settled, Ticks;
    SettledLevels(s, l, until);
    var ring := Ring(s, l);
    RoundRobin(s, l, nows, until);
    TurnedIs(ring, i + 1);
    RingOnce(s, l, until);
    forall k | 0 <= k <= i
      ensures Ticks(s, nows[..k]).current != s.levels[l][i]
    {
      RoundRobin(s, l, nows[..k], until);
      TurnedIs(ring, k);
      assert ring[k] != ring[i + 1];
    }
  }

  lemma RingOnce(s: Sched, l: nat, until: nat)
    requires Settled(s, l, until) && |s.levels| == LEVELS
    ensures NoRepeats(Ring(s, l))
  {
    assert LevelOk(s.slots, s.levels[l], l);
    assert s.current in s.levels[l] ==> EntryOk(s.slots, s.current, l);
  }

  // ---------------------------------------------------------------------------
  // No event lets a queued process fall back
  // ---------------------------------------------------------------------------

  /** Queues only grew, at the back. */
  ghost predicate Grew(levels: seq<seq<Pid>>, levels': seq<seq<Pid>>) {
    |levels'| == |levels| && forall l :: 0 <= l < |levels| ==> levels[l] <= levels'[l]
  }

  /** `x` is among the first `i + 1` of level `l`. */
  ghost predicate Within(s: Sched, l: nat, i: nat, x: Pid) {
    l < |s.levels| && exists j: nat :: j <= i && j < |s.levels[l]| && s.levels[l][j] == x
  }

  lemma PushGrows(s: Sched, pid: Pid, nice: int)
    ensures Grew(s.levels, Push(s, pid, nice).levels)
  {
  }

  lemma ReadyGrows(s: Sched, pid: Pid)
    ensures Grew(s.levels, MakeReady(s, pid).levels)
  {
    hide Push;
    if Get(s.slots, pid).Some? { PushGrows(SetState(s, pid, Ready), pid, Get(s.slots, pid).value.nice); }
  }

  lemma {:induction false} WakeAllGrows(s: Sched, pids: seq<Pid>)
    ensures Grew(s.levels, WakeAll(s, pids).levels)
    decreases |pids|
  {
    hide MakeReady;
    if pids != [] {
      ReadyGrows(s, pids[0]);
      WakeAllGrows(MakeReady(s, pids[0]), pids[1..]);
    }
  }

  lemma RequeueGrows(s: Sched)
    ensures Grew(s.levels, Requeue(s).levels)
  {
    hide Push;
    if Get(s.slots, s.current).Some? {
      PushGrows(SetState(s, s.current, Ready), s.current, Get(s.slots, s.current).value.nice);
    }
  }

  lemma WakeParentGrows(s: Sched, child: Pid)
    ensures Grew(s.levels, WakeParent(s, child).levels)
  {
    hide MakeReady;
    if Get(s.slots, child).Some? && Get(s.slots, child).value.parent.Some? {
      ReadyGrows(s, Get(s.slots, child).value.parent.value);
    }
  }

  lemma {:induction false} AdoptGrows(s: Sched, children: seq<Pid>, init: Pid)
    ensures Grew(s.levels, AdoptAll(s, children, init).levels)
    decreases |children|
  {
    hide WakeParent;
    if children != [] {
      WakeParentGrows(SetParent(s, children[0], init), children[0]);
      AdoptGrows(Adopt(s, children[0], init), children[1..], init);
    }
  }

  /** After queues grew and the best head was taken, everyone else is at most as far back as before. */
  lemma SwitchAdvances(s: Sched, s1: Sched, l: nat, i: nat)
    requires Grew(s.levels, s1.levels) && l < |s.levels| && i < |s.levels[l]|
    ensures Switch(s1).current == s.levels[l][i] || Within(Switch(s1), l, i, s.levels[l][i])
  {
    var x, s' := s.levels[l][i], Switch(s1);
    SwitchLevels(s1);
    assert s1.levels[l][i] == x;
    var b := TrailingZeros(s1.mask);
    if Pop(s1).1.Some? && b == l {
      if 0 < i { assert s'.levels[l][i - 1] == x; }
    } else {
      assert s'.levels[l][i] == x;
    }
  }

  lemma {:induction false} WithoutAdvances(queue: seq<Pid>, pid: Pid, i: nat)
    requires i < |queue| && queue[i] != pid
    ensures exists j: nat :: j <= i && j < |Without(queue, pid)| && Without(queue, pid)[j] == queue[i]
  {
    if i == 0 {
      assert Without(queue, pid)[0] == queue[0];
    } else {
      WithoutAdvances(queue[1..], pid, i - 1);
      var j: nat :| j <= i - 1 && j < |Without(queue[1..], pid)| && Without(queue[1..], pid)[j] == queue[i];
      var k := if queue[0] == pid then j else j + 1;
      assert k <= i && k < |Without(queue, pid)| && Without(queue, pid)[k] == queue[i];
    }
  }

  lemma StopAdvances(s: Sched, pid: Pid, l: nat, i: nat)
    requires Inv(s) && l < LEVELS && i < |s.levels[l]| && s.levels[l][i] != pid
    ensures Within(Stop(s, pid), l, i, s.levels[l][i])
  {
    var x := s.levels[l][i];
    RemoveQueue(s.slots, s.levels, s.mask, pid);
    hide RemoveFrom, Inv;
    if Get(s.slots, pid).Some? && Get(s.slots, pid).value.state.Ready? {
      WithoutAdvances(s.levels[l], pid, i);
    } else {
      assert Stop(s, pid).levels[l][i] == x;
    }
  }

  lemma ScheduleAdvances(s: Sched, s0: Sched, now: nat, l: nat, i: nat)
    requires s0.levels == s.levels && l < |s.levels| && i < |s.levels[l]|
    ensures Schedule(s0, now).current == s.levels[l][i] || Within(Schedule(s0, now), l, i, s.levels[l][i])
  {
    hide Requeue, Switch, Within;
    var s1 := WakeAll(s0, Due(s0.slots, now));
    WakeAllGrows(s0, Due(s0.slots, now));
    RequeueGrows(s1);
    SwitchAdvances(s, Requeue(s1), l, i);
  }

  lemma ExitAdvances(s: Sched, code: int, l: nat, i: nat)
    requires l < |s.levels| && i < |s.levels[l]|
    ensures Exit(s, code).current == s.levels[l][i] || Within(Exit(s, code), l, i, s.levels[l][i])
  {
    hide Switch, Within, AdoptAll, ChildrenOf, WakeParent;
    var dead := SetState(s, s.current, Zombie(code));
    var adopted := if s.init.Some? then AdoptAll(dead, ChildrenOf(dead.slots, s.current), s.init.value) else dead;
    if s.init.Some? { AdoptGrows(dead, ChildrenOf(dead.slots, s.current), s.init.value); }
    WakeParentGrows(adopted, s.current);
    SwitchAdvances(s, WakeParent(adopted, s.current), l, i);
  }

  lemma GrewWithin(s: Sched, s': Sched, l: nat, i: nat)
    requires Grew(s.levels, s'.levels) && l < |s.levels| && i < |s.levels[l]|
    ensures Within(s', l, i, s.levels[l][i])
  {
    assert s'.levels[l][i] == s.levels[l][i];
  }

  /** Whatever happens, a queued process runs, or keeps its level and is no further from the head than before,
      unless it is stopped. */
  lemma StepAdvances(s: Sched, e: Event, l: nat, i: nat)
    requires Inv(s) && Allowed(s, e) && l < LEVELS && |s.levels| == LEVELS && i < |s.levels[l]|
    requires e != Signalled(s.levels[l][i], SIGSTOP)
    ensures Step(s, e).current == s.levels[l][i] || Within(Step(s, e), l, i, s.levels[l][i])
  {
    hide Inv, Schedule, Exit, Switch, Within, Create, MakeReady, Stop, Push, Reap;
    match e
    case Timer(now) => ScheduleAdvances(s, s, now, l, i);
    case Forks(free, tables) =>
      CreateLevels(s);
      if Create(s, s.current).1.Some? { ReadyGrows(Create(s, s.current).0, Create(s, s.current).1.value); }
      GrewWithin(s, Step(s, e), l, i);
    case Exits(code) => ExitAdvances(s, code, l, i);
    case Waits(child) =>
      ReapLevels(s, child);
      var s1 := SetState(s, s.current, Waiting(child));
      if Wait(s, child) == Switch(s1) { SwitchAdvances(s, s1, l, i); } else { GrewWithin(s, Wait(s, child), l, i); }
    case Blocks => SwitchAdvances(s, SetState(s, s.current, Blocked), l, i);
    case Sleeps(wakeAt, now) => ScheduleAdvances(s, SetState(s, s.current, Sleeping(wakeAt)), now, l, i);
    case Woken(pid) =>
      ReadyGrows(s, pid);
      GrewWithin(s, Unblock(s, pid), l, i);
    case Signalled(pid, signum) =>
      if signum == SIGSTOP && Get(s.slots, pid).Some? {
        StopAdvances(s, pid, l, i);
      } else {
        ReadyGrows(s, pid);
        GrewWithin(s, Signal(s, pid, signum), l, i);
      }
    case Reniced(nice) => GrewWithin(s, SetNice(s, nice), l, i);
  }

  lemma CreateLevels(s: Sched)
    ensures Create(s, s.current).0.levels == s.levels
  {
    hide Search;
  }

  lemma ReapLevels(s: Sched, child: Option<Pid>)
    ensures Reap(s, s.current, child).0.levels == s.levels
  {
    hide FindZombie;
  }

  /** Over any run: a queued process has run by the end, or was stopped, or is still within its first place. */
  lemma {:induction false} RunAdvances(s: Sched, events: seq<Event>, l: nat, i: nat)
    requires Inv(s) && l < LEVELS && |s.levels| == LEVELS && i < |s.levels[l]|
    ensures || (exists k :: 0 <= k <= |events| && After(s, events[..k]).current == s.levels[l][i])
            || Signalled(s.levels[l][i], SIGSTOP) in events
            || Within(After(s, events), l, i, s.levels[l][i])
    decreases |events|
  {
    hide Inv, Step, Allowed;
    var n, x := |events| - 1, s.levels[l][i];
    if events == [] {
      assert After(s, events).levels[l][i] == x;
    } else {
      RunAdvances(s, events[..n], l, i);
      var s1 := After(s, events[..n]);
      if k :| 0 <= k <= n && After(s, events[..n][..k]).current == x {
        assert events[..n][..k] == events[..k];
      } else if Signalled(x, SIGSTOP) !in events && Within(s1, l, i, x) && Allowed(s1, events[n]) {
        RunKeeps(s, events[..n]);
        QueueSize(s1);
        var j: nat :| j <= i && j < |s1.levels[l]| && s1.levels[l][j] == x;
        StepAdvances(s1, events[n], l, j);
        assert events[..n + 1] == events;
      }
    }
  }

  lemma QueueSize(s: Sched)
    requires Inv(s)
    ensures |s.levels| == LEVELS
  {
  }
}
