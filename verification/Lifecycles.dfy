/** What each event does to each single process, and that exit codes reach whoever waits.
 */
module Lifecycles {
  import opened Options
  import opened Processes
  import opened SchedulerInvariant

  // ---------------------------------------------------------------------------
  // The process after the event
  // ---------------------------------------------------------------------------

  ghost predicate IsDue(p: Process, now: nat) {
    p.state.Sleeping? && p.state.wakeAt <= now
  }

  /** The parent of `p` once `dead` has exited. */
  ghost function Heir(p: Process, dead: Pid, init: Option<Pid>): Option<Pid> {
    if p.parent == Some(dead) && init.Some? then init else p.parent
  }

  /** `z` is a zombie `x` hears of when the running process exits: the dead process itself or an orphan it leaves. */
  ghost predicate HearsOf(s: Sched, x: Pid, z: Pid) {
    && Get(s.slots, z).Some? && Heir(Get(s.slots, z).value, s.current, s.init) == Some(x)
    && (z == s.current ||
        (s.init.Some? && Get(s.slots, z).value.parent == Some(s.current) && Get(s.slots, z).value.state.Zombie?))
  }

  /** The state of a process that waits for any child, or for `z`. */
  ghost predicate Wants(state: ProcessState, z: Pid) {
    state == Waiting(None) || state == Waiting(Some(z))
  }

  /** What a signal makes of a process. */
  ghost function SignalledState(state: ProcessState, signum: nat): ProcessState {
    if signum == 0 || signum > 63 then state
    else if signum == 19 then if state.Zombie? then state else Stopped
    else if signum == 18 then if state.Stopped? then Ready else state
    else if state.Blocked? || state.Sleeping? then Ready
    else state
  }

  /** The state of process `x`, which is `p` now, after event `e` and before the processor is given away. */
  ghost function StateAfter(s: Sched, e: Event, x: Pid, p: Process): ProcessState {
    match e
    case Timer(now) => if x == s.current || IsDue(p, now) then Ready else p.state
    case Sleeps(wakeAt, now) =>
      if x == s.current then if wakeAt <= now then Ready else Sleeping(wakeAt)
      else if IsDue(p, now) then Ready
      else p.state
    case Exits(code) =>
      if x == s.current then Zombie(code)
      else if exists z :: HearsOf(s, x, z) && Wants(p.state, z) then Ready
      else p.state
    case Waits(child) => if x == s.current && MustWait(s, child) then Waiting(child) else p.state
    case Blocks => if x == s.current then Blocked else p.state
    case Woken(pid) => if x == pid && (p.state.Blocked? || p.state.Waiting?) then Ready else p.state
    case Signalled(pid, signum) => if x == pid then SignalledState(p.state, signum) else p.state
    case Forks(_, _) => p.state
    case Reniced(_) => p.state
  }

  ghost predicate IsChild(s: Sched, z: Pid) {
    Get(s.slots, z).Some? && Get(s.slots, z).value.parent == Some(s.current)
  }

  /** `z` is a zombie child of the running process that a wait for `child` would take. */
  ghost predicate Takes(s: Sched, child: Option<Pid>, z: Pid) {
    IsChild(s, z) && Get(s.slots, z).value.state.Zombie? && (child == None || child == Some(z))
  }

  /** The running process has a child, but none to take. */
  ghost predicate MustWait(s: Sched, child: Option<Pid>) {
    (exists z :: IsChild(s, z)) && !exists z :: Takes(s, child, z)
  }

  /** The event ends with giving the processor away. */
  ghost predicate Switches(s: Sched, e: Event) {
    e.Timer? || e.Sleeps? || e.Exits? || e.Blocks? || (e.Waits? && MustWait(s, e.child))
  }

  /** The event is a wait that takes `z`, the first in slot order. */
  ghost predicate Reaps(s: Sched, e: Event, z: Pid) {
    e.Waits? && Takes(s, e.child, z) && forall y :: Takes(s, e.child, y) ==> z.index <= y.index
  }

  ghost predicate Bears(s: Sched, e: Event, x: Pid) {
    e.Forks? && Create(s, s.current).1 == Some(x)
  }

  /** Process `x` after event `e`. */
  ghost function Fate(s: Sched, e: Event, x: Pid): Option<Process> {
    if Bears(s, e, x) then Some(Process(x, Some(s.current), Ready, 0))
    else if Get(s.slots, x).None? || Reaps(s, e, x) then None
    else
      var p := Get(s.slots, x).value;
      var state := if Switches(s, e) && x == Step(s, e).current then Running else StateAfter(s, e, x, p);
      Some(Process(p.pid, if e.Exits? then Heir(p, s.current, s.init) else p.parent, state,
                   if e.Reniced? && x == s.current then e.nice else p.nice))
  }

  // ---------------------------------------------------------------------------
  // Reading slots after each building block
  // ---------------------------------------------------------------------------

  lemma GetState(s: Sched, pid: Pid, state: ProcessState, x: Pid)
    ensures Get(SetState(s, pid, state).slots, x) ==
            if x == pid && Get(s.slots, x).Some? then Some(Get(s.slots, x).value.(state := state)) else Get(s.slots, x)
  {
  }

  lemma GetParent(s: Sched, pid: Pid, parent: Pid, x: Pid)
    ensures Get(SetParent(s, pid, parent).slots, x) ==
            if x == pid && Get(s.slots, x).Some? then Some(Get(s.slots, x).value.(parent := Some(parent)))
            else Get(s.slots, x)
  {
  }

  lemma GetReady(s: Sched, pid: Pid, x: Pid)
    ensures Get(MakeReady(s, pid).slots, x) ==
            if x == pid && Get(s.slots, x).Some? then Some(Get(s.slots, x).value.(state := Ready)) else Get(s.slots, x)
  {
    GetState(s, pid, Ready, x);
    hide SetState;
  }

  lemma {:induction false} GetWakeAll(s: Sched, pids: seq<Pid>, x: Pid)
    ensures Get(WakeAll(s, pids).slots, x) ==
            if x in pids && Get(s.slots, x).Some? then Some(Get(s.slots, x).value.(state := Ready))
            else Get(s.slots, x)
    ensures WakeAll(s, pids).current == s.current
    decreases |pids|
  {
    hide Get;
    if pids != [] {
      GetReady(s, pids[0], x);
      ReadyCurrent(s, pids[0]);
      hide MakeReady;
      GetWakeAll(MakeReady(s, pids[0]), pids[1..], x);
    }
  }

  lemma ReadyCurrent(s: Sched, pid: Pid)
    ensures MakeReady(s, pid).current == s.current && MakeReady(s, pid).init == s.init
  {
  }

  lemma GetRequeue(s: Sched, x: Pid)
    ensures Get(Requeue(s).slots, x) ==
            if x == s.current && Get(s.slots, x).Some? && Get(s.slots, x).value.state.Running?
            then Some(Get(s.slots, x).value.(state := Ready)) else Get(s.slots, x)
  {
    GetState(s, s.current, Ready, x);
    hide SetState;
  }

  lemma GetSwitch(s: Sched, x: Pid)
    ensures Get(Switch(s).slots, x) ==
            if x == Switch(s).current && Get(s.slots, x).Some? then Some(Get(s.slots, x).value.(state := Running))
            else Get(s.slots, x)
  {
    GetState(Pop(s).0, Switch(s).current, Running, x);
    hide SetState;
  }

  lemma GetWakeParent(s: Sched, z: Pid, x: Pid)
    ensures Get(WakeParent(s, z).slots, x) ==
            if Get(s.slots, z).Some? && Get(s.slots, z).value.parent == Some(x) && Get(s.slots, x).Some? &&
               WaitsFor(Get(s.slots, x).value.state, z)
            then Some(Get(s.slots, x).value.(state := Ready)) else Get(s.slots, x)
    ensures WakeParent(s, z).current == s.current && WakeParent(s, z).init == s.init
  {
    if Get(s.slots, z).Some? && Get(s.slots, z).value.parent.Some? {
      var up := Get(s.slots, z).value.parent.value;
      GetReady(s, up, x);
      ReadyCurrent(s, up);
    }
    hide MakeReady;
  }

  // ---------------------------------------------------------------------------
  // Orphans
  // ---------------------------------------------------------------------------

  /** Some zombie among `children` is one that `x`, in state `state`, waits for. */
  ghost predicate News(s: Sched, children: seq<Pid>, state: ProcessState) {
    exists z :: z in children && Get(s.slots, z).Some? && Get(s.slots, z).value.state.Zombie? && WaitsFor(state, z)
  }

  ghost function Adopted(s: Sched, children: seq<Pid>, init: Pid, x: Pid, p: Process): Process {
    p.(parent := if x in children then Some(init) else p.parent,
       state := if x == init && News(s, children, p.state) then Ready else p.state)
  }

  lemma GetAdopt(s: Sched, child: Pid, init: Pid, x: Pid)
    ensures Get(Adopt(s, child, init).slots, x) ==
            if Get(s.slots, x).Some? then Some(Adopted(s, [child], init, x, Get(s.slots, x).value)) else None
  {
    var s1 := SetParent(s, child, init);
    GetParent(s, child, init, x);
    GetParent(s, child, init, child);
    GetWakeParent(s1, child, x);
    hide WakeParent, SetParent;
    assert child in [child];
  }

  lemma {:induction false} GetAdoptAll(s: Sched, children: seq<Pid>, init: Pid, x: Pid)
    ensures Get(AdoptAll(s, children, init).slots, x) ==
            if Get(s.slots, x).Some? then Some(Adopted(s, children, init, x, Get(s.slots, x).value)) else None
    decreases |children|
  {
    hide Get, Adopt;
    if children != [] {
      var s1 := Adopt(s, children[0], init);
      GetAdopt(s, children[0], init, x);
      GetAdoptAll(s1, children[1..], init, x);
      if Get(s.slots, x).Some? { NewsSplit(s, children, init, Get(s.slots, x).value.state); }
    }
  }

  /** The first child and the others bring the news of all. */
  lemma NewsSplit(s: Sched, children: seq<Pid>, init: Pid, state: ProcessState)
    requires children != []
    ensures News(s, children, state) <==>
            News(s, [children[0]], state) || News(Adopt(s, children[0], init), children[1..], state)
  {
    hide Adopt;
    var s1 := Adopt(s, children[0], init);
    forall z
      ensures Get(s1.slots, z).Some? <==> Get(s.slots, z).Some?
      ensures Get(s.slots, z).Some? ==>
                (Get(s1.slots, z).value.state.Zombie? <==> Get(s.slots, z).value.state.Zombie?)
    {
      GetAdopt(s, children[0], init, z);
    }
    hide Get;
    assert forall z :: z in children <==> z == children[0] || z in children[1..];
  }

  // ---------------------------------------------------------------------------
  // Event by event
  // ---------------------------------------------------------------------------

  lemma DueIs(slots: Slots, now: nat, x: Pid)
    requires PoolOk(slots)
    ensures x in Due(slots, now) <==> Get(slots, x).Some? && IsDue(Get(slots, x).value, now)
  {
    assert slots[..|slots|] == slots;
    DueAre(slots, |slots|, now);
  }

  lemma GetSchedule(s: Sched, now: nat, x: Pid)
    requires PoolOk(s.slots)
    ensures Get(s.slots, x).None? ==> Get(Schedule(s, now).slots, x).None?
    ensures Get(s.slots, x).Some? ==>
              var p := Get(s.slots, x).value;
              Get(Schedule(s, now).slots, x) ==
              Some(p.(state := if x == Schedule(s, now).current then Running
                               else if IsDue(p, now) || (x == s.current && p.state.Running?) then Ready
                               else p.state))
  {
    var s1 := WakeAll(s, Due(s.slots, now));
    DueIs(s.slots, now, x);
    GetWakeAll(s, Due(s.slots, now), x);
    GetRequeue(s1, x);
    GetSwitch(Requeue(s1), x);
    hide Get, WakeAll, Requeue, Switch, Due;
  }

  lemma TimerFate(s: Sched, now: nat, x: Pid)
    requires Inv(s)
    ensures Get(Step(s, Timer(now)).slots, x) == Fate(s, Timer(now), x)
  {
    assert PoolOk(s.slots) && Get(s.slots, s.current).Some?;
    if Get(s.slots, x).Some? { assert Get(s.slots, x).value.pid == x; }
    GetSchedule(s, now, x);
    hide Schedule, PoolOk;
  }

  lemma SleepFate(s: Sched, wakeAt: nat, now: nat, x: Pid)
    requires Inv(s) && s.current != IDLE
    ensures Get(Step(s, Sleeps(wakeAt, now)).slots, x) == Fate(s, Sleeps(wakeAt, now), x)
  {
    var s1 := SetState(s, s.current, Sleeping(wakeAt));
    GiveUp(s, Sleeping(wakeAt));
    assert PoolOk(s1.slots);
    if Get(s.slots, x).Some? { assert Get(s.slots, x).value.pid == x; }
    GetState(s, s.current, Sleeping(wakeAt), x);
    GetSchedule(s1, now, x);
    hide Schedule, PoolOk, SetState;
  }

  lemma ChildIs(s: Sched, code: int, x: Pid)
    requires Inv(s) && s.current != IDLE && s.init != Some(s.current)
    ensures var dead := SetState(s, s.current, Zombie(code));
            x in ChildrenOf(dead.slots, s.current) <==>
            Get(s.slots, x).Some? && Get(s.slots, x).value.parent == Some(s.current)
  {
    DeadChildren(s, code);
    GetState(s, s.current, Zombie(code), x);
    hide ChildrenOf, SetState;
  }

  /** Whoever waits hears of the dead process or of its orphans, through adoption or directly. */
  lemma HeardOf(s: Sched, code: int, children: seq<Pid>, x: Pid, state: ProcessState)
    requires s.init.Some? && Get(s.slots, s.current).Some?
    requires forall z :: z in children <==> Get(s.slots, z).Some? && Get(s.slots, z).value.parent == Some(s.current)
    ensures var dead := SetState(s, s.current, Zombie(code));
            (exists z :: HearsOf(s, x, z) && Wants(state, z)) <==>
            || (x == s.init.value && News(dead, children, state))
            || (Heir(Get(s.slots, s.current).value, s.current, s.init) == Some(x) && WaitsFor(state, s.current))
  {
    var dead := SetState(s, s.current, Zombie(code));
    forall z
      ensures Get(dead.slots, z) ==
              if z == s.current && Get(s.slots, z).Some? then Some(Get(s.slots, z).value.(state := Zombie(code)))
              else Get(s.slots, z)
    {
      GetState(s, s.current, Zombie(code), z);
    }
    hide SetState, Get;
    if z :| HearsOf(s, x, z) && Wants(state, z) {
      if z != s.current { assert z in children; }
    }
    if x == s.init.value && News(dead, children, state) {
      var z :| z in children && Get(dead.slots, z).Some? && Get(dead.slots, z).value.state.Zombie? &&
               WaitsFor(state, z);
      assert HearsOf(s, x, z);
    }
    if Heir(Get(s.slots, s.current).value, s.current, s.init) == Some(x) && WaitsFor(state, s.current) {
      assert HearsOf(s, x, s.current);
    }
  }

  lemma GetExit(s: Sched, code: int, x: Pid)
    requires s.init.Some?
    ensures var dead := SetState(s, s.current, Zombie(code));
            var children := ChildrenOf(dead.slots, s.current);
            && (Get(dead.slots, x).None? ==> Get(Exit(s, code).slots, x).None?)
            && (Get(dead.slots, x).Some? && Get(dead.slots, s.current).Some? ==>
                  var q := Adopted(dead, children, s.init.value, x, Get(dead.slots, x).value);
                  var up := Adopted(dead, children, s.init.value, s.current, Get(dead.slots, s.current).value).parent;
                  Get(Exit(s, code).slots, x) ==
                  Some(q.(state := if x == Exit(s, code).current then Running
                                   else if up == Some(x) && WaitsFor(q.state, s.current) then Ready
                                   else q.state)))
  {
    hide Get, SetState, ChildrenOf, AdoptAll, WakeParent, Switch, WaitsFor, Adopted;
    var dead := SetState(s, s.current, Zombie(code));
    var children := ChildrenOf(dead.slots, s.current);
    var adopted := AdoptAll(dead, children, s.init.value);
    GetAdoptAll(dead, children, s.init.value, x);
    GetAdoptAll(dead, children, s.init.value, s.current);
    GetWakeParent(adopted, s.current, x);
    GetSwitch(WakeParent(adopted, s.current), x);
    DeadSame(s, code);
  }

  lemma DeadSame(s: Sched, code: int)
    ensures SetState(s, s.current, Zombie(code)).init == s.init
  {
  }

  lemma ExitFate(s: Sched, code: int, x: Pid)
    requires Inv(s) && s.current != IDLE && s.init != Some(s.current)
    ensures Get(Step(s, Exits(code)).slots, x) == Fate(s, Exits(code), x)
  {
    assert s.init.Some? && Get(s.slots, s.current).Some?;
    if Get(s.slots, x).Some? { assert Get(s.slots, x).value.pid == x; }
    var dead := SetState(s, s.current, Zombie(code));
    var children := ChildrenOf(dead.slots, s.current);
    GetState(s, s.current, Zombie(code), x);
    GetState(s, s.current, Zombie(code), s.current);
    ChildIs(s, code, x);
    ChildIs(s, code, s.current);
    GetExit(s, code, x);
    if Get(s.slots, x).Some? {
      forall z
        ensures z in children <==> Get(s.slots, z).Some? && Get(s.slots, z).value.parent == Some(s.current)
      {
        ChildIs(s, code, z);
      }
      HeardOf(s, code, children, x, Get(s.slots, x).value.state);
    }
    hide Inv, Get, SetState, ChildrenOf, Exit, HearsOf, News;
  }

  lemma ForkFate(s: Sched, free: nat, tables: Option<nat>, x: Pid)
    requires Inv(s)
    ensures Get(Step(s, Forks(free, tables)).slots, x) == Fate(s, Forks(free, tables), x)
  {
    if Get(s.slots, x).Some? { assert Get(s.slots, x).value.pid == x; }
    CreateMid(s);
    hide Create, MakeReady;
    var (s1, pid) := Create(s, s.current);
    if pid.Some? { GetReady(s1, pid.value, x); }
  }

  lemma ChildSlot(s: Sched, k: nat)
    requires Inv(s) && k < |s.slots| && s.slots[k].Some?
    ensures var x := s.slots[k].value.pid; x.index == k && Get(s.slots, x) == s.slots[k]
  {
    SlotIsGot(s.slots, k);
  }

  lemma SameIndex(s: Sched, x: Pid, y: Pid)
    requires Inv(s) && Get(s.slots, x).Some? && Get(s.slots, y).Some? && x.index == y.index
    ensures x == y
  {
  }

  /** The search through the slots takes the first zombie child there is. */
  lemma WaitIs(s: Sched, child: Option<Pid>)
    requires Inv(s)
    ensures HasChildren(s.slots, s.current) <==> exists z :: IsChild(s, z)
    ensures Reap(s, s.current, child).1.Some? <==> exists z :: Takes(s, child, z)
    ensures Reap(s, s.current, child).1.Some? ==>
              var (z, code) := Reap(s, s.current, child).1.value;
              Reaps(s, Waits(child), z) && Get(s.slots, z).value.state == Zombie(code)
  {
    if HasChildren(s.slots, s.current) {
      var k :| 0 <= k < |s.slots| && s.slots[k].Some? && s.slots[k].value.parent == Some(s.current);
      ChildSlot(s, k);
      assert IsChild(s, s.slots[k].value.pid);
    }
    var r := FindZombie(s.slots, 0, s.current, child);
    forall y | Takes(s, child, y)
      ensures r.Some? && r.value <= y.index
    {
      assert Reapable(s.slots, y.index, s.current, child);
    }
    if r.Some? {
      ChildSlot(s, r.value);
      assert Takes(s, child, s.slots[r.value].value.pid);
    }
  }

  /** So it is told from the processes alone when a wait parks and whom it reaps. */
  lemma WaitTold(s: Sched, child: Option<Pid>, z: Pid)
    requires Inv(s)
    ensures MustWait(s, child) <==> HasChildren(s.slots, s.current) && Reap(s, s.current, child).1.None?
    ensures Reaps(s, Waits(child), z) <==>
            && HasChildren(s.slots, s.current) && Reap(s, s.current, child).1.Some?
            && Reap(s, s.current, child).1.value.0 == z
  {
    WaitIs(s, child);
    if Reap(s, s.current, child).1.Some? && Reaps(s, Waits(child), z) {
      SameIndex(s, z, Reap(s, s.current, child).1.value.0);
    }
    hide Inv, Reap, HasChildren;
  }

  lemma WaitFate(s: Sched, child: Option<Pid>, x: Pid)
    requires Inv(s) && s.current != IDLE
    ensures Get(Step(s, Waits(child)).slots, x) == Fate(s, Waits(child), x)
  {
    if Get(s.slots, x).Some? { assert Get(s.slots, x).value.pid == x; }
    WaitTold(s, child, x);
    GetReap(s, child, x);
    var s1 := SetState(s, s.current, Waiting(child));
    GetState(s, s.current, Waiting(child), x);
    GetSwitch(s1, x);
    hide Reap, Switch, SetState, HasChildren, Inv, MustWait, Reaps;
  }

  lemma GetReap(s: Sched, child: Option<Pid>, x: Pid)
    ensures var (s', r) := Reap(s, s.current, child);
            && (r.None? ==> s' == s)
            && (r.Some? ==> Get(s'.slots, x) == if x == r.value.0 then None else Get(s.slots, x))
  {
  }

  lemma BlockFate(s: Sched, x: Pid)
    requires Inv(s)
    ensures Get(Step(s, Blocks).slots, x) == Fate(s, Blocks, x)
  {
    if Get(s.slots, x).Some? { assert Get(s.slots, x).value.pid == x; }
    GetState(s, s.current, Blocked, x);
    GetSwitch(SetState(s, s.current, Blocked), x);
    hide Switch, SetState, Inv;
  }

  lemma SignalFate(s: Sched, pid: Pid, signum: nat, x: Pid)
    requires Inv(s)
    ensures Get(Step(s, Signalled(pid, signum)).slots, x) == Fate(s, Signalled(pid, signum), x)
  {
    if Get(s.slots, x).Some? { assert Get(s.slots, x).value.pid == x; }
    GetState(s, pid, Stopped, x);
    GetReady(s, pid, x);
    hide SetState, MakeReady, RemoveFrom, Inv;
  }

  lemma WokenFate(s: Sched, pid: Pid, x: Pid)
    requires Inv(s)
    ensures Get(Step(s, Woken(pid)).slots, x) == Fate(s, Woken(pid), x)
  {
    if Get(s.slots, x).Some? { assert Get(s.slots, x).value.pid == x; }
    GetReady(s, pid, x);
    hide MakeReady, Inv;
  }

  lemma NiceFate(s: Sched, nice: int, x: Pid)
    requires Inv(s) && NICE_MIN <= nice <= NICE_MAX
    ensures Get(Step(s, Reniced(nice)).slots, x) == Fate(s, Reniced(nice), x)
  {
    if Get(s.slots, x).Some? { assert Get(s.slots, x).value.pid == x; }
    NiceMid(s, nice);
    hide SetNice, Inv;
  }

  /** Every event does to every process what its fate says. */
  lemma StepFates(s: Sched, e: Event, x: Pid)
    requires Inv(s) && Allowed(s, e)
    ensures Get(Step(s, e).slots, x) == Fate(s, e, x)
  {
    hide Inv, Fate, Step, Get;
    match e
    case Timer(now) => TimerFate(s, now, x);
    case Forks(free, tables) => ForkFate(s, free, tables, x);
    case Exits(code) => ExitFate(s, code, x);
    case Waits(child) => WaitFate(s, child, x);
    case Blocks => BlockFate(s, x);
    case Sleeps(wakeAt, now) => SleepFate(s, wakeAt, now, x);
    case Woken(pid) => WokenFate(s, pid, x);
    case Signalled(pid, signum) => SignalFate(s, pid, signum, x);
    case Reniced(nice) => NiceFate(s, nice, x);
  }

  // ---------------------------------------------------------------------------
  // Exit codes
  // ---------------------------------------------------------------------------

  /** The state right before the processor is given away. */
  ghost function Before(s: Sched, e: Event): Sched
    requires Switches(s, e)
  {
    match e
    case Timer(now) => Requeue(WakeAll(s, Due(s.slots, now)))
    case Sleeps(wakeAt, now) =>
      var s1 := SetState(s, s.current, Sleeping(wakeAt));
      Requeue(WakeAll(s1, Due(s1.slots, now)))
    case Exits(code) =>
      var dead := SetState(s, s.current, Zombie(code));
      var adopted := if s.init.Some? then AdoptAll(dead, ChildrenOf(dead.slots, s.current), s.init.value) else dead;
      WakeParent(adopted, s.current)
    case Blocks => SetState(s, s.current, Blocked)
    case Waits(child) => SetState(s, s.current, Waiting(child))
  }

  lemma BeforeIs(s: Sched, e: Event)
    requires Inv(s) && Switches(s, e)
    ensures Step(s, e) == Switch(Before(s, e))
  {
    if e.Waits? { WaitTold(s, e.child, IDLE); }
    hide Switch, Requeue, WakeAll, AdoptAll, WakeParent, SetState, HasChildren, Reap, ChildrenOf, Inv, MustWait;
  }

  lemma WokenUpMid(s: Sched, now: nat)
    requires Mid(s, None, {}) && (s.current == IDLE ==> Get(s.slots, IDLE).value.state.Running?)
    ensures var s1 := Requeue(WakeAll(s, Due(s.slots, now))); Mid(s1, None, {}) && NoRunner(s1.slots)
  {
    assert PoolOk(s.slots) && Get(s.slots, s.current).Some?;
    assert s.slots[..|s.slots|] == s.slots;
    DueAre(s.slots, |s.slots|, now);
    WakeAllMid(s, Due(s.slots, now));
    hide Mid;
    RequeueMid(WakeAll(s, Due(s.slots, now)));
  }

  lemma WaitingBefore(s: Sched, child: Option<Pid>)
    requires Inv(s) && s.current != IDLE && MustWait(s, child)
    ensures var s1 := SetState(s, s.current, Waiting(child)); Mid(s1, None, {}) && NoRunner(s1.slots)
  {
    assert PoolOk(s.slots);
    WaitTold(s, child, IDLE);
    if FindZombie(s.slots, 0, s.current, child).Some? {
      SlotIsGot(s.slots, FindZombie(s.slots, 0, s.current, child).value);
      assert false;
    }
    WaitingMid(s, child);
    var s1 := SetState(s, s.current, Waiting(child));
    forall x | Get(s1.slots, x).Some?
      ensures !Get(s1.slots, x).value.state.Running?
    {
      if x != s.current { OnlyRunner(s, x); }
    }
  }

  lemma BeforeMid(s: Sched, e: Event)
    requires Inv(s) && Allowed(s, e) && Switches(s, e)
    ensures Mid(Before(s, e), None, {}) && NoRunner(Before(s, e).slots)
  {
    assert Mid(s, None, {});
    hide Inv, Mid, NoRunner, Requeue, WakeAll, AdoptAll, WakeParent, ChildrenOf, MustWait;
    match e
    case Timer(now) => WokenUpMid(s, now);
    case Sleeps(wakeAt, now) =>
      GiveUp(s, Sleeping(wakeAt));
      WokenUpMid(SetState(s, s.current, Sleeping(wakeAt)), now);
    case Exits(code) =>
      OrphansMoved(s, code);
      var dead := SetState(s, s.current, Zombie(code));
      ReportedMid(AdoptAll(dead, ChildrenOf(dead.slots, s.current), s.init.value), s.current);
    case Blocks => GiveUp(s, Blocked);
    case Waits(child) => WaitingBefore(s, child);
  }

  lemma ReportedMid(s: Sched, dead: Pid)
    requires Mid(s, None, {dead}) && Get(s.slots, dead).Some? && Get(s.slots, dead).value.state.Zombie?
    requires NoRunner(s.slots)
    ensures Mid(WakeParent(s, dead), None, {}) && NoRunner(WakeParent(s, dead).slots)
  {
    WakeParentMid(s, dead, None, {dead});
    assert {dead} - {dead} == {};
    hide Mid, WakeParent;
  }

  /** The process chosen to run was Ready. */
  lemma SwitchReady(s: Sched)
    requires Mid(s, None, {}) && NoRunner(s.slots)
    ensures Get(s.slots, Switch(s).current).Some? && Get(s.slots, Switch(s).current).value.state.Ready?
  {
    PopBest(s);
    if Pop(s).1.Some? { PopQueue(s); } else { assert SlotOk(s.slots, 0) && Get(s.slots, IDLE).Some?; }
  }

  lemma ZombieBefore(s: Sched, e: Event, z: Pid)
    requires Inv(s) && Allowed(s, e) && Switches(s, e)
    requires Get(s.slots, z).Some? && Get(s.slots, z).value.state.Zombie? && z != s.current
    ensures Get(Before(s, e).slots, z).Some? && Get(Before(s, e).slots, z).value.state == Get(s.slots, z).value.state
  {
    assert PoolOk(s.slots) && s.init.Some?;
    match e
    case Timer(now) => AwakeZombie(s, now, z);
    case Sleeps(wakeAt, now) =>
      GetState(s, s.current, Sleeping(wakeAt), z);
      GiveUp(s, Sleeping(wakeAt));
      AwakeZombie(SetState(s, s.current, Sleeping(wakeAt)), now, z);
    case Exits(code) =>
      var dead := SetState(s, s.current, Zombie(code));
      var adopted := AdoptAll(dead, ChildrenOf(dead.slots, s.current), s.init.value);
      GetState(s, s.current, Zombie(code), z);
      GetAdoptAll(dead, ChildrenOf(dead.slots, s.current), s.init.value, z);
      GetWakeParent(adopted, s.current, z);
      hide Inv, Get, SetState, AdoptAll, WakeParent, ChildrenOf;
    case Blocks => GetState(s, s.current, Blocked, z);
    case Waits(child) => GetState(s, s.current, Waiting(child), z);
  }

  lemma AwakeZombie(s: Sched, now: nat, z: Pid)
    requires PoolOk(s.slots) && Get(s.slots, z).Some? && Get(s.slots, z).value.state.Zombie?
    ensures Get(Requeue(WakeAll(s, Due(s.slots, now))).slots, z) == Get(s.slots, z)
  {
    DueIs(s.slots, now, z);
    GetWakeAll(s, Due(s.slots, now), z);
    GetRequeue(WakeAll(s, Due(s.slots, now)), z);
    hide Get, WakeAll, Requeue, Due;
  }

  /** An event leaves a zombie and its code alone, or is its parent's wait and hands the code over. */
  lemma ZombieStays(s: Sched, e: Event, z: Pid)
    requires Inv(s) && Allowed(s, e) && Get(s.slots, z).Some? && Get(s.slots, z).value.state.Zombie?
    ensures Reaps(s, e, z) ==>
              && Reap(s, s.current, e.child).1 == Some((z, Get(s.slots, z).value.state.code))
              && Get(s.slots, z).value.parent == Some(s.current)
    ensures !Reaps(s, e, z) ==>
              Get(Step(s, e).slots, z).Some? && Get(Step(s, e).slots, z).value.state == Get(s.slots, z).value.state
  {
    assert z != s.current && PoolOk(s.slots);
    StepFates(s, e, z);
    if Switches(s, e) {
      BeforeIs(s, e);
      BeforeMid(s, e);
      SwitchReady(Before(s, e));
      ZombieBefore(s, e, z);
    }
    NotBorn(s, z);
    ReapsChild(s, e, z);
    hide Inv, Get, Step, Reap, Create, Switches, Mid, Before, HasChildren;
  }

  lemma NotBorn(s: Sched, z: Pid)
    requires Inv(s) && Get(s.slots, z).Some?
    ensures Create(s, s.current).1 != Some(z)
  {
    if Create(s, s.current).1.Some? { GetCreated(s, s.current, z); }
  }

  lemma ReapsChild(s: Sched, e: Event, z: Pid)
    requires Inv(s) && Get(s.slots, z).Some? && Get(s.slots, z).value.state.Zombie?
    ensures Reaps(s, e, z) ==>
              && Reap(s, s.current, e.child).1 == Some((z, Get(s.slots, z).value.state.code))
              && Get(s.slots, z).value.parent == Some(s.current)
  {
    if Reaps(s, e, z) {
      WaitTold(s, e.child, z);
      WaitIs(s, e.child);
    }
    hide Reap, Inv;
  }

  /** Over any run: a zombie keeps its code until its parent reaps it and is told that code. */
  lemma {:induction false} CodeDelivered(s: Sched, events: seq<Event>, z: Pid)
    requires Inv(s) && Get(s.slots, z).Some? && Get(s.slots, z).value.state.Zombie?
    ensures var code := Get(s.slots, z).value.state.code;
            || Kept(After(s, events), z, code)
            || exists k :: 0 <= k < |events| && Handed(After(s, events[..k]), events[k], z, code)
    decreases |events|
  {
    hide Inv, Get, Step, Allowed;
    if events != [] {
      var n, code := |events| - 1, Get(s.slots, z).value.state.code;
      CodeDelivered(s, events[..n], z);
      var s1, e := After(s, events[..n]), events[n];
      RunKeeps(s, events[..n]);
      if k :| 0 <= k < n && Handed(After(s, events[..n][..k]), events[..n][k], z, code) {
        assert events[..n][..k] == events[..k] && events[..n][k] == events[k];
      } else if Allowed(s1, e) {
        ZombieStays(s1, e, z);
        if Reaps(s1, e, z) { assert Handed(After(s, events[..n]), events[n], z, code); }
      }
    }
  }

  ghost predicate Kept(s: Sched, z: Pid, code: int) {
    Get(s.slots, z).Some? && Get(s.slots, z).value.state == Zombie(code)
  }

  /** Event `e` is a wait by the parent of `z` that returns `z` and `code`. */
  ghost predicate Handed(s: Sched, e: Event, z: Pid, code: int) {
    && Get(s.slots, z).Some? && Get(s.slots, z).value.parent == Some(s.current)
    && e.Waits? && Reap(s, s.current, e.child).1 == Some((z, code))
  }
}
