/** The ticket spinlock: every interleaving of its atomic steps.

    A thread takes a ticket with one fetch-add, then loads the served number until it equals the
    ticket, then holds the lock until its guard is dropped, which is a second fetch-add.  Both
    counters wrap at 32 bits.  A schedule names the thread that performs the next atomic step, so
    the runs over all schedules are all interleavings.
 */
module TicketLock {
  /** The counters are 32 bits wide. */
  const RANGE: nat := 0x1_0000_0000

  datatype Phase = Idle | Waiting(ticket: nat) | Holding

  /** The two counters and the threads, with the orders in which tickets were taken and entries made. */
  datatype State = State(
    next: nat, serving: nat, threads: seq<Phase>,
    taken: seq<nat>, entered: seq<nat>, released: nat)

  function Boot(count: nat): State {
    State(0, 0, seq(count, _ => Idle), [], [], 0)
  }

  function Bump(x: nat): nat {
    (x + 1) % RANGE
  }

  /** The next atomic step of thread `t`. */
  function Step(s: State, t: nat): (r: State)
    requires t < |s.threads|
    ensures |r.threads| == |s.threads|
  {
    match s.threads[t]
    case Idle => s.(next := Bump(s.next), threads := s.threads[t := Waiting(s.next)], taken := s.taken + [t])
    case Waiting(ticket) =>
      if s.serving == ticket then s.(threads := s.threads[t := Holding], entered := s.entered + [t]) else s
    case Holding => s.(serving := Bump(s.serving), threads := s.threads[t := Idle], released := s.released + 1)
  }

  predicate Schedules(schedule: seq<nat>, count: nat) {
    forall i :: 0 <= i < |schedule| ==> schedule[i] < count
  }

  function Run(s: State, schedule: seq<nat>): (r: State)
    requires Schedules(schedule, |s.threads|)
    ensures |r.threads| == |s.threads|
  {
    if schedule == [] then s else Step(Run(s, schedule[..|schedule| - 1]), schedule[|schedule| - 1])
  }

  /** Mutual exclusion: no two threads hold the lock. */
  predicate Exclusive(s: State) {
    forall t, u :: 0 <= t < u < |s.threads| ==> !(s.threads[t].Holding? && s.threads[u].Holding?)
  }

  // ---------------------------------------------------------------------------
  // The invariant
  // ---------------------------------------------------------------------------

  /** The thread that took the `i`-th ticket is in the phase its place says. */
  predicate InPlace(s: State, i: nat)
    requires i < |s.taken|
  {
    && s.taken[i] < |s.threads|
    && s.threads[s.taken[i]] == if i < |s.entered| then Holding else Waiting(i % RANGE)
  }

  /** Thread `t` is idle or has a place among the tickets not yet released. */
  predicate Placed(s: State, t: nat)
    requires t < |s.threads| && s.released <= |s.taken|
  {
    s.threads[t].Idle? || t in s.taken[s.released..]
  }

  predicate Distinct(s: seq<nat>) {
    forall i, j :: 0 <= i < j < |s| ==> s[i] != s[j]
  }

  /** The counters are the numbers of tickets and releases, and entries follow the ticket order. */
  predicate Inv(s: State) {
    && s.released <= |s.entered| <= s.released + 1 && |s.entered| <= |s.taken|
    && s.entered == s.taken[..|s.entered|]
    && s.next == |s.taken| % RANGE && s.serving == s.released % RANGE
    && (forall i: nat :: s.released <= i < |s.taken| ==> InPlace(s, i))
    && Distinct(s.taken[s.released..])
    && (forall t: nat :: t < |s.threads| ==> Placed(s, t))
  }

  lemma BootInv(count: nat)
    ensures Inv(Boot(count))
  {
    var s := Boot(count);
    forall t: nat | t < count ensures Placed(s, t) {
      assert s.threads[t] == Idle;
    }
  }

  lemma BumpCounts(n: nat)
    ensures Bump(n % RANGE) == (n + 1) % RANGE
  {
  }

  /** Two places less than a full turn apart have different tickets. */
  lemma SameTicket(i: nat, j: nat)
    requires i <= j < i + RANGE && i % RANGE == j % RANGE
    ensures i == j
  {
  }

  /** Distinct numbers below `n` are at most `n` many. */
  lemma {:induction false} Pigeonhole(s: seq<nat>, n: nat)
    requires Distinct(s) && forall i :: 0 <= i < |s| ==> s[i] < n
    ensures |s| <= n
    decreases n
  {
    assert |s| > 0 ==> s[0] < n;
    if n > 0 {
      if k: nat :| k < |s| && s[k] == n - 1 {
        Pigeonhole(s[..k] + s[k + 1..], n - 1);
      } else {
        Pigeonhole(s, n - 1);
      }
    }
  }

  /** The tickets not yet released are held by as many threads. */
  lemma Outstanding(s: State)
    requires Inv(s)
    ensures |s.taken| - s.released <= |s.threads|
  {
    var out := s.taken[s.released..];
    forall i | 0 <= i < |out| ensures out[i] < |s.threads| {
      assert InPlace(s, s.released + i);
    }
    Pigeonhole(out, |s.threads|);
  }

  /** The place of a thread that is not idle. */
  lemma PlaceOf(s: State, t: nat) returns (i: nat)
    requires Inv(s) && t < |s.threads| && !s.threads[t].Idle?
    ensures s.released <= i < |s.taken| && s.taken[i] == t && InPlace(s, i)
  {
    assert Placed(s, t);
    var k: nat :| k < |s.taken| - s.released && s.taken[s.released..][k] == t;
    i := s.released + k;
  }

  lemma TakeKeeps(s: State, t: nat)
    requires Inv(s) && t < |s.threads| && s.threads[t].Idle?
    ensures Inv(Step(s, t))
  {
    var r := Step(s, t);
    BumpCounts(|s.taken|);
    assert r.taken[s.released..] == s.taken[s.released..] + [t];
    forall i: nat | s.released <= i < |r.taken| ensures InPlace(r, i) {
      if i < |s.taken| {
        assert InPlace(s, i);
      }
    }
    forall k | 0 <= k < |s.taken| - s.released ensures s.taken[s.released..][k] != t {
      assert InPlace(s, s.released + k);
    }
    forall u: nat | u < |r.threads| ensures Placed(r, u) {
      assert Placed(s, u);
    }
  }

  lemma EnterKeeps(s: State, t: nat)
    requires Inv(s) && t < |s.threads| && s.threads[t] == Waiting(s.serving) && |s.threads| <= RANGE
    ensures Inv(Step(s, t)) && |s.entered| == s.released && s.released < |s.taken| && s.taken[s.released] == t
  {
    var r := Step(s, t);
    var i := PlaceOf(s, t);
    Outstanding(s);
    SameTicket(s.released, i);
    forall j: nat | s.released <= j < |r.taken| ensures InPlace(r, j) {
      assert InPlace(s, j);
      if j != i {
        OthersDiffer(s, i, j);
      }
    }
    assert r.entered == r.taken[..|r.entered|];
    forall u: nat | u < |r.threads| ensures Placed(r, u) {
      assert Placed(s, u);
    }
  }

  lemma OthersDiffer(s: State, i: nat, j: nat)
    requires s.released <= i < |s.taken| && s.released <= j < |s.taken| && i != j && Distinct(s.taken[s.released..])
    ensures s.taken[i] != s.taken[j]
  {
    var out := s.taken[s.released..];
    assert out[i - s.released] == s.taken[i] && out[j - s.released] == s.taken[j];
  }

  lemma ReleaseKeeps(s: State, t: nat)
    requires Inv(s) && t < |s.threads| && s.threads[t].Holding?
    ensures Inv(Step(s, t))
  {
    var r := Step(s, t);
    var i := PlaceOf(s, t);
    BumpCounts(s.released);
    assert r.taken[r.released..] == s.taken[s.released..][1..];
    forall j: nat | r.released <= j < |r.taken| ensures InPlace(r, j) {
      assert InPlace(s, j);
      OthersDiffer(s, i, j);
    }
    forall u: nat | u < |r.threads| ensures Placed(r, u) {
      if u != t && !s.threads[u].Idle? {
        var k := PlaceOf(s, u);
        assert r.taken[r.released..][k - r.released] == u;
      }
    }
  }

  lemma StepKeeps(s: State, t: nat)
    requires Inv(s) && t < |s.threads| <= RANGE
    ensures Inv(Step(s, t))
  {
    match s.threads[t]
    case Idle => TakeKeeps(s, t);
    case Waiting(ticket) =>
      if s.serving == ticket {
        EnterKeeps(s, t);
      }
    case Holding => ReleaseKeeps(s, t);
  }

  lemma {:induction false} RunKeeps(s: State, schedule: seq<nat>)
    requires Inv(s) && |s.threads| <= RANGE && Schedules(schedule, |s.threads|)
    ensures Inv(Run(s, schedule))
  {
    hide Inv, Step;
    if schedule != [] {
      var before := schedule[..|schedule| - 1];
      RunKeeps(s, before);
      StepKeeps(Run(s, before), schedule[|schedule| - 1]);
    }
  }

  lemma InvExcludes(s: State)
    requires Inv(s)
    ensures Exclusive(s)
  {
    forall t: nat | t < |s.threads| && s.threads[t].Holding?
      ensures s.released < |s.taken| && t == s.taken[s.released]
    {
      var i := PlaceOf(s, t);
    }
  }

  // ---------------------------------------------------------------------------
  // Main results
  // ---------------------------------------------------------------------------

  /** First come, first served: however the steps interleave, entries are made in ticket order. */
  lemma FirstComeFirstServed(count: nat, schedule: seq<nat>)
    requires count <= RANGE && Schedules(schedule, count)
    ensures var s := Run(Boot(count), schedule); s.entered <= s.taken
  {
    BootInv(count);
    RunKeeps(Boot(count), schedule);
  }

  /** A waiting thread enters at its next step exactly when every earlier ticket has been released,
      and spins without effect otherwise; so a free lock never keeps the first thread out. */
  lemma EntersWhenServed(count: nat, schedule: seq<nat>, i: nat)
    requires count <= RANGE && Schedules(schedule, count)
    requires var s := Run(Boot(count), schedule); |s.entered| <= i < |s.taken|
    ensures var s := Run(Boot(count), schedule);
            && s.taken[i] < count
            && Step(s, s.taken[i]) ==
               if i == s.released
               then s.(threads := s.threads[s.taken[i] := Holding], entered := s.entered + [s.taken[i]]) else s
  {
    BootInv(count);
    RunKeeps(Boot(count), schedule);
    var s := Run(Boot(count), schedule);
    assert InPlace(s, i);
    Outstanding(s);
    if i % RANGE == s.serving {
      SameTicket(s.released, i);
    }
  }

  /** Mutual exclusion holds over every interleaving exactly up to 2^32 threads. */
  lemma ExclusiveIff(count: nat)
    ensures (forall schedule :: Schedules(schedule, count) ==> Exclusive(Run(Boot(count), schedule)))
            <==> count <= 0x1_0000_0000
  {
    if count <= RANGE {
      forall schedule | Schedules(schedule, count) ensures Exclusive(Run(Boot(count), schedule)) {
        BootInv(count);
        RunKeeps(Boot(count), schedule);
        InvExcludes(Run(Boot(count), schedule));
      }
    } else {
      var schedule := TwoHolders(count);
    }
  }

  /** The threads `0..n` in turn. */
  function Queue(n: nat): (r: seq<nat>)
    ensures |r| == n && Schedules(r, n)
  {
    if n == 0 then [] else Queue(n - 1) + [n - 1]
  }

  /** After `n` threads took tickets, each waits with its own number modulo 2^32. */
  predicate Queued(s: State, n: nat) {
    && n <= |s.threads| && s.serving == 0 && s.next == n % RANGE
    && (forall t: nat :: t < n ==> s.threads[t] == Waiting(t % RANGE))
    && (forall t: nat :: n <= t < |s.threads| ==> s.threads[t] == Idle)
  }

  lemma {:induction false} QueueUp(count: nat, n: nat)
    requires n <= count
    ensures Queued(Run(Boot(count), Queue(n)), n)
  {
    if n > 0 {
      QueueUp(count, n - 1);
      BumpCounts(n - 1);
      assert Queue(n)[..n - 1] == Queue(n - 1);
    }
  }

  /** With more threads than tickets the first and the last of 2^32 + 1 waiters hold the lock together. */
  lemma TwoHolders(count: nat) returns (schedule: seq<nat>)
    requires count > RANGE
    ensures Schedules(schedule, count) && !Exclusive(Run(Boot(count), schedule))
  {
    hide Queue;
    QueueUp(count, RANGE + 1);
    var q := Queue(RANGE + 1);
    var one := q + [0];
    schedule := one + [RANGE];
    assert one[..|one| - 1] == q && schedule[..|schedule| - 1] == one;
    var s0 := Run(Boot(count), q);
    var s1, s2 := Step(s0, 0), Step(Step(s0, 0), RANGE);
    assert Run(Boot(count), one) == s1 && Run(Boot(count), schedule) == s2;
    assert s2.threads[0].Holding? && s2.threads[RANGE].Holding?;
  }

  // ---------------------------------------------------------------------------
  // The lock
  // ---------------------------------------------------------------------------

  class SpinLock {
    var nextTicket: nat
    var nowServing: nat
    var threads: seq<Phase>
    ghost var taken: seq<nat>
    ghost var entered: seq<nat>
    ghost var released: nat

    ghost function View(): State
      reads this
    {
      State(nextTicket, nowServing, threads, taken, entered, released)
    }

    constructor (count: nat)
      ensures View() == Boot(count)
    {
      nextTicket, nowServing := 0, 0;
      threads := seq(count, _ => Idle);
      taken, entered, released := [], [], 0;
    }

    /** One atomic step of thread `t`: the first fetch-add, one load of the spin loop, or the drop. */
    method Advance(t: nat)
      requires t < |threads|
      modifies this
      ensures View() == Step(old(View()), t)
    {
      match threads[t]
      case Idle =>
        threads := threads[t := Waiting(nextTicket)];
        nextTicket := Bump(nextTicket);
        taken := taken + [t];
      case Waiting(ticket) =>
        if nowServing == ticket {
          threads := threads[t := Holding];
          entered := entered + [t];
        }
      case Holding =>
        nowServing := Bump(nowServing);
        threads := threads[t := Idle];
        released := released + 1;
    }

    /** Any interleaving, from any state the invariant allows: exclusive and in ticket order at the end. */
    method Interleave(schedule: seq<nat>)
      requires Schedules(schedule, |threads|) && |threads| <= RANGE && Inv(View())
      modifies this
      ensures View() == Run(old(View()), schedule) && Exclusive(View()) && entered <= taken
    {
      hide Inv, Step, Exclusive;
      ghost var start := View();
      for k := 0 to |schedule|
        invariant Schedules(schedule[..k], |start.threads|) && |threads| == |start.threads|
        invariant View() == Run(start, schedule[..k])
      {
        assert schedule[..k + 1][..k] == schedule[..k];
        Advance(schedule[k]);
      }
      assert schedule[..|schedule|] == schedule;
      RunKeeps(start, schedule);
      InvExcludes(View());
      InvOrders(View());
    }
  }

  lemma InvOrders(s: State)
    requires Inv(s)
    ensures s.entered <= s.taken
  {
  }
}
