/** A bounded message queue: highest priority first, oldest first within a priority, with senders and
    receivers that park and are woken one at a time.

    Each stretch runs from entry or wake-up to the next block point with interrupts off.
 */
module MessageQueues {
  import opened Options

  /** `stamp` is the arrival number; the queue itself never looks at it. */
  datatype Message = Message(priority: nat, data: seq<nat>, stamp: nat)

  predicate Before(a: Message, b: Message) {
    a.priority > b.priority || (a.priority == b.priority && a.stamp < b.stamp)
  }

  /** Priority falls; within a priority, arrival numbers rise. */
  ghost predicate Ordered(ms: seq<Message>) {
    forall i, j :: 0 <= i < j < |ms| ==> Before(ms[i], ms[j])
  }

  ghost predicate Stamped(ms: seq<Message>, n: nat) {
    forall i :: 0 <= i < |ms| ==> ms[i].stamp < n
  }

  /** The first position whose message has a lower priority. */
  function Place(ms: seq<Message>, priority: nat): (k: nat)
    ensures k <= |ms| && (k < |ms| ==> ms[k].priority < priority)
    ensures forall i :: 0 <= i < k ==> ms[i].priority >= priority
  {
    if ms == [] || ms[0].priority < priority then 0 else 1 + Place(ms[1..], priority)
  }

  function Insert(ms: seq<Message>, m: Message): seq<Message> {
    var k := Place(ms, m.priority);
    ms[..k] + [m] + ms[k..]
  }

  /** A newcomer goes behind its equals and in front of everything lower. */
  lemma InsertOrdered(ms: seq<Message>, m: Message)
    requires Ordered(ms) && Stamped(ms, m.stamp)
    ensures Ordered(Insert(ms, m))
  {
    hide Insert, Place;
    InsertAt(ms, m);
    var k, r := Place(ms, m.priority), Insert(ms, m);
    forall i, j | 0 <= i < j < |r|
      ensures Before(r[i], r[j])
    {
      if i == k {
        assert r[j] == ms[j - 1] && (k < j - 1 ==> Before(ms[k], ms[j - 1]));
      } else if j == k {
        assert r[i] == ms[i];
      } else {
        var i', j' := if i < k then i else i - 1, if j < k then j else j - 1;
        assert r[i] == ms[i'] && r[j] == ms[j'];
      }
    }
  }

  lemma InsertAt(ms: seq<Message>, m: Message)
    ensures var k, r := Place(ms, m.priority), Insert(ms, m);
            && |r| == |ms| + 1 && r[k] == m && r[..k] == ms[..k] && r[k + 1..] == ms[k..]
            && (forall x :: 0 <= x < k ==> r[x] == ms[x]) && (forall x :: k < x < |r| ==> r[x] == ms[x - 1])
  {
  }

  lemma InsertContents(ms: seq<Message>, m: Message)
    requires Stamped(ms, m.stamp)
    ensures |Insert(ms, m)| == |ms| + 1 && Stamped(Insert(ms, m), m.stamp + 1)
    ensures multiset(Insert(ms, m)) == multiset(ms) + multiset{m}
  {
    var k := Place(ms, m.priority);
    assert ms == ms[..k] + ms[k..];
  }

  // ---------------------------------------------------------------------------
  // Waiters
  // ---------------------------------------------------------------------------

  type Pid = nat

  ghost predicate NoRepeats(pids: seq<Pid>) {
    forall i, j :: 0 <= i < j < |pids| ==> pids[i] != pids[j]
  }

  /** Waiters are distinct and none of them has been woken already; if any waits, the `stock` they wait
      for is spoken for by those woken and yet to run. */
  ghost predicate Fair(waiters: seq<Pid>, woken: set<Pid>, stock: int) {
    NoRepeats(waiters) && (forall p :: p in waiters ==> p !in woken) && (waiters != [] ==> stock <= |woken|)
  }

  lemma FairWake(waiters: seq<Pid>, woken: set<Pid>, stock: int)
    requires Fair(waiters, woken, stock) && waiters != []
    ensures Fair(waiters[1..], woken + {waiters[0]}, stock + 1)
  {
    assert waiters[0] in waiters;
    assert |woken + {waiters[0]}| == |woken| + 1;
  }

  lemma FairPark(waiters: seq<Pid>, woken: set<Pid>, pid: Pid, stock: int)
    requires Fair(waiters, woken, stock) && pid !in waiters && stock <= 0
    ensures Fair(waiters + [pid], woken - {pid}, stock)
  {
  }

  /** A process that runs is no longer a woken one; it uses up one unit of the stock. */
  lemma FairRun(waiters: seq<Pid>, woken: set<Pid>, pid: Pid, stock: int)
    requires Fair(waiters, woken, stock)
    ensures Fair(waiters, woken - {pid}, stock - 1)
  {
    assert |woken - {pid}| >= |woken| - 1 by {
      if pid in woken { assert woken == (woken - {pid}) + {pid}; } else { assert woken - {pid} == woken; }
    }
  }

  function First(waiters: seq<Pid>): set<Pid> {
    if waiters == [] then {} else {waiters[0]}
  }

  function Rest(waiters: seq<Pid>): seq<Pid> {
    if waiters == [] then [] else waiters[1..]
  }

  /** With one more unit in stock the first waiter, if any, is woken for it. */
  lemma FairHandOver(waiters: seq<Pid>, woken: set<Pid>, stock: int)
    requires Fair(waiters, woken, stock)
    ensures Fair(Rest(waiters), woken + First(waiters), stock + 1)
  {
    if waiters != [] { FairWake(waiters, woken, stock); }
  }

  // ---------------------------------------------------------------------------
  // The queue as a value
  // ---------------------------------------------------------------------------

  /** The waiters of both kinds, those unblocked but yet to run, the blocked processes as the scheduler sees
      them, and what was sent and received so far. */
  datatype Queue = Queue(
    max: nat, messages: seq<Message>, receiveWaiters: seq<Pid>, sendWaiters: seq<Pid>,
    wokenReceivers: set<Pid>, wokenSenders: set<Pid>, blocked: set<Pid>, sent: seq<Message>, received: seq<Message>)

  function Empty(max: nat): Queue {
    Queue(max, [], [], [], {}, {}, {}, [], [])
  }

  /** `mq_send`: park when full, else enqueue and wake one receiver. */
  function Send(q: Queue, pid: Pid, priority: nat, data: seq<nat>): Queue {
    if |q.messages| >= q.max
    then q.(sendWaiters := q.sendWaiters + [pid], wokenSenders := q.wokenSenders - {pid}, blocked := q.blocked + {pid})
    else
      var m := Message(priority, data, |q.sent|);
      q.(messages := Insert(q.messages, m), sent := q.sent + [m], wokenSenders := q.wokenSenders - {pid},
         wokenReceivers := q.wokenReceivers + First(q.receiveWaiters), receiveWaiters := Rest(q.receiveWaiters),
         blocked := q.blocked - First(q.receiveWaiters))
  }

  /** The message is taken and put back. */
  function PutBack(ms: seq<Message>): seq<Message>
    requires ms != []
  {
    Insert(ms[1..], ms[0])
  }

  /** `mq_receive` into a buffer of `room` bytes: park when empty, put the first message back when it does
      not fit, else take it and wake one sender. */
  function Receive(q: Queue, pid: Pid, room: nat): Queue {
    if q.messages == []
    then q.(receiveWaiters := q.receiveWaiters + [pid], wokenReceivers := q.wokenReceivers - {pid},
            blocked := q.blocked + {pid})
    else if room < |q.messages[0].data|
    then q.(messages := PutBack(q.messages), wokenReceivers := q.wokenReceivers - {pid})
    else
      q.(messages := q.messages[1..], received := q.received + [q.messages[0]],
         wokenReceivers := q.wokenReceivers - {pid},
         wokenSenders := q.wokenSenders + First(q.sendWaiters), sendWaiters := Rest(q.sendWaiters),
         blocked := q.blocked - First(q.sendWaiters))
  }

  /** A signal unblocks a process; the queue does not hear of it. */
  function Signal(q: Queue, pid: Pid): Queue {
    q.(blocked := q.blocked - {pid})
  }

  datatype Event =
    | Sends(pid: Pid, priority: nat, data: seq<nat>)
    | Receives(pid: Pid, room: nat)
    | Signals(pid: Pid)

  /** A blocked process makes no call. */
  function Next(q: Queue, e: Event): Queue {
    match e
    case Sends(pid, priority, data) => if pid in q.blocked then q else Send(q, pid, priority, data)
    case Receives(pid, room) => if pid in q.blocked then q else Receive(q, pid, room)
    case Signals(pid) => Signal(q, pid)
  }

  /** Listed processes are blocked, and listed once. */
  ghost predicate Parked(q: Queue) {
    && (forall p :: p in q.receiveWaiters ==> p in q.blocked && p !in q.sendWaiters)
    && (forall p :: p in q.sendWaiters ==> p in q.blocked)
  }

  /** Never over-full, always in order, and no wake-up lost on either side. */
  ghost predicate Sound(q: Queue) {
    && |q.messages| <= q.max && Ordered(q.messages) && Stamped(q.messages, |q.sent|) && Parked(q)
    && Fair(q.receiveWaiters, q.wokenReceivers, |q.messages|)
    && Fair(q.sendWaiters, q.wokenSenders, q.max - |q.messages|)
  }

  /** Messages of one priority were received in the order they were sent. */
  ghost predicate InTurn(received: seq<Message>) {
    forall i, j :: 0 <= i < j < |received| && received[i].priority == received[j].priority ==>
      received[i].stamp < received[j].stamp
  }

  /** What was received came before what is still queued at the same priority. */
  ghost predicate Overtaken(received: seq<Message>, messages: seq<Message>) {
    forall i, j :: 0 <= i < |received| && 0 <= j < |messages| && received[i].priority == messages[j].priority ==>
      received[i].stamp < messages[j].stamp
  }

  /** Every message sent was received once or is still queued, and stamps number the messages sent. */
  ghost predicate Accounts(q: Queue) {
    && multiset(q.received) + multiset(q.messages) == multiset(q.sent)
    && (forall i :: 0 <= i < |q.sent| ==> q.sent[i].stamp == i)
    && Stamped(q.received, |q.sent|) && InTurn(q.received) && Overtaken(q.received, q.messages)
  }

  lemma SendSound(q: Queue, pid: Pid, priority: nat, data: seq<nat>)
    requires Sound(q) && pid !in q.blocked
    ensures Sound(Send(q, pid, priority, data))
  {
    hide Insert, Ordered, Fair, Stamped, First, Rest, Parked;
    SendParked(q, pid, priority, data);
    if |q.messages| >= q.max {
      FairPark(q.sendWaiters, q.wokenSenders, pid, q.max - |q.messages|);
    } else {
      var m := Message(priority, data, |q.sent|);
      InsertOrdered(q.messages, m);
      InsertContents(q.messages, m);
      FairRun(q.sendWaiters, q.wokenSenders, pid, q.max - |q.messages|);
      FairHandOver(q.receiveWaiters, q.wokenReceivers, |q.messages|);
    }
  }

  lemma SendParked(q: Queue, pid: Pid, priority: nat, data: seq<nat>)
    requires Parked(q) && Fair(q.receiveWaiters, q.wokenReceivers, |q.messages|) && pid !in q.blocked
    ensures Parked(Send(q, pid, priority, data)) && pid !in q.sendWaiters
  {
    assert forall p :: p in Rest(q.receiveWaiters) ==> p in q.receiveWaiters && p !in First(q.receiveWaiters);
  }

  /** A receive that fits, or finds the queue empty. */
  lemma ReceiveSound(q: Queue, pid: Pid, room: nat)
    requires Sound(q) && pid !in q.blocked && (q.messages == [] || room >= |q.messages[0].data|)
    ensures Sound(Receive(q, pid, room))
    ensures q.messages != [] ==> forall i :: 0 < i < |q.messages| ==> Before(q.messages[0], q.messages[i])
  {
    hide Fair, Stamped, First, Rest, Parked;
    ReceiveParked(q, pid, room);
    if q.messages == [] {
      FairPark(q.receiveWaiters, q.wokenReceivers, pid, 0);
    } else {
      FrontIsBest(q.messages, |q.sent|);
      FairRun(q.receiveWaiters, q.wokenReceivers, pid, |q.messages|);
      FairHandOver(q.sendWaiters, q.wokenSenders, q.max - |q.messages|);
    }
  }

  lemma ReceiveParked(q: Queue, pid: Pid, room: nat)
    requires Parked(q) && Fair(q.sendWaiters, q.wokenSenders, q.max - |q.messages|) && pid !in q.blocked
    ensures Parked(Receive(q, pid, room)) && pid !in q.receiveWaiters
  {
    assert forall p :: p in Rest(q.sendWaiters) ==> p in q.sendWaiters && p !in First(q.sendWaiters);
  }

  lemma SendAccounts(q: Queue, pid: Pid, priority: nat, data: seq<nat>)
    requires Sound(q) && Accounts(q)
    ensures Accounts(Send(q, pid, priority, data))
  {
    hide Insert, Ordered, Fair, First, Rest, InTurn, Parked;
    if |q.messages| < q.max {
      var m, r := Message(priority, data, |q.sent|), Send(q, pid, priority, data);
      InsertContents(q.messages, m);
      InsertAt(q.messages, m);
      Logged(q.sent, m);
      forall i, j | 0 <= i < |r.received| && 0 <= j < |r.messages| && r.received[i].priority == r.messages[j].priority
        ensures r.received[i].stamp < r.messages[j].stamp
      {
        var k := Place(q.messages, priority);
        assert r.messages[j] == if j < k then q.messages[j] else if j == k then m else q.messages[j - 1];
      }
    }
  }

  lemma ReceiveAccounts(q: Queue, pid: Pid, room: nat)
    requires Sound(q) && Accounts(q) && (q.messages == [] || room >= |q.messages[0].data|)
    ensures Accounts(Receive(q, pid, room))
  {
    hide Fair, First, Rest, Parked;
    if q.messages != [] {
      FrontIsBest(q.messages, |q.sent|);
      Logged(q.received, q.messages[0]);
    }
  }

  // ---------------------------------------------------------------------------
  // A receive whose buffer is too small, and a signal
  // ---------------------------------------------------------------------------

  /** Putting back keeps the order exactly when no other message shares the top priority. */
  lemma PutBackOrder(ms: seq<Message>)
    requires Ordered(ms) && ms != []
    ensures PutBack(ms) == ms <==> |ms| == 1 || ms[1].priority < ms[0].priority
    ensures Ordered(PutBack(ms)) <==> |ms| == 1 || ms[1].priority < ms[0].priority
  {
    var k := Place(ms[1..], ms[0].priority);
    var r := PutBack(ms);
    assert ms == [ms[0]] + ms[1..];
    if k == 0 {
      assert r == ms;
    } else {
      assert r[0] == ms[1] && r[k] == ms[0] && Before(ms[0], ms[1]);
    }
  }

  /** It also uses up a wake-up without using up a message, which loses one exactly when others wait and
      every message was spoken for. */
  lemma PutBackWake(waiters: seq<Pid>, woken: set<Pid>, pid: Pid, stock: int)
    requires Fair(waiters, woken, stock)
    ensures Fair(waiters, woken - {pid}, stock) <==> pid !in woken || waiters == [] || stock < |woken|
  {
    if pid in woken {
      assert woken == (woken - {pid}) + {pid};
    } else {
      assert woken - {pid} == woken;
    }
  }

  /** The message at the front is followed by one of the same priority. */
  predicate Rivalled(ms: seq<Message>) {
    |ms| > 1 && ms[1].priority == ms[0].priority
  }

  /** A wake-up given to `pid` for a message is needed: others wait and no message is to spare. */
  predicate Needed(q: Queue, pid: Pid) {
    pid in q.wokenReceivers && q.receiveWaiters != [] && |q.messages| >= |q.wokenReceivers|
  }

  /** The calls and signals that break the queue, told from its state before. */
  predicate Upsets(q: Queue, e: Event) {
    match e
    case Sends(_, _, _) => false
    case Receives(pid, room) =>
      && pid !in q.blocked && q.messages != [] && room < |q.messages[0].data|
      && (Rivalled(q.messages) || Needed(q, pid))
    case Signals(pid) => pid in q.receiveWaiters || pid in q.sendWaiters
  }

  /** A receive that does not fit leaves the queue sound exactly when the front message has no rival and the
      wake-up it uses up is not needed; it then changes nothing else. */
  lemma ShortReceive(q: Queue, pid: Pid, room: nat)
    requires Sound(q) && pid !in q.blocked && q.messages != [] && room < |q.messages[0].data|
    ensures Sound(Receive(q, pid, room)) <==> !Rivalled(q.messages) && !Needed(q, pid)
    ensures !Rivalled(q.messages) ==> Receive(q, pid, room) == q.(wokenReceivers := q.wokenReceivers - {pid})
  {
    hide Insert, Fair, Parked, PutBack;
    PutBackOrder(q.messages);
    PutBackWake(q.receiveWaiters, q.wokenReceivers, pid, |q.messages|);
    FrontIsBest(q.messages, |q.sent|);
    PutBackLength(q.messages);
    assert Rivalled(q.messages) <==> !(|q.messages| == 1 || q.messages[1].priority < q.messages[0].priority) by {
      if |q.messages| > 1 { assert Before(q.messages[0], q.messages[1]); }
    }
    ParkedStill(q, Receive(q, pid, room));
  }

  lemma ParkedStill(q: Queue, q': Queue)
    requires Parked(q) && q'.receiveWaiters == q.receiveWaiters && q'.sendWaiters == q.sendWaiters
    requires q'.blocked == q.blocked
    ensures Parked(q')
  {
  }

  lemma PutBackLength(ms: seq<Message>)
    requires ms != []
    ensures |PutBack(ms)| == |ms|
  {
  }

  lemma SignalSound(q: Queue, pid: Pid)
    requires Sound(q)
    ensures Sound(Signal(q, pid)) <==> pid !in q.receiveWaiters && pid !in q.sendWaiters
  {
  }

  function After(q: Queue, events: seq<Event>): Queue {
    if events == [] then q else Next(After(q, events[..|events| - 1]), events[|events| - 1])
  }

  /** One step, exactly. */
  lemma NextKeeps(q: Queue, e: Event)
    requires Sound(q) && Accounts(q)
    ensures Sound(Next(q, e)) <==> !Upsets(q, e)
    ensures !Upsets(q, e) ==> Accounts(Next(q, e))
  {
    hide Sound, Send, Receive, Rivalled, Needed;
    match e
    case Sends(pid, priority, data) =>
      if pid !in q.blocked {
        SendSound(q, pid, priority, data);
        SendAccounts(q, pid, priority, data);
      }
    case Receives(pid, room) =>
      if pid !in q.blocked {
        if q.messages == [] || room >= |q.messages[0].data| {
          ReceiveSound(q, pid, room);
          ReceiveAccounts(q, pid, room);
        } else {
          ShortReceive(q, pid, room);
        }
      }
    case Signals(pid) => SignalSound(q, pid);
  }

  /** Over every run of any number of processes in which nothing upsets the queue. */
  lemma {:induction false} RunKeeps(q: Queue, events: seq<Event>)
    requires Sound(q) && Accounts(q)
    requires forall k :: 0 <= k < |events| ==> !Upsets(After(q, events[..k]), events[k])
    ensures Sound(After(q, events)) && Accounts(After(q, events))
  {
    hide Sound, Accounts, Next, Upsets;
    if events != [] {
      var n := |events| - 1;
      forall k | 0 <= k < n
        ensures !Upsets(After(q, events[..n][..k]), events[..n][k])
      {
        assert events[..n][..k] == events[..k];
      }
      RunKeeps(q, events[..n]);
      NextKeeps(After(q, events[..n]), events[n]);
    }
  }

  lemma EmptyKeeps(max: nat)
    ensures Sound(Empty(max)) && Accounts(Empty(max))
  {
  }

  /** `pid` is among the first `i + 1` of the waiters. */
  ghost predicate Within(waiters: seq<Pid>, i: nat, pid: Pid) {
    exists j: nat :: j <= i && j < |waiters| && waiters[j] == pid
  }

  lemma RestAdvances(waiters: seq<Pid>, i: nat)
    requires i < |waiters|
    ensures if i == 0 then First(waiters) == {waiters[0]} else Within(Rest(waiters), i - 1, waiters[i])
  {
    if 0 < i { assert Rest(waiters)[i - 1] == waiters[i]; }
  }

  lemma MoreWithin(waiters: seq<Pid>, more: seq<Pid>, i: nat)
    requires i < |waiters|
    ensures Within(waiters + more, i, waiters[i])
  {
    assert (waiters + more)[i] == waiters[i];
  }

  /** Whoever waits longest is woken first: an event that makes room or brings a message wakes the first waiter and
      moves every other one up, and no event moves anyone back. */
  lemma WaitersAdvance(q: Queue, e: Event, i: nat)
    ensures i < |q.receiveWaiters| ==>
              var x, brings := q.receiveWaiters[i], e.Sends? && e.pid !in q.blocked && |q.messages| < q.max;
              if brings && i == 0 then x in Next(q, e).wokenReceivers && x !in Next(q, e).blocked
              else Within(Next(q, e).receiveWaiters, if brings then i - 1 else i, x)
    ensures i < |q.sendWaiters| ==>
              var x, frees := q.sendWaiters[i], e.Receives? && e.pid !in q.blocked && q.messages != [] &&
                                                |q.messages[0].data| <= e.room;
              if frees && i == 0 then x in Next(q, e).wokenSenders && x !in Next(q, e).blocked
              else Within(Next(q, e).sendWaiters, if frees then i - 1 else i, x)
  {
    hide Insert, PutBack, Within, First, Rest;
    if i < |q.receiveWaiters| {
      RestAdvances(q.receiveWaiters, i);
      MoreWithin(q.receiveWaiters, [], i);
      if !e.Signals? { MoreWithin(q.receiveWaiters, [e.pid], i); }
      assert q.receiveWaiters + [] == q.receiveWaiters;
    }
    if i < |q.sendWaiters| {
      RestAdvances(q.sendWaiters, i);
      MoreWithin(q.sendWaiters, [], i);
      if !e.Signals? { MoreWithin(q.sendWaiters, [e.pid], i); }
      assert q.sendWaiters + [] == q.sendWaiters;
    }
  }

  /** Priority and data of the sends that found room, in order. */
  ghost function Offered(q: Queue, events: seq<Event>): seq<(nat, seq<nat>)> {
    if events == [] then []
    else
      var n := |events| - 1;
      var before, e := After(q, events[..n]), events[n];
      Offered(q, events[..n]) +
      if e.Sends? && e.pid !in before.blocked && |before.messages| < q.max then [(e.priority, e.data)] else []
  }

  /** What counts as sent is what the senders offered, each message as it was given. */
  lemma {:induction false} SentAsOffered(q: Queue, events: seq<Event>)
    requires q.sent == []
    ensures After(q, events).max == q.max && |After(q, events).sent| == |Offered(q, events)|
    ensures forall k :: 0 <= k < |Offered(q, events)| ==>
              After(q, events).sent[k] == Message(Offered(q, events)[k].0, Offered(q, events)[k].1, k)
    decreases |events|
  {
    hide Insert, PutBack, First, Rest;
    if events != [] { SentAsOffered(q, events[..|events| - 1]); }
  }

  // ---------------------------------------------------------------------------
  // Runs that go wrong
  // ---------------------------------------------------------------------------

  lemma AfterOne(q: Queue, events: seq<Event>, e: Event)
    ensures After(q, events + [e]) == Next(After(q, events), e)
  {
    assert (events + [e])[..|events|] == events;
  }

  lemma AfterTwo(q: Queue, e0: Event, e1: Event)
    ensures After(q, [e0, e1]) == Next(Next(q, e0), e1)
  {
    hide Next;
    AfterOne(q, [], e0);
    AfterOne(q, [e0], e1);
    assert [] + [e0] == [e0] && [e0] + [e1] == [e0, e1];
  }

  lemma AfterFour(q: Queue, e0: Event, e1: Event, e2: Event, e3: Event)
    ensures After(q, [e0, e1, e2]) == Next(Next(Next(q, e0), e1), e2)
    ensures After(q, [e0, e1, e2, e3]) == Next(Next(Next(Next(q, e0), e1), e2), e3)
  {
    hide Next;
    AfterTwo(q, e0, e1);
    AfterOne(q, [e0, e1], e2);
    AfterOne(q, [e0, e1, e2], e3);
    assert [e0, e1] + [e2] == [e0, e1, e2] && [e0, e1, e2] + [e3] == [e0, e1, e2, e3];
  }

  /** One message, receiver 1 woken for it, receiver 2 waiting. */
  function OneWoken(m: Message): Queue {
    Queue(1, [m], [2], [], {1}, {}, {2}, [m], [])
  }

  lemma BothPark(priority: nat, x: nat)
    ensures Next(Next(Next(Empty(1), Receives(1, 0)), Receives(2, 0)), Sends(3, priority, [x])) ==
            OneWoken(Message(priority, [x], 0))
  {
    var q1 := Empty(1).(receiveWaiters := [1], blocked := {1});
    var q2 := Empty(1).(receiveWaiters := [1, 2], blocked := {1, 2});
    assert Next(Empty(1), Receives(1, 0)) == q1;
    assert Next(q1, Receives(2, 0)) == q2;
    assert Insert([], Message(priority, [x], 0)) == [Message(priority, [x], 0)];
    assert {1, 2} - {1} == {2};
  }

  lemma OneWokenSound(priority: nat, x: nat)
    ensures Sound(OneWoken(Message(priority, [x], 0)))
  {
  }

  /** Receivers 1 and 2 park, 3 sends, and 1 comes back with too small a buffer: 2 sleeps next to a message
      and nobody is woken for it. */
  lemma LostWakeUp(priority: nat, x: nat)
    ensures Sound(After(Empty(1), [Receives(1, 0), Receives(2, 0), Sends(3, priority, [x])]))
    ensures var q := After(Empty(1), [Receives(1, 0), Receives(2, 0), Sends(3, priority, [x]), Receives(1, 0)]);
            !Sound(q) && q.receiveWaiters == [2] && 2 in q.blocked && q.wokenReceivers == {} && |q.messages| == 1
  {
    hide Sound, Next, Send, Empty;
    AfterFour(Empty(1), Receives(1, 0), Receives(2, 0), Sends(3, priority, [x]), Receives(1, 0));
    BothPark(priority, x);
    OneWokenSound(priority, x);
    ShortReceive(OneWoken(Message(priority, [x], 0)), 1, 0);
    OneFails(priority, x);
  }

  lemma OneFails(priority: nat, x: nat)
    ensures var q := OneWoken(Message(priority, [x], 0));
            && Next(q, Receives(1, 0)) == Receive(q, 1, 0) && Needed(q, 1) && !Rivalled(q.messages)
            && (q.wokenReceivers - {1} == {})
  {
    assert |{1}| == 1;
  }

  /** Two messages of one priority, and a receive that does not fit: the younger overtakes the older. */
  lemma Overtakes(priority: nat, x: nat, y: nat)
    ensures var q := After(Empty(2), [Sends(1, priority, [x]), Sends(1, priority, [y]), Receives(2, 0)]);
            q.messages == [Message(priority, [y], 1), Message(priority, [x], 0)] && !Sound(q)
  {
    hide Sound, Empty;
    var a, b := Message(priority, [x], 0), Message(priority, [y], 1);
    AfterFour(Empty(2), Sends(1, priority, [x]), Sends(1, priority, [y]), Receives(2, 0), Receives(2, 0));
    TwoSent(priority, x, y);
    var q := Empty(2).(messages := [a, b], sent := [a, b]);
    NothingSpecial(2);
    SwapTwo(a, b);
    NotInOrder(Receive(q, 2, 0), b, a);
  }

  lemma NothingSpecial(max: nat)
    ensures Empty(max).blocked == {}
  {
  }

  lemma TwoSent(priority: nat, x: nat, y: nat)
    ensures var a, b := Message(priority, [x], 0), Message(priority, [y], 1);
            Next(Next(Empty(2), Sends(1, priority, [x])), Sends(1, priority, [y])) ==
            Empty(2).(messages := [a, b], sent := [a, b])
  {
    var a, b := Message(priority, [x], 0), Message(priority, [y], 1);
    assert Insert([], a) == [a];
    assert Next(Empty(2), Sends(1, priority, [x])) == Empty(2).(messages := [a], sent := [a]);
    assert Place([a], priority) == 1 && Insert([a], b) == [a, b];
  }

  lemma SwapTwo(a: Message, b: Message)
    requires a.priority == b.priority
    ensures PutBack([a, b]) == [b, a]
  {
    assert [a, b][1..] == [b] && Place([b], a.priority) == 1;
  }

  lemma NotInOrder(q: Queue, b: Message, a: Message)
    requires q.messages == [b, a] && !Before(b, a)
    ensures !Sound(q)
  {
    assert !Before(q.messages[0], q.messages[1]);
  }

  /** A receiver that a signal takes off its sleep stays listed: the next message is handed to nobody. */
  lemma StaleWaiter()
    ensures var q := After(Empty(1), [Receives(1, 0), Signals(1)]);
            !Sound(q) && q.receiveWaiters == [1] && 1 !in q.blocked
  {
    AfterTwo(Empty(1), Receives(1, 0), Signals(1));
    assert Next(Empty(1), Receives(1, 0)) == Empty(1).(receiveWaiters := [1], blocked := {1});
    assert 1 in [1];
  }

  // ---------------------------------------------------------------------------
  // The queue in place
  // ---------------------------------------------------------------------------

  class MessageQueue {
    const max: nat
    var messages: seq<Message>
    var receiveWaiters: seq<Pid>
    var sendWaiters: seq<Pid>
    var arrivals: nat
    /** Scheduler state: unblocked but not yet run. */
    var wokenReceivers: set<Pid>
    var wokenSenders: set<Pid>
    /** Scheduler state: blocked. */
    var blocked: set<Pid>
    ghost var sent: seq<Message>
    ghost var received: seq<Message>

    ghost function View(): Queue
      reads this
    {
      Queue(max, messages, receiveWaiters, sendWaiters, wokenReceivers, wokenSenders, blocked, sent, received)
    }

    ghost predicate Valid()
      reads this
    {
      Sound(View()) && Accounts(View()) && arrivals == |sent|
    }

    constructor (max: nat)
      ensures Valid() && View() == Empty(max)
    {
      this.max := max;
      messages, receiveWaiters, sendWaiters, wokenReceivers, wokenSenders, arrivals := [], [], [], {}, {}, 0;
      blocked := {};
      sent, received := [], [];
    }

    /** Insertion point by a scan from the front. */
    method Enqueue(m: Message)
      modifies this`messages
      ensures messages == Insert(old(messages), m)
    {
      var k := 0;
      while k < |messages| && !(messages[k].priority < m.priority)
        invariant k <= |messages| && messages == old(messages)
        invariant Place(messages, m.priority) == k + Place(messages[k..], m.priority)
      {
        assert messages[k..][1..] == messages[k + 1..];
        k := k + 1;
      }
      messages := messages[..k] + [m] + messages[k..];
    }

    /** `mq_send` by a running process, up to its end or its block point. */
    method SendStretch(pid: Pid, priority: nat, data: seq<nat>) returns (ok: bool)
      requires Valid() && pid !in blocked
      modifies this
      ensures Valid() && View() == Send(old(View()), pid, priority, data)
      ensures ok <==> |old(messages)| < max
    {
      hide Insert, Sound, Accounts;
      SendSound(View(), pid, priority, data);
      SendAccounts(View(), pid, priority, data);
      if |messages| >= max {
        sendWaiters, wokenSenders, blocked := sendWaiters + [pid], wokenSenders - {pid}, blocked + {pid};
        return false;
      }
      var m := Message(priority, data, arrivals);
      Enqueue(m);
      arrivals, sent := arrivals + 1, sent + [m];
      wokenSenders := wokenSenders - {pid};
      if receiveWaiters != [] {
        wokenReceivers, blocked := wokenReceivers + {receiveWaiters[0]}, blocked - {receiveWaiters[0]};
        receiveWaiters := receiveWaiters[1..];
      }
      assert wokenReceivers == old(wokenReceivers) + First(old(receiveWaiters));
      assert blocked == old(blocked) - First(old(receiveWaiters));
      assert View() == Send(old(View()), pid, priority, data);
      return true;
    }

    /** `mq_receive` by a running process into a buffer of `room` bytes, up to its end or its block point.
        None: it parks, or the message did not fit and went back. */
    method ReceiveStretch(pid: Pid, room: nat) returns (r: Option<Message>)
      requires Valid() && pid !in blocked
      modifies this
      ensures View() == Receive(old(View()), pid, room)
      ensures Valid() <==> !Upsets(old(View()), Receives(pid, room))
      ensures r == if old(messages) == [] || room < |old(messages)[0].data| then None else Some(old(messages)[0])
    {
      hide Sound, Accounts, Insert, Upsets;
      ghost var q := View();
      NextKeeps(q, Receives(pid, room));
      if messages == [] {
        receiveWaiters, wokenReceivers, blocked := receiveWaiters + [pid], wokenReceivers - {pid}, blocked + {pid};
        return None;
      }
      var m := messages[0];
      messages := messages[1..];
      if room < |m.data| {
        Enqueue(m);
        wokenReceivers := wokenReceivers - {pid};
        assert View() == Receive(q, pid, room);
        return None;
      }
      received := received + [m];
      wokenReceivers := wokenReceivers - {pid};
      if sendWaiters != [] {
        wokenSenders, blocked := wokenSenders + {sendWaiters[0]}, blocked - {sendWaiters[0]};
        sendWaiters := sendWaiters[1..];
      }
      assert wokenSenders == old(wokenSenders) + First(old(sendWaiters));
      assert blocked == old(blocked) - First(old(sendWaiters));
      assert View() == Receive(q, pid, room);
      return Some(m);
    }

    /** Any run of sends, receives and signals that does not upset the queue. */
    method Run(events: seq<Event>)
      requires Valid() && forall k :: 0 <= k < |events| ==> !Upsets(After(View(), events[..k]), events[k])
      modifies this
      ensures Valid() && View() == After(old(View()), events)
    {
      hide Sound, Accounts, Send, Receive, Upsets;
      for k := 0 to |events|
        invariant Valid() && View() == After(old(View()), events[..k])
      {
        assert events[..k + 1][..k] == events[..k];
        NextKeeps(View(), events[k]);
        match events[k]
        case Sends(pid, priority, data) =>
          if pid !in blocked {
            var ok := SendStretch(pid, priority, data);
          }
        case Receives(pid, room) =>
          if pid !in blocked {
            var r := ReceiveStretch(pid, room);
          }
        case Signals(pid) =>
          blocked := blocked - {pid};
      }
      assert events[..|events|] == events;
    }
  }

  lemma FrontIsBest(ms: seq<Message>, n: nat)
    requires Ordered(ms) && ms != [] && Stamped(ms, n)
    ensures Ordered(ms[1..]) && multiset(ms) == multiset{ms[0]} + multiset(ms[1..])
    ensures forall i :: 0 <= i < |ms| - 1 ==> Before(ms[0], ms[1..][i])
    ensures Stamped(ms[1..], n)
  {
    assert ms == [ms[0]] + ms[1..];
  }

  lemma Logged(log: seq<Message>, m: Message)
    ensures multiset(log + [m]) == multiset(log) + multiset{m}
  {
  }
}
