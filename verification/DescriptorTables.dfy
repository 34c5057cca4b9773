/** Descriptor tables and the reference counts of the pipes they name.

    Over any number of tables, each pipe's two counts are the live handles of its two ends, and its
    buffer is freed exactly when the last handle of either end goes.
 */
module DescriptorTables {
  import opened Options

  const MAX_OPEN: nat := 1024

  datatype End = ReadEnd | WriteEnd

  datatype Handle = Handle(pipe: nat, end: End)

  /** Descriptors other than pipes carry no count. */
  datatype Descriptor = Pipe(handle: Handle) | Other(kind: nat)

  type Table = seq<Option<Descriptor>>

  datatype Ends = Ends(read: nat, write: nat)

  function EndCount(e: Ends, end: End): nat {
    match end case ReadEnd => e.read case WriteEnd => e.write
  }

  function WithEnd(e: Ends, end: End, n: nat): Ends {
    match end case ReadEnd => e.(read := n) case WriteEnd => e.(write := n)
  }

  // ---------------------------------------------------------------------------
  // Counting handles
  // ---------------------------------------------------------------------------

  function One(d: Option<Descriptor>, h: Handle): nat {
    if d == Some(Pipe(h)) then 1 else 0
  }

  function InTable(t: Table, h: Handle): nat {
    if t == [] then 0 else InTable(t[..|t| - 1], h) + One(t[|t| - 1], h)
  }

  function InTables(ts: seq<Table>, h: Handle): nat {
    if ts == [] then 0 else InTables(ts[..|ts| - 1], h) + InTable(ts[|ts| - 1], h)
  }

  lemma {:induction false} InTableUpdate(t: Table, fd: nat, d: Option<Descriptor>, h: Handle)
    requires fd < |t|
    ensures InTable(t[fd := d], h) + One(t[fd], h) == InTable(t, h) + One(d, h)
    decreases |t|
  {
    var n := |t| - 1;
    if fd == n {
      assert t[fd := d][..n] == t[..n];
    } else {
      InTableUpdate(t[..n], fd, d, h);
      assert t[fd := d][..n] == t[..n][fd := d];
    }
  }

  lemma InTableSnoc(t: Table, d: Option<Descriptor>, h: Handle)
    ensures InTable(t + [d], h) == InTable(t, h) + One(d, h)
  {
    assert (t + [d])[..|t|] == t;
  }

  lemma {:induction false} InTablesUpdate(ts: seq<Table>, i: nat, t: Table, h: Handle)
    requires i < |ts|
    ensures InTables(ts[i := t], h) + InTable(ts[i], h) == InTables(ts, h) + InTable(t, h)
    decreases |ts|
  {
    var n := |ts| - 1;
    if i == n {
      assert ts[i := t][..n] == ts[..n];
    } else {
      InTablesUpdate(ts[..n], i, t, h);
      assert ts[i := t][..n] == ts[..n][i := t];
    }
  }

  lemma InTablesSnoc(ts: seq<Table>, t: Table, h: Handle)
    ensures InTables(ts + [t], h) == InTables(ts, h) + InTable(t, h)
  {
    assert (ts + [t])[..|ts|] == ts;
  }

  lemma {:induction false} Held(t: Table, fd: nat, h: Handle)
    requires fd < |t| && t[fd] == Some(Pipe(h))
    ensures 1 <= InTable(t, h)
    decreases |t|
  {
    if fd < |t| - 1 { Held(t[..|t| - 1], fd, h); }
  }

  lemma {:induction false} HeldSome(ts: seq<Table>, i: nat, fd: nat, h: Handle)
    requires i < |ts| && fd < |ts[i]| && ts[i][fd] == Some(Pipe(h))
    ensures 1 <= InTables(ts, h)
    decreases |ts|
  {
    if i == |ts| - 1 { Held(ts[i], fd, h); } else { HeldSome(ts[..|ts| - 1], i, fd, h); }
  }

  // ---------------------------------------------------------------------------
  // The system
  // ---------------------------------------------------------------------------

  /** Handles of kind `h`: in the tables, plus those a call has in its hands. */
  ghost function Live(ts: seq<Table>, inHand: multiset<Handle>, h: Handle): nat {
    InTables(ts, h) + inHand[h]
  }

  /** Live pipes have exact, not both zero, counts; other pipes have no handle. */
  ghost predicate Exact(ts: seq<Table>, pipes: map<nat, Ends>, inHand: multiset<Handle>) {
    && (forall p, e :: p in pipes ==> EndCount(pipes[p], e) == Live(ts, inHand, Handle(p, e)))
    && (forall p :: p in pipes ==> 0 < pipes[p].read + pipes[p].write)
    && (forall p, e :: p !in pipes ==> Live(ts, inHand, Handle(p, e)) == 0)
  }

  function HandOf(d: Option<Descriptor>): multiset<Handle> {
    if d.Some? && d.value.Pipe? then multiset{d.value.handle} else multiset{}
  }

  lemma HandCounts(d: Option<Descriptor>, h: Handle)
    ensures HandOf(d)[h] == One(d, h)
  {
  }

  /** Exactness depends only on how many handles are live. */
  lemma ExactMoves(ts: seq<Table>, pipes: map<nat, Ends>, inHand: multiset<Handle>, ts': seq<Table>,
                   inHand': multiset<Handle>)
    requires Exact(ts, pipes, inHand) && forall h :: Live(ts', inHand', h) == Live(ts, inHand, h)
    ensures Exact(ts', pipes, inHand')
  {
    hide Live;
  }

  /** A descriptor in hand and the contents of a slot change places. */
  lemma Exchanged(ts: seq<Table>, pipes: map<nat, Ends>, inHand: multiset<Handle>, i: nat, fd: nat,
                  d: Option<Descriptor>)
    requires i < |ts| && fd < |ts[i]| && Exact(ts, pipes, inHand + HandOf(d))
    ensures Exact(ts[i := ts[i][fd := d]], pipes, inHand + HandOf(ts[i][fd]))
  {
    var t := ts[i][fd := d];
    forall h
      ensures Live(ts[i := t], inHand + HandOf(ts[i][fd]), h) == Live(ts, inHand + HandOf(d), h)
    {
      InTableUpdate(ts[i], fd, d, h);
      InTablesUpdate(ts, i, t, h);
      HandCounts(d, h);
      HandCounts(ts[i][fd], h);
    }
    hide Exact;
    ExactMoves(ts, pipes, inHand + HandOf(d), ts[i := t], inHand + HandOf(ts[i][fd]));
  }

  /** A table grows by one slot. */
  lemma Appended(ts: seq<Table>, pipes: map<nat, Ends>, inHand: multiset<Handle>, i: nat, d: Option<Descriptor>)
    requires i < |ts| && Exact(ts, pipes, inHand + HandOf(d))
    ensures Exact(ts[i := ts[i] + [d]], pipes, inHand)
  {
    var t := ts[i] + [d];
    forall h
      ensures Live(ts[i := t], inHand, h) == Live(ts, inHand + HandOf(d), h)
    {
      InTableSnoc(ts[i], d, h);
      InTablesUpdate(ts, i, t, h);
      HandCounts(d, h);
    }
    hide Exact;
    ExactMoves(ts, pipes, inHand + HandOf(d), ts[i := t], inHand);
  }

  /** A new table, empty so far. */
  lemma NewTable(ts: seq<Table>, pipes: map<nat, Ends>, inHand: multiset<Handle>)
    requires Exact(ts, pipes, inHand)
    ensures Exact(ts + [[]], pipes, inHand)
  {
    forall h
      ensures Live(ts + [[]], inHand, h) == Live(ts, inHand, h)
    {
      InTablesSnoc(ts, [], h);
    }
    hide Exact;
    ExactMoves(ts, pipes, inHand, ts + [[]], inHand);
  }

  lemma Cloned(ts: seq<Table>, pipes: map<nat, Ends>, inHand: multiset<Handle>, h: Handle)
    requires Exact(ts, pipes, inHand) && h.pipe in pipes
    ensures Exact(ts, pipes[h.pipe := WithEnd(pipes[h.pipe], h.end, EndCount(pipes[h.pipe], h.end) + 1)],
                  inHand + multiset{h})
  {
  }

  /** One handle goes: its count drops, and the pipe goes with the last handle of both ends. */
  lemma Dropped(ts: seq<Table>, pipes: map<nat, Ends>, inHand: multiset<Handle>, h: Handle)
    requires Exact(ts, pipes, inHand + multiset{h})
    ensures h.pipe in pipes && 0 < EndCount(pipes[h.pipe], h.end)
    ensures var e := WithEnd(pipes[h.pipe], h.end, EndCount(pipes[h.pipe], h.end) - 1);
            Exact(ts, if e.read == 0 && e.write == 0 then pipes - {h.pipe} else pipes[h.pipe := e], inHand)
  {
    assert 0 < Live(ts, inHand + multiset{h}, h);
    var p := h.pipe;
    var e := WithEnd(pipes[p], h.end, EndCount(pipes[p], h.end) - 1);
    var pipes' := if e.read == 0 && e.write == 0 then pipes - {p} else pipes[p := e];
    forall q, x
      ensures q in pipes' ==> EndCount(pipes'[q], x) == Live(ts, inHand, Handle(q, x))
      ensures q !in pipes' ==> Live(ts, inHand, Handle(q, x)) == 0
    {
      assert Live(ts, inHand + multiset{h}, Handle(q, x)) ==
             Live(ts, inHand, Handle(q, x)) + if Handle(q, x) == h then 1 else 0;
    }
  }

  lemma PipeMade(ts: seq<Table>, pipes: map<nat, Ends>, inHand: multiset<Handle>, p: nat)
    requires Exact(ts, pipes, inHand) && p !in pipes
    ensures Exact(ts, pipes[p := Ends(1, 1)], inHand + multiset{Handle(p, ReadEnd)} + multiset{Handle(p, WriteEnd)})
  {
    forall q, x
      ensures Live(ts, inHand + multiset{Handle(p, ReadEnd)} + multiset{Handle(p, WriteEnd)}, Handle(q, x)) ==
              Live(ts, inHand, Handle(q, x)) + if q == p then 1 else 0
    {
      match x case ReadEnd => case WriteEnd =>
    }
  }

  // ---------------------------------------------------------------------------
  // The tables as values
  // ---------------------------------------------------------------------------

  /** The first free slot at or after `k`, or the end of the table. */
  function FirstFree(t: Table, k: nat): (r: nat)
    requires k <= |t|
    ensures k <= r <= |t| && (r < |t| ==> t[r].None?) && forall j :: k <= j < r ==> t[j].Some?
    decreases |t| - k
  {
    if k == |t| || t[k].None? then k else FirstFree(t, k + 1)
  }

  /** The lowest free descriptor number; a full table grows up to its limit. */
  function Lowest(t: Table): Option<nat> {
    var k := FirstFree(t, 0);
    if k < |t| || |t| < MAX_OPEN then Some(k) else None
  }

  function Put(t: Table, fd: nat, d: Descriptor): Table
    requires fd <= |t|
  {
    if fd < |t| then t[fd := Some(d)] else t + [Some(d)]
  }

  function WithNew(t: Table, d: Descriptor): Table {
    match Lowest(t) case None => t case Some(fd) => Put(t, fd, d)
  }

  function WithAt(t: Table, fd: nat, d: Descriptor): Table {
    (if fd < |t| then t else t + seq(fd + 1 - |t|, _ => None))[fd := Some(d)]
  }

  predicate Open(t: Table, fd: nat) {
    fd < |t| && t[fd].Some?
  }

  /** Both ends of pipe `p`; when the second does not fit, the first is closed again. */
  function WithPipe(t: Table, p: nat): Table {
    match Lowest(t)
    case None => t
    case Some(fd) =>
      var t1 := Put(t, fd, Pipe(Handle(p, ReadEnd)));
      if Lowest(t1).Some? then WithNew(t1, Pipe(Handle(p, WriteEnd))) else t1[fd := None]
  }

  /** All tables after one call, and the number of pipes made. */
  function Next(ts: seq<Table>, pipes: nat, call: Call): (seq<Table>, nat) {
    match call
    case NewProcess => (ts + [[]], pipes)
    case Creates(t) => if t < |ts| then (ts[t := WithPipe(ts[t], pipes)], pipes + 1) else (ts, pipes)
    case Opens(t, kind) => (if t < |ts| then ts[t := WithNew(ts[t], Other(kind))] else ts, pipes)
    case Closes(t, fd) => (if t < |ts| && Open(ts[t], fd) then ts[t := ts[t][fd := None]] else ts, pipes)
    case Dups(t, fd) => (if t < |ts| && Open(ts[t], fd) then ts[t := WithNew(ts[t], ts[t][fd].value)] else ts, pipes)
    case Dups2(t, src, dst) =>
      (if t < |ts| && Open(ts[t], src) && src != dst && dst < MAX_OPEN
       then ts[t := WithAt(ts[t], dst, ts[t][src].value)] else ts, pipes)
    case Forks(t) => (if t < |ts| then ts + [ts[t]] else ts, pipes)
    case Exits(t) => (if t < |ts| then ts[t := seq(|ts[t]|, _ => None)] else ts, pipes)
  }

  // ---------------------------------------------------------------------------
  // What the calls do, descriptor by descriptor
  // ---------------------------------------------------------------------------

  /** What descriptor `fd` names; numbers past the end of the table name nothing. */
  function At(t: Table, fd: nat): Option<Descriptor> {
    if fd < |t| then t[fd] else None
  }

  /** `fd` is free, all numbers below it are taken, and the table may have it. */
  ghost predicate IsLowest(t: Table, fd: nat) {
    At(t, fd).None? && (forall j :: 0 <= j < fd ==> At(t, j).Some?) && (fd < |t| || fd < MAX_OPEN)
  }

  /** A new descriptor gets the lowest free number, and none only when there is none. */
  lemma LowestIs(t: Table, fd: nat)
    ensures Lowest(t) == Some(fd) <==> IsLowest(t, fd)
  {
    var k := FirstFree(t, 0);
    if k < fd { assert At(t, k).None?; }
    if fd < k && fd < |t| { assert t[fd].Some?; }
  }

  lemma NewAt(t: Table, d: Descriptor, fd: nat)
    ensures At(WithNew(t, d), fd) == if IsLowest(t, fd) then Some(d) else At(t, fd)
  {
    LowestIs(t, fd);
  }

  lemma InsteadAt(t: Table, at: nat, d: Descriptor, fd: nat)
    ensures At(WithAt(t, at, d), fd) == if fd == at then Some(d) else At(t, fd)
  {
  }

  /** `fd` is the lowest number once `first` is taken too. */
  ghost predicate IsSecond(t: Table, first: nat, fd: nat) {
    && first < fd && At(t, fd).None? && (forall j :: 0 <= j < fd && j != first ==> At(t, j).Some?)
    && (fd < |t| || fd < MAX_OPEN)
  }

  /** A pipe takes the two lowest free numbers, the read end first, or leaves every number as it was. */
  lemma PipeAt(t: Table, p: nat, first: nat, second: nat, fd: nat)
    ensures IsLowest(t, first) && IsSecond(t, first, second) ==>
              At(WithPipe(t, p), fd) == if fd == first then Some(Pipe(Handle(p, ReadEnd)))
                                        else if fd == second then Some(Pipe(Handle(p, WriteEnd))) else At(t, fd)
    ensures (forall a, b :: !(IsLowest(t, a) && IsSecond(t, a, b))) ==> At(WithPipe(t, p), fd) == At(t, fd)
  {
    if Lowest(t).Some? {
      var k := Lowest(t).value;
      LowestIs(t, k);
      LowestIs(t, first);
      var t1 := Put(t, k, Pipe(Handle(p, ReadEnd)));
      SecondIs(t, k, Pipe(Handle(p, ReadEnd)), second);
      NewAt(t1, Pipe(Handle(p, WriteEnd)), fd);
      if Lowest(t1).Some? {
        LowestIs(t1, Lowest(t1).value);
        SecondIs(t, k, Pipe(Handle(p, ReadEnd)), Lowest(t1).value);
        SecondIs(t, k, Pipe(Handle(p, ReadEnd)), fd);
      }
    } else if IsLowest(t, first) {
      LowestIs(t, first);
    }
  }

  lemma SecondIs(t: Table, first: nat, d: Descriptor, fd: nat)
    requires IsLowest(t, first) && first <= |t|
    ensures IsLowest(Put(t, first, d), fd) <==> IsSecond(t, first, fd)
  {
    var t1 := Put(t, first, d);
    assert forall j :: At(t1, j) == if j == first then Some(d) else At(t, j);
    assert fd < first ==> At(t1, fd) == At(t, fd);
  }

  /** Every call but `pipe`, by what it does to descriptor `fd` of table `u`. */
  lemma CallAt(ts: seq<Table>, pipes: nat, call: Call, u: nat, fd: nat)
    requires u < |ts|
    ensures u < |Next(ts, pipes, call).0|
    ensures var now, was := At(Next(ts, pipes, call).0[u], fd), At(ts[u], fd);
            match call
            case NewProcess => now == was
            case Creates(t) => u != t ==> now == was
            case Opens(t, kind) => now == if u == t && IsLowest(ts[t], fd) then Some(Other(kind)) else was
            case Closes(t, closed) => now == if u == t && fd == closed then None else was
            case Dups(t, src) =>
              now == if u == t && At(ts[t], src).Some? && IsLowest(ts[t], fd) then At(ts[t], src) else was
            case Dups2(t, src, dst) =>
              now == if u == t && At(ts[t], src).Some? && dst < MAX_OPEN && fd == dst then At(ts[t], src) else was
            case Forks(t) => now == was
            case Exits(t) => now == if u == t then None else was
  {
    hide WithNew, WithAt, WithPipe, IsLowest;
    match call
    case Opens(t, kind) => if t < |ts| { NewAt(ts[t], Other(kind), fd); }
    case Dups(t, src) => if t < |ts| && Open(ts[t], src) { NewAt(ts[t], ts[t][src].value, fd); }
    case Dups2(t, src, dst) => if t < |ts| && Open(ts[t], src) { InsteadAt(ts[t], dst, ts[t][src].value, fd); }
    case _ =>
  }

  /** A child has the descriptors of its parent, a new process none. */
  lemma BornAt(ts: seq<Table>, pipes: nat, t: nat, fd: nat)
    requires t < |ts|
    ensures var forked := Next(ts, pipes, Forks(t)).0; |forked| == |ts| + 1 && At(forked[|ts|], fd) == At(ts[t], fd)
    ensures var made := Next(ts, pipes, NewProcess).0; |made| == |ts| + 1 && At(made[|ts|], fd).None?
  {
  }

  function After(ts: seq<Table>, pipes: nat, calls: seq<Call>): (seq<Table>, nat) {
    if calls == [] then (ts, pipes)
    else
      var (ts1, pipes1) := After(ts, pipes, calls[..|calls| - 1]);
      Next(ts1, pipes1, calls[|calls| - 1])
  }

  datatype Call =
    | NewProcess
    | Creates(t: nat)
    | Opens(t: nat, kind: nat)
    | Closes(t: nat, fd: nat)
    | Dups(t: nat, fd: nat)
    | Dups2(t: nat, src: nat, dst: nat)
    | Forks(t: nat)
    | Exits(t: nat)

  class System {
    var tables: seq<Table>
    /** The pipe buffers that exist. */
    var pipes: map<nat, Ends>
    var nextPipe: nat
    /** How often each buffer ever created has been freed. */
    ghost var frees: map<nat, nat>

    ghost predicate Valid(inHand: multiset<Handle>)
      reads this
    {
      && Exact(tables, pipes, inHand)
      && (forall p: nat :: p in pipes || p in frees ==> p < nextPipe)
      && (forall p: nat :: p < nextPipe ==> p in frees && frees[p] == if p in pipes then 0 else 1)
    }

    constructor ()
      ensures Valid(multiset{}) && tables == [] && pipes == map[]
    {
      tables, pipes, nextPipe, frees := [], map[], 0, map[];
    }

    /** `clone_read_end` and `clone_write_end`. */
    method CloneHandle(h: Handle, ghost inHand: multiset<Handle>)
      requires Valid(inHand) && h.pipe in pipes
      modifies this`pipes
      ensures Valid(inHand + multiset{h}) && pipes.Keys == old(pipes).Keys
    {
      hide Exact;
      Cloned(tables, pipes, inHand, h);
      pipes := pipes[h.pipe := WithEnd(pipes[h.pipe], h.end, EndCount(pipes[h.pipe], h.end) + 1)];
    }

    /** Dropping a handle; the buffer is freed when both counts are zero. */
    method DropHandle(h: Handle, ghost inHand: multiset<Handle>)
      requires Valid(inHand + multiset{h})
      modifies this`pipes, this`frees
      ensures Valid(inHand)
      ensures forall p: nat :: p in old(frees) ==> p in frees && old(frees)[p] <= frees[p]
    {
      hide Exact;
      Dropped(tables, pipes, inHand, h);
      var e := WithEnd(pipes[h.pipe], h.end, EndCount(pipes[h.pipe], h.end) - 1);
      if e.read == 0 && e.write == 0 {
        pipes := pipes - {h.pipe};
        frees := frees[h.pipe := frees[h.pipe] + 1];
      } else {
        pipes := pipes[h.pipe := e];
      }
    }

    method DropDescriptor(d: Option<Descriptor>, ghost inHand: multiset<Handle>)
      requires Valid(inHand + HandOf(d))
      modifies this`pipes, this`frees
      ensures Valid(inHand)
    {
      hide Exact;
      if d.Some? && d.value.Pipe? {
        DropHandle(d.value.handle, inHand);
      } else {
        assert inHand + HandOf(d) == inHand;
      }
    }

    /** `FileDescriptor::dup` of what slot `fd` holds. */
    method DupDescriptor(t: nat, fd: nat, ghost inHand: multiset<Handle>) returns (d: Option<Descriptor>)
      requires Valid(inHand) && t < |tables| && fd < |tables[t]|
      modifies this`pipes
      ensures Valid(inHand + HandOf(d)) && d == tables[t][fd]
    {
      d := tables[t][fd];
      if d.Some? && d.value.Pipe? {
        HeldSome(tables, t, fd, d.value.handle);
        assert Live(tables, inHand, d.value.handle) > 0;
        NamedExists(tables, pipes, inHand, d.value.handle);
        hide Exact;
        CloneHandle(d.value.handle, inHand);
      } else {
        assert inHand + HandOf(d) == inHand;
      }
    }

    /** The lowest free slot, growing the table up to its limit; a descriptor that does not fit is dropped. */
    method Install(t: nat, d: Descriptor, ghost inHand: multiset<Handle>) returns (fd: int)
      requires Valid(inHand + HandOf(Some(d))) && t < |tables|
      modifies this
      ensures Valid(inHand) && |tables| == |old(tables)| && nextPipe == old(nextPipe)
      ensures fd == (match Lowest(old(tables)[t]) case None => -1 case Some(k) => k)
      ensures tables == old(tables)[t := WithNew(old(tables)[t], d)]
    {
      hide Exact;
      for k := 0 to |tables[t]|
        invariant tables == old(tables) && pipes == old(pipes) && frees == old(frees) && nextPipe == old(nextPipe)
        invariant FirstFree(tables[t], 0) == FirstFree(tables[t], k)
      {
        if tables[t][k].None? {
          Exchanged(tables, pipes, inHand, t, k, Some(d));
          assert inHand + HandOf(tables[t][k]) == inHand;
          tables := tables[t := tables[t][k := Some(d)]];
          return k;
        }
      }
      if |tables[t]| >= MAX_OPEN {
        DropDescriptor(Some(d), inHand);
        assert tables == tables[t := tables[t]];
        return -1;
      }
      Appended(tables, pipes, inHand, t, Some(d));
      fd := |tables[t]|;
      tables := tables[t := tables[t] + [Some(d)]];
    }

    /** Slot `fd` becomes `d`, whatever was there being closed; -1 when out of range. */
    method InstallAt(t: nat, fd: nat, d: Descriptor, ghost inHand: multiset<Handle>) returns (r: int)
      requires Valid(inHand + HandOf(Some(d))) && t < |tables|
      modifies this
      ensures Valid(inHand) && |tables| == |old(tables)| && nextPipe == old(nextPipe)
      ensures r == if fd < MAX_OPEN then fd else -1
      ensures tables == if fd < MAX_OPEN then old(tables)[t := WithAt(old(tables)[t], fd, d)] else old(tables)
    {
      hide Exact;
      if fd >= MAX_OPEN {
        DropDescriptor(Some(d), inHand);
        return -1;
      }
      var grown := 0;
      assert tables[t] + seq(0, _ => None) == tables[t] && tables[t := tables[t]] == tables;
      while |tables[t]| <= fd
        invariant Valid(inHand + HandOf(Some(d))) && nextPipe == old(nextPipe)
        invariant tables == old(tables)[t := old(tables)[t] + seq(grown, _ => None)]
        invariant 0 < grown ==> |tables[t]| <= fd + 1
        decreases fd + 1 - |tables[t]|
      {
        assert inHand + HandOf(Some(d)) + HandOf(None) == inHand + HandOf(Some(d));
        Appended(tables, pipes, inHand + HandOf(Some(d)), t, None);
        assert old(tables)[t] + seq(grown, _ => None) + [None] == old(tables)[t] + seq(grown + 1, _ => None);
        tables, grown := tables[t := tables[t] + [None]], grown + 1;
      }
      var was := tables[t][fd];
      Exchanged(tables, pipes, inHand, t, fd, Some(d));
      tables := tables[t := tables[t][fd := Some(d)]];
      DropDescriptor(was, inHand);
      return fd;
    }

    method Close(t: nat, fd: nat, ghost inHand: multiset<Handle>) returns (ok: bool)
      requires Valid(inHand) && t < |tables|
      modifies this
      ensures Valid(inHand) && |tables| == |old(tables)| && nextPipe == old(nextPipe)
      ensures ok <==> fd < |old(tables)[t]| && old(tables)[t][fd].Some?
      ensures tables == if ok then old(tables)[t := old(tables)[t][fd := None]] else old(tables)
    {
      hide Exact;
      if |tables[t]| <= fd || tables[t][fd].None? {
        return false;
      }
      var was := tables[t][fd];
      assert inHand + HandOf(None) == inHand;
      Exchanged(tables, pipes, inHand, t, fd, None);
      tables := tables[t := tables[t][fd := None]];
      DropDescriptor(was, inHand);
      return true;
    }

    /** Process exit: every slot is emptied. */
    method CloseAll(t: nat)
      requires Valid(multiset{}) && t < |tables|
      modifies this
      ensures Valid(multiset{}) && nextPipe == old(nextPipe)
      ensures tables == old(tables)[t := seq(|old(tables)[t]|, _ => None)]
    {
      hide Exact;
      for k := 0 to |tables[t]|
        invariant Valid(multiset{}) && |tables| == |old(tables)| && |tables[t]| == |old(tables)[t]|
        invariant nextPipe == old(nextPipe)
        invariant forall j :: 0 <= j < k ==> tables[t][j].None?
        invariant forall u :: 0 <= u < |tables| && u != t ==> tables[u] == old(tables)[u]
      {
        var ok := Close(t, k, multiset{});
      }
      assert tables[t] == seq(|old(tables)[t]|, _ => None);
    }

    method Dup(t: nat, fd: nat) returns (r: int)
      requires Valid(multiset{}) && t < |tables|
      modifies this
      ensures Valid(multiset{}) && nextPipe == old(nextPipe)
      ensures tables == if Open(old(tables)[t], fd)
                        then old(tables)[t := WithNew(old(tables)[t], old(tables)[t][fd].value)] else old(tables)
      ensures r == if Open(old(tables)[t], fd)
                   then (match Lowest(old(tables)[t]) case None => -1 case Some(k) => k) else -9
    {
      hide Exact, WithNew, Lowest;
      if |tables[t]| <= fd || tables[t][fd].None? {
        return -9;
      }
      var d := DupDescriptor(t, fd, multiset{});
      r := Install(t, d.value, multiset{});
    }

    method Dup2(t: nat, src: nat, dst: nat) returns (r: int)
      requires Valid(multiset{}) && t < |tables|
      modifies this
      ensures Valid(multiset{}) && nextPipe == old(nextPipe)
      ensures tables == if Open(old(tables)[t], src) && src != dst && dst < MAX_OPEN
                        then old(tables)[t := WithAt(old(tables)[t], dst, old(tables)[t][src].value)] else old(tables)
      ensures r == if !Open(old(tables)[t], src) then -9 else if src == dst || dst < MAX_OPEN then dst else -1
    {
      hide Exact, WithAt;
      if |tables[t]| <= src || tables[t][src].None? {
        return -9;
      }
      if src == dst {
        return dst;
      }
      var d := DupDescriptor(t, src, multiset{});
      r := InstallAt(t, dst, d.value, multiset{});
    }

    /** `fork`: an independent table with every descriptor duplicated. */
    method CloneForFork(t: nat)
      requires Valid(multiset{}) && t < |tables|
      modifies this
      ensures Valid(multiset{}) && tables == old(tables) + [old(tables)[t]] && nextPipe == old(nextPipe)
    {
      hide Exact;
      var n := |tables|;
      NewTable(tables, pipes, multiset{});
      tables := tables + [[]];
      for k := 0 to |tables[t]|
        invariant Valid(multiset{}) && tables == old(tables) + [old(tables)[t][..k]] && nextPipe == old(nextPipe)
      {
        assert tables[t] == old(tables)[t];
        var d := DupDescriptor(t, k, multiset{});
        Appended(tables, pipes, multiset{}, n, d);
        assert old(tables)[t][..k] + [d] == old(tables)[t][..k + 1];
        tables := tables[n := tables[n] + [d]];
      }
      assert old(tables)[t][..|old(tables)[t]|] == old(tables)[t];
    }

    /** `pipe_create`: a buffer with one handle on each end. */
    method MakePipe() returns (p: nat)
      requires Valid(multiset{})
      modifies this`pipes, this`nextPipe, this`frees
      ensures p == old(nextPipe) && nextPipe == p + 1 && forall e :: InTables(tables, Handle(p, e)) == 0
      ensures Valid(multiset{Handle(p, WriteEnd)} + HandOf(Some(Pipe(Handle(p, ReadEnd)))))
    {
      p := nextPipe;
      var read, write := Handle(p, ReadEnd), Handle(p, WriteEnd);
      assert forall e :: Live(tables, multiset{}, Handle(p, e)) == InTables(tables, Handle(p, e)) == 0;
      PipeMade(tables, pipes, multiset{}, p);
      hide Exact;
      assert multiset{} + multiset{read} + multiset{write} == multiset{write} + HandOf(Some(Pipe(read)));
      pipes, nextPipe, frees := pipes[p := Ends(1, 1)], p + 1, frees[p := 0];
    }

    /** `pipe`: both ends in the lowest free slots, or none of them and no pipe. */
    method CreatePipe(t: nat) returns (r: Option<(nat, nat)>)
      requires Valid(multiset{}) && t < |tables|
      modifies this
      ensures Valid(multiset{}) && nextPipe == old(nextPipe) + 1
      ensures tables == old(tables)[t := WithPipe(old(tables)[t], old(nextPipe))]
      ensures r.Some? ==>
                && r.value.0 != r.value.1 && r.value.0 < |tables[t]| && r.value.1 < |tables[t]|
                && tables[t][r.value.0] == Some(Pipe(Handle(old(nextPipe), ReadEnd)))
                && tables[t][r.value.1] == Some(Pipe(Handle(old(nextPipe), WriteEnd)))
      ensures r.None? ==> old(nextPipe) !in pipes
    {
      hide Exact;
      var p := MakePipe();
      var read, write := Handle(p, ReadEnd), Handle(p, WriteEnd);
      var fd0 := Install(t, Pipe(read), multiset{write});
      assert multiset{write} == multiset{} + HandOf(Some(Pipe(write)));
      if fd0 < 0 {
        DropDescriptor(Some(Pipe(write)), multiset{});
        assert tables == old(tables);
        NoHandles(tables, pipes, p);
        return None;
      }
      ghost var t1 := tables;
      var fd1 := Install(t, Pipe(write), multiset{});
      if fd1 < 0 {
        assert tables == t1;
        var ok := Close(t, fd0, multiset{});
        Untouched(old(tables), t, fd0, Some(Pipe(read)), p);
        NoHandles(tables, pipes, p);
        return None;
      }
      return Some((fd0, fd1));
    }

    /** One call; a table number that does not exist is no process's. */
    method Do(call: Call)
      requires Valid(multiset{})
      modifies this
      ensures Valid(multiset{}) && (tables, nextPipe) == Next(old(tables), old(nextPipe), call)
    {
      hide Exact, WithNew, WithAt, WithPipe, Lowest;
      match call
      case NewProcess =>
        NewTable(tables, pipes, multiset{});
        tables := tables + [[]];
      case Creates(t) =>
        if t < |tables| {
          var r := CreatePipe(t);
        }
      case Opens(t, kind) =>
        if t < |tables| {
          assert multiset{} + HandOf(Some(Other(kind))) == multiset{};
          var r := Install(t, Other(kind), multiset{});
        }
      case Closes(t, fd) =>
        if t < |tables| {
          var r := Close(t, fd, multiset{});
        }
      case Dups(t, fd) =>
        if t < |tables| {
          var r := Dup(t, fd);
        }
      case Dups2(t, src, dst) =>
        if t < |tables| {
          var r := Dup2(t, src, dst);
        }
      case Forks(t) =>
        if t < |tables| {
          CloneForFork(t);
        }
      case Exits(t) =>
        if t < |tables| {
          CloseAll(t);
        }
    }

    /** Any run of calls on any number of tables leaves the tables the calls say, with exact counts.  Every
        handle in a table names a pipe that exists, and a pipe that no longer exists was freed once. */
    method Run(calls: seq<Call>)
      requires Valid(multiset{})
      modifies this
      ensures Valid(multiset{}) && (tables, nextPipe) == After(old(tables), old(nextPipe), calls)
      ensures forall i, fd ::
                0 <= i < |tables| && 0 <= fd < |tables[i]| && tables[i][fd].Some? && tables[i][fd].value.Pipe? ==>
                tables[i][fd].value.handle.pipe in pipes
      ensures forall p: nat :: p < nextPipe && p !in pipes ==> p in frees && frees[p] == 1
    {
      hide Exact, Next;
      for k := 0 to |calls|
        invariant Valid(multiset{}) && (tables, nextPipe) == After(old(tables), old(nextPipe), calls[..k])
      {
        assert calls[..k + 1][..k] == calls[..k];
        Do(calls[k]);
      }
      assert calls[..|calls|] == calls;
      AllNamed(tables, pipes);
    }
  }

  /** A pipe no table names is not there. */
  lemma NoHandles(ts: seq<Table>, pipes: map<nat, Ends>, p: nat)
    requires Exact(ts, pipes, multiset{}) && InTables(ts, Handle(p, ReadEnd)) == 0
    requires InTables(ts, Handle(p, WriteEnd)) == 0
    ensures p !in pipes
  {
    hide Exact;
    if p in pipes { SomeHandle(ts, pipes, p); }
  }

  lemma SomeHandle(ts: seq<Table>, pipes: map<nat, Ends>, p: nat)
    requires Exact(ts, pipes, multiset{}) && p in pipes
    ensures 0 < InTables(ts, Handle(p, ReadEnd)) + InTables(ts, Handle(p, WriteEnd))
  {
    assert EndCount(pipes[p], ReadEnd) == Live(ts, multiset{}, Handle(p, ReadEnd));
    assert EndCount(pipes[p], WriteEnd) == Live(ts, multiset{}, Handle(p, WriteEnd));
  }

  /** Installing into a free slot and emptying it again changes no count. */
  lemma Untouched(ts: seq<Table>, t: nat, fd: nat, d: Option<Descriptor>, p: nat)
    requires t < |ts| && fd <= |ts[t]| && (fd < |ts[t]| ==> ts[t][fd].None?)
    ensures var installed := if fd < |ts[t]| then ts[t][fd := d] else ts[t] + [d];
            forall e :: InTables(ts[t := installed][t := installed[fd := None]], Handle(p, e)) ==
              InTables(ts, Handle(p, e))
  {
    var installed := if fd < |ts[t]| then ts[t][fd := d] else ts[t] + [d];
    var after := installed[fd := None];
    assert ts[t := installed][t := after] == ts[t := after];
    forall e
      ensures InTables(ts[t := after], Handle(p, e)) == InTables(ts, Handle(p, e))
    {
      var h := Handle(p, e);
      InTablesUpdate(ts, t, after, h);
      if fd < |ts[t]| {
        assert after == ts[t][fd := None];
        InTableUpdate(ts[t], fd, None, h);
      } else {
        assert after == ts[t] + [None];
        InTableSnoc(ts[t], None, h);
      }
    }
  }

  lemma NamedExists(ts: seq<Table>, pipes: map<nat, Ends>, inHand: multiset<Handle>, h: Handle)
    requires Exact(ts, pipes, inHand) && 0 < Live(ts, inHand, h)
    ensures h.pipe in pipes
  {
    assert Handle(h.pipe, h.end) == h;
  }

  /** No handle in any table names a freed buffer. */
  lemma AllNamed(ts: seq<Table>, pipes: map<nat, Ends>)
    requires Exact(ts, pipes, multiset{})
    ensures forall i, fd :: 0 <= i < |ts| && 0 <= fd < |ts[i]| && ts[i][fd].Some? && ts[i][fd].value.Pipe? ==>
              ts[i][fd].value.handle.pipe in pipes
  {
    forall i, fd | 0 <= i < |ts| && 0 <= fd < |ts[i]| && ts[i][fd].Some? && ts[i][fd].value.Pipe?
      ensures ts[i][fd].value.handle.pipe in pipes
    {
      HeldSome(ts, i, fd, ts[i][fd].value.handle);
      NamedExists(ts, pipes, multiset{}, ts[i][fd].value.handle);
    }
  }
}
