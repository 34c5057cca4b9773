/** The frames a copy takes, counted as sets: the tables and the pages of the lower half. */
module TableCensus {
  import opened PhysicalMemory
  import opened PageTables
  import opened TableCount
  import opened TableCopy

  /** The tables strictly below `p`, reached through its first `n` entries. */
  ghost function TablesUnder(s: State, p: Path, n: nat): set<Path> {
    set q | q in s.t && Under(p, q) && q != p && Branch(p, q) < n
  }

  /** Slot `j` of `q` is in use, at or below `p`, and the loop over `p` has passed it at count `n`. */
  ghost predicate PageUnder(s: State, p: Path, n: nat, q: Path, j: nat) {
    q in s.t && j < WORDS && Depth(q) == 3 && SlotOf(s, q, j).valid && Under(p, q) && Passed(p, q, j, n)
  }

  ghost function PagesUnder(s: State, p: Path, n: nat): set<(Path, nat)> {
    set q, j: nat | q in s.t && j < WORDS && PageUnder(s, p, n, q, j) :: (q, j)
  }

  /** The user tables of space `id`, its root left out. */
  ghost function UserTables(s: State, id: nat): set<Path> {
    TablesUnder(s, Root(id), 256)
  }

  /** The user pages of space `id`. */
  ghost function UserPages(s: State, id: nat): set<(Path, nat)> {
    PagesUnder(s, Root(id), 256)
  }

  lemma TablesStep(s: State, p: Path, n: nat)
    requires Good(s) && Depth(p) < 3
    ensures TablesUnder(s, p, n + 1) ==
            TablesUnder(s, p, n) + if Sub(p, n) in s.t then {Sub(p, n)} + TablesUnder(s, Sub(p, n), WORDS) else {}
    ensures TablesUnder(s, p, n) !! ({Sub(p, n)} + TablesUnder(s, Sub(p, n), WORDS))
  {
    hide Good;
    var below := if Sub(p, n) in s.t then {Sub(p, n)} + TablesUnder(s, Sub(p, n), WORDS) else {};
    forall q | q in s.t
      ensures Under(p, q) && q != p && Branch(p, q) == n <==> q in below
      ensures q in {Sub(p, n)} + TablesUnder(s, Sub(p, n), WORDS) ==> Branch(p, q) == n
    {
      if Under(Sub(p, n), q) {
        UnderEntry(p, n, q);
        UnderIsIn(s, Sub(p, n), q);
        if q != Sub(p, n) {
          UnderFacts(Sub(p, n), q);
          UnderIsIn(s, Sub(Sub(p, n), Branch(Sub(p, n), q)), q);
          NoFarEntry(s, Sub(p, n), Branch(Sub(p, n), q));
        }
      }
      if Under(p, q) && q != p && Branch(p, q) == n { UnderFacts(p, q); }
    }
    assert forall q :: q in TablesUnder(s, p, n) ==> Branch(p, q) < n;
    assert Branch(p, Sub(p, n)) == n;
  }

  lemma PageStep(s: State, p: Path, n: nat, q: Path, j: nat)
    requires Good(s) && Depth(p) < 3
    ensures PageUnder(s, p, n + 1, q, j) <==> PageUnder(s, p, n, q, j) || PageUnder(s, Sub(p, n), WORDS, q, j)
    ensures PageUnder(s, Sub(p, n), WORDS, q, j) ==> !PageUnder(s, p, n, q, j) && Sub(p, n) in s.t
  {
    hide Good, SlotOf;
    if q in s.t && Depth(q) == 3 && Under(Sub(p, n), q) {
      UnderEntry(p, n, q);
      UnderIsIn(s, Sub(p, n), q);
      if Depth(Sub(p, n)) < 3 {
        UnderFacts(Sub(p, n), q);
        UnderIsIn(s, Sub(Sub(p, n), Branch(Sub(p, n), q)), q);
        NoFarEntry(s, Sub(p, n), Branch(Sub(p, n), q));
      }
    }
    if Under(p, q) && Depth(q) == 3 && Branch(p, q) == n { UnderFacts(p, q); }
  }

  lemma PagesStep(s: State, p: Path, n: nat)
    requires Good(s) && Depth(p) < 3
    ensures PagesUnder(s, p, n + 1) ==
            PagesUnder(s, p, n) + if Sub(p, n) in s.t then PagesUnder(s, Sub(p, n), WORDS) else {}
    ensures PagesUnder(s, p, n) !! PagesUnder(s, Sub(p, n), WORDS)
  {
    hide Good, PageUnder;
    forall q, j: nat
      ensures PageUnder(s, p, n + 1, q, j) <==> PageUnder(s, p, n, q, j) || PageUnder(s, Sub(p, n), WORDS, q, j)
      ensures PageUnder(s, Sub(p, n), WORDS, q, j) ==> !PageUnder(s, p, n, q, j) && Sub(p, n) in s.t
    {
      PageStep(s, p, n, q, j);
    }
  }

  lemma SlotStep(s: State, p: Path, n: nat)
    requires Depth(p) == 3 && p in s.t && n < WORDS
    ensures PagesUnder(s, p, n + 1) == PagesUnder(s, p, n) + if SlotOf(s, p, n).valid then {(p, n)} else {}
    ensures (p, n) !in PagesUnder(s, p, n)
  {
    forall q | q in s.t && Under(p, q) && Depth(q) == 3
      ensures q == p
    {
      UnderFacts(p, q);
    }
  }

  lemma NoTablesBelowLeaves(s: State, p: Path, n: nat)
    requires Good(s) && Depth(p) == 3
    ensures TablesUnder(s, p, n) == {}
  {
    forall q | q in s.t && Under(p, q)
      ensures q == p
    {
      UnderFacts(p, q);
    }
  }

  /** The count along the loops is the number of tables, and of pages where they are copied. */
  lemma {:induction false} CostIsCensus(pages: bool, s: State, p: Path, n: nat)
    requires Good(s) && Depth(p) <= 3 && p in s.t && n <= WORDS
    ensures Cost(pages, s.m, s.t, p, n) == |TablesUnder(s, p, n)| + if pages then |PagesUnder(s, p, n)| else 0
    decreases Rank(p), n
  {
    hide Good, TablesUnder, PagesUnder, SlotOf;
    if n == 0 {
      NothingUnder(s, p);
    } else {
      CostIsCensus(pages, s, p, n - 1);
      EntryIsCensus(pages, s, p, n - 1);
    }
  }

  lemma NothingUnder(s: State, p: Path)
    ensures TablesUnder(s, p, 0) == {} && PagesUnder(s, p, 0) == {}
  {
  }

  lemma {:induction false} EntryIsCensus(pages: bool, s: State, p: Path, i: nat)
    requires Good(s) && Depth(p) <= 3 && p in s.t && i < WORDS
    ensures |TablesUnder(s, p, i + 1)| + (if pages then |PagesUnder(s, p, i + 1)| else 0) ==
            |TablesUnder(s, p, i)| + (if pages then |PagesUnder(s, p, i)| else 0) + EntryCost(pages, s.m, s.t, p, i)
    decreases Rank(p), i
  {
    hide Good, TablesUnder, PagesUnder;
    if Depth(p) == 3 {
      NoTablesBelowLeaves(s, p, i);
      NoTablesBelowLeaves(s, p, i + 1);
      SlotStep(s, p, i);
    } else {
      TablesStep(s, p, i);
      PagesStep(s, p, i);
      if Sub(p, i) in s.t {
        CostIsCensus(pages, s, Sub(p, i), WORDS);
        NotUnderItself(s, Sub(p, i));
        assert |{Sub(p, i)} + TablesUnder(s, Sub(p, i), WORDS)| == 1 + |TablesUnder(s, Sub(p, i), WORDS)|;
      }
    }
  }

  lemma NotUnderItself(s: State, p: Path)
    ensures p !in TablesUnder(s, p, WORDS)
  {
  }

  /** What the lazy copy and the eager copy of space `id` take besides the root. */
  lemma UserCost(s: State, id: nat)
    requires Good(s) && Root(id) in s.t
    ensures Cost(false, s.m, s.t, Root(id), 256) == |UserTables(s, id)|
    ensures Cost(true, s.m, s.t, Root(id), 256) == |UserTables(s, id)| + |UserPages(s, id)|
  {
    CostIsCensus(false, s, Root(id), 256);
    CostIsCensus(true, s, Root(id), 256);
  }
}
