/** How many frames a copy of an address space takes, and how many of them before it meets a page.

    The four nested loops visit the entries of a table in order and go down before they go on, so both
    numbers follow the tables entry by entry.
 */
module TableCount {
  import opened PhysicalMemory
  import opened PageTables

  function Rank(p: Path): nat {
    if Depth(p) < 3 then 3 - Depth(p) else 0
  }

  /** The frames a copy of the first `n` entries of `p` takes: one per table below it and, if `pages`, one
      per page. */
  ghost function Cost(pages: bool, m: Memory, t: Tables, p: Path, n: nat): nat
    decreases Rank(p), n
  {
    if n == 0 then 0 else Cost(pages, m, t, p, n - 1) + EntryCost(pages, m, t, p, n - 1)
  }

  ghost function EntryCost(pages: bool, m: Memory, t: Tables, p: Path, i: nat): nat
    decreases Rank(p), i
  {
    if Depth(p) >= 3 then if pages && Slot(m, t, p, i).valid then 1 else 0
    else if Sub(p, i) in t then 1 + Cost(pages, m, t, Sub(p, i), WORDS)
    else 0
  }

  /** Some page lies below the first `n` entries of `p`. */
  ghost predicate Leafy(m: Memory, t: Tables, p: Path, n: nat)
    decreases Rank(p), n
  {
    n != 0 && (Leafy(m, t, p, n - 1) || EntryLeafy(m, t, p, n - 1))
  }

  ghost predicate EntryLeafy(m: Memory, t: Tables, p: Path, i: nat)
    decreases Rank(p), i
  {
    if Depth(p) >= 3 then Slot(m, t, p, i).valid else Sub(p, i) in t && Leafy(m, t, Sub(p, i), WORDS)
  }

  /** The tables below the first `n` entries of `p` that are walked before the first page is met; all of
      them when there is no page. */
  ghost function Lead(m: Memory, t: Tables, p: Path, n: nat): nat
    decreases Rank(p), n
  {
    if n == 0 then 0
    else if Leafy(m, t, p, n - 1) then Lead(m, t, p, n - 1)
    else Lead(m, t, p, n - 1) + EntryLead(m, t, p, n - 1)
  }

  ghost function EntryLead(m: Memory, t: Tables, p: Path, i: nat): nat
    decreases Rank(p), i
  {
    if Depth(p) < 3 && Sub(p, i) in t then 1 + Lead(m, t, Sub(p, i), WORDS) else 0
  }

  lemma {:induction false} CostGrows(pages: bool, m: Memory, t: Tables, p: Path, i: nat, n: nat)
    requires i <= n
    ensures Cost(pages, m, t, p, i) <= Cost(pages, m, t, p, n)
    decreases n
  {
    if i < n { CostGrows(pages, m, t, p, i, n - 1); }
  }

  /** Up to the first page the walk takes every table it passes. */
  lemma {:induction false} LeadIsCost(m: Memory, t: Tables, p: Path, n: nat)
    ensures Lead(m, t, p, n) <= Cost(false, m, t, p, n)
    ensures !Leafy(m, t, p, n) ==> Lead(m, t, p, n) == Cost(false, m, t, p, n)
    decreases Rank(p), n
  {
    if n != 0 {
      LeadIsCost(m, t, p, n - 1);
      EntryLeadIsCost(m, t, p, n - 1);
    }
  }

  lemma {:induction false} EntryLeadIsCost(m: Memory, t: Tables, p: Path, i: nat)
    ensures EntryLead(m, t, p, i) <= EntryCost(false, m, t, p, i)
    ensures !EntryLeafy(m, t, p, i) ==> EntryLead(m, t, p, i) == EntryCost(false, m, t, p, i)
    decreases Rank(p), i
  {
    if Depth(p) < 3 && Sub(p, i) in t { LeadIsCost(m, t, Sub(p, i), WORDS); }
  }

  /** Once a page is met, later entries do not matter. */
  lemma {:induction false} LeadGrows(m: Memory, t: Tables, p: Path, i: nat, n: nat)
    requires i <= n
    ensures Lead(m, t, p, i) <= Lead(m, t, p, n)
    ensures Leafy(m, t, p, i) ==> Leafy(m, t, p, n) && Lead(m, t, p, n) == Lead(m, t, p, i)
    decreases n
  {
    if i < n { LeadGrows(m, t, p, i, n - 1); }
  }

  // ---------------------------------------------------------------------------
  // The balance of a copy under way
  // ---------------------------------------------------------------------------

  /** A copy of `n` entries of `p` with `before` frames on the list: how it ends, what it leaves, and
      whether a page has been shared.  Only the lazy copy (`!pages`) shares pages. */
  ghost predicate Tally(pages: bool, m: Memory, t: Tables, p: Path, n: nat, before: nat, after: nat, ok: bool,
                        shared: bool, shared': bool) {
    && (if ok then before == after + Cost(pages, m, t, p, n) else before < Cost(pages, m, t, p, n))
    && (if pages then !shared' else shared' <==> shared || (Leafy(m, t, p, n) && before >= Lead(m, t, p, n)))
  }

  /** The same for entry `i` alone. */
  ghost predicate EntryTally(pages: bool, m: Memory, t: Tables, p: Path, i: nat, before: nat, after: nat, ok: bool,
                             shared: bool, shared': bool) {
    && (if ok then before == after + EntryCost(pages, m, t, p, i) else before < EntryCost(pages, m, t, p, i))
    && (if pages then !shared'
        else shared' <==> shared || (EntryLeafy(m, t, p, i) && before >= EntryLead(m, t, p, i)))
  }

  lemma TallyStart(pages: bool, m: Memory, t: Tables, p: Path, before: nat, shared: bool)
    requires pages ==> !shared
    ensures Tally(pages, m, t, p, 0, before, before, true, shared, shared)
  {
  }

  lemma TallyQuiet(pages: bool, m: Memory, t: Tables, p: Path, n: nat, before: nat, after: nat, ok: bool,
                   shared: bool, shared': bool)
    requires Tally(pages, m, t, p, n, before, after, ok, shared, shared')
    ensures pages ==> !shared'
  {
  }

  lemma TallyStep(pages: bool, m: Memory, t: Tables, p: Path, i: nat, before: nat, mid: nat, after: nat,
                  shared: bool, shared1: bool, shared2: bool)
    requires Tally(pages, m, t, p, i, before, mid, true, shared, shared1)
    requires EntryTally(pages, m, t, p, i, mid, after, true, shared1, shared2)
    ensures Tally(pages, m, t, p, i + 1, before, after, true, shared, shared2)
  {
    LeadIsCost(m, t, p, i);
  }

  /** A copy that stops at entry `i` stops short of every later bound. */
  lemma TallyStop(pages: bool, m: Memory, t: Tables, p: Path, i: nat, n: nat, before: nat, mid: nat, after: nat,
                  shared: bool, shared1: bool, shared2: bool)
    requires Tally(pages, m, t, p, i, before, mid, true, shared, shared1) && i < n
    requires EntryTally(pages, m, t, p, i, mid, after, false, shared1, shared2)
    ensures Tally(pages, m, t, p, n, before, after, false, shared, shared2)
  {
    CostGrows(pages, m, t, p, i + 1, n);
    if !pages {
      LeadIsCost(m, t, p, i);
      LeadIsCost(m, t, p, i + 1);
      LeadGrows(m, t, p, i + 1, n);
    }
  }

  lemma EntryNothing(pages: bool, m: Memory, t: Tables, p: Path, i: nat, before: nat, shared: bool)
    requires pages ==> !shared
    requires if Depth(p) >= 3 then !Slot(m, t, p, i).valid else Sub(p, i) !in t
    ensures EntryTally(pages, m, t, p, i, before, before, true, shared, shared)
  {
  }

  /** A page copied takes a frame, a page shared takes none. */
  lemma EntryPage(pages: bool, m: Memory, t: Tables, p: Path, i: nat, before: nat, shared: bool)
    requires (pages ==> !shared) && Depth(p) >= 3 && Slot(m, t, p, i).valid
    ensures pages && 0 < before ==> EntryTally(pages, m, t, p, i, before, before - 1, true, false, false)
    ensures pages && before == 0 ==> EntryTally(pages, m, t, p, i, before, 0, false, false, false)
    ensures !pages ==> EntryTally(pages, m, t, p, i, before, before, true, shared, true)
  {
  }

  lemma EntryNoTable(pages: bool, m: Memory, t: Tables, p: Path, i: nat, shared: bool)
    requires (pages ==> !shared) && Depth(p) < 3 && Sub(p, i) in t
    ensures EntryTally(pages, m, t, p, i, 0, 0, false, shared, shared)
  {
  }

  /** A table taken for the entry, then the copy of what is below it. */
  lemma EntryBelow(pages: bool, m: Memory, t: Tables, p: Path, i: nat, before: nat, after: nat, ok: bool,
                   shared: bool, shared': bool)
    requires Depth(p) < 3 && Sub(p, i) in t && 0 < before
    requires Tally(pages, m, t, Sub(p, i), WORDS, before - 1, after, ok, shared, shared')
    ensures EntryTally(pages, m, t, p, i, before, after, ok, shared, shared')
  {
  }
}
