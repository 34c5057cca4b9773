/** The test that decides a fork: its memory part needs a frame for the child's root and one per user table
    of the parent.  The page-table code is proved to obey it, the process table to depend on it. */
module ForkGuard {
  predicate ForkFits(free: nat, tables: nat) {
    1 + tables <= free
  }
}
