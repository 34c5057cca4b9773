/** Cluster chains in a FAT: linked lists threaded through one array, never sharing a cluster. */
module FatChains {
  import opened FatDisk

  predicate IsEof(c: nat) {
    EOF_MIN <= c
  }

  /** Element `i` of the chain names the next one, or the last one carries an end mark. */
  ghost predicate Linked(fat: seq<nat>, q: seq<nat>, i: nat)
    requires i < |q|
  {
    && 2 <= q[i] < |fat|
    && (i + 1 < |q| ==> fat[q[i]] == q[i + 1])
    && (i + 1 == |q| ==> IsEof(fat[q[i]]) && fat[q[i]] < TOP)
  }

  ghost predicate Chain(fat: seq<nat>, q: seq<nat>) {
    q != [] && forall i :: 0 <= i < |q| ==> Linked(fat, q, i)
  }

  /** Chains by their first cluster. */
  type Chains = map<nat, seq<nat>>

  ghost predicate Position(chains: Chains, a: nat, i: nat) {
    a in chains && i < |chains[a]|
  }

  /** A cluster stands in one place of one chain. */
  ghost predicate Disjoint(chains: Chains) {
    forall a, i: nat, b, j: nat :: Position(chains, a, i) && Position(chains, b, j) ==>
      chains[a][i] == chains[b][j] ==> a == b && i == j
  }

  ghost predicate InSome(chains: Chains, c: nat) {
    exists a, i: nat :: Position(chains, a, i) && chains[a][i] == c
  }

  ghost predicate ChainsOk(fat: seq<nat>, chains: Chains) {
    && (forall a :: a in chains ==> Chain(fat, chains[a]) && chains[a][0] == a)
    && Disjoint(chains)
    && (forall c :: 2 <= c < |fat| && fat[c] != 0 && fat[c] != BAD ==> InSome(chains, c))
  }

  lemma InChainUsed(fat: seq<nat>, chains: Chains, a: nat, i: nat)
    requires ChainsOk(fat, chains) && Position(chains, a, i) && |fat| <= BAD
    ensures 2 <= chains[a][i] < |fat| && fat[chains[a][i]] != 0 && fat[chains[a][i]] != BAD
    ensures i + 1 < |chains[a]| ==> fat[chains[a][i]] == chains[a][i + 1] && 2 <= chains[a][i + 1] < |fat|
    ensures i + 1 == |chains[a]| ==> IsEof(fat[chains[a][i]]) && fat[chains[a][i]] < TOP
  {
    assert Linked(fat, chains[a], i);
    if i + 1 < |chains[a]| { assert Linked(fat, chains[a], i + 1); }
  }

  // ---------------------------------------------------------------------------
  // Allocation
  // ---------------------------------------------------------------------------

  function LastOf(q: seq<nat>): nat
    requires q != []
  {
    q[|q| - 1]
  }

  /** The table after cluster `c` was appended to the chain that ends in `last`, or made a chain of its own. */
  function AllocFat(fat: seq<nat>, c: nat, last: nat): seq<nat>
    requires c < |fat|
  {
    if 0 < last < |fat| then fat[c := EOF_MARK][last := c] else fat[c := EOF_MARK]
  }

  function AllocChains(chains: Chains, first: nat, c: nat): Chains {
    if first in chains then chains[first := chains[first] + [c]] else chains[c := [c]]
  }

  /** A free cluster is in no chain; appending it to one chain, or starting one, disturbs no other. */
  lemma AllocOk(fat: seq<nat>, chains: Chains, first: nat, c: nat)
    requires ChainsOk(fat, chains) && |fat| <= BAD && 2 <= c < |fat| && fat[c] == 0
    requires first == 0 || first in chains
    ensures !InSome(chains, c) && c !in chains
    ensures first in chains ==> 2 <= LastOf(chains[first]) < |fat|
    ensures ChainsOk(AllocFat(fat, c, if first in chains then LastOf(chains[first]) else 0),
                     AllocChains(chains, first, c))
  {
    FreeIsLoose(fat, chains, c);
    var q := if first in chains then chains[first] else [];
    if first in chains { InChainUsed(fat, chains, first, |q| - 1); }
    if 0 in chains { InChainUsed(fat, chains, 0, 0); }
    var fat' := AllocFat(fat, c, if first in chains then LastOf(q) else 0);
    var chains' := AllocChains(chains, first, c);
    forall a | a in chains'
      ensures Chain(fat', chains'[a]) && chains'[a][0] == a
    {
      AllocChain(fat, chains, first, c, a);
    }
    AllocDisjoint(chains, first, c);
    forall d | 2 <= d < |fat'| && fat'[d] != 0 && fat'[d] != BAD
      ensures InSome(chains', d)
    {
      AllocCovered(fat, chains, first, c, d);
    }
  }

  lemma FreeIsLoose(fat: seq<nat>, chains: Chains, c: nat)
    requires ChainsOk(fat, chains) && |fat| <= BAD && c < |fat| && fat[c] == 0
    ensures !InSome(chains, c) && c !in chains
  {
    assert c in chains ==> Position(chains, c, 0) && chains[c][0] == c;
    if InSome(chains, c) {
      var a, i: nat :| Position(chains, a, i) && chains[a][i] == c;
      InChainUsed(fat, chains, a, i);
    }
  }

  lemma AllocChain(fat: seq<nat>, chains: Chains, first: nat, c: nat, a: nat)
    requires ChainsOk(fat, chains) && |fat| <= BAD && 2 <= c < |fat| && fat[c] == 0 && 0 !in chains
    requires (first == 0 || first in chains) && !InSome(chains, c) && a in AllocChains(chains, first, c)
    requires first in chains ==> 2 <= LastOf(chains[first]) < |fat|
    ensures var fat' := AllocFat(fat, c, if first in chains then LastOf(chains[first]) else 0);
            var q := AllocChains(chains, first, c)[a];
            Chain(fat', q) && q[0] == a
  {
    var last := if first in chains then LastOf(chains[first]) else 0;
    var fat', q := AllocFat(fat, c, last), AllocChains(chains, first, c)[a];
    forall i | 0 <= i < |q|
      ensures Linked(fat', q, i)
    {
      if a in chains && i < |chains[a]| {
        assert Linked(fat, chains[a], i) && Position(chains, a, i);
        if first in chains {
          assert Position(chains, first, |chains[first]| - 1);
        }
      }
    }
  }

  lemma AllocDisjoint(chains: Chains, first: nat, c: nat)
    requires Disjoint(chains) && !InSome(chains, c) && (first == 0 || first in chains) && c !in chains
    ensures Disjoint(AllocChains(chains, first, c))
  {
    var chains' := AllocChains(chains, first, c);
    forall a, i: nat, b, j: nat | Position(chains', a, i) && Position(chains', b, j) && chains'[a][i] == chains'[b][j]
      ensures a == b && i == j
    {
      AllocPosition(chains, first, c, a, i);
      AllocPosition(chains, first, c, b, j);
    }
  }

  lemma AllocPosition(chains: Chains, first: nat, c: nat, a: nat, i: nat)
    requires (first == 0 || first in chains) && c !in chains && Position(AllocChains(chains, first, c), a, i)
    ensures var x := AllocChains(chains, first, c)[a][i];
            (Position(chains, a, i) && x == chains[a][i]) ||
            (x == c && (if first in chains then a == first && i == |chains[first]| else a == c && i == 0))
  {
  }

  lemma AllocCovered(fat: seq<nat>, chains: Chains, first: nat, c: nat, d: nat)
    requires ChainsOk(fat, chains) && 2 <= c < |fat| && 2 <= d < |fat| && c !in chains
    requires first == 0 || first in chains
    requires first in chains ==> 2 <= LastOf(chains[first]) < |fat|
    requires d == c || (first in chains && d == LastOf(chains[first])) || (fat[d] != 0 && fat[d] != BAD)
    ensures InSome(AllocChains(chains, first, c), d)
  {
    var chains' := AllocChains(chains, first, c);
    if d == c {
      if first in chains { assert Position(chains', first, |chains[first]|); } else { assert Position(chains', c, 0); }
    } else if first in chains && d == LastOf(chains[first]) {
      assert Position(chains', first, |chains[first]| - 1);
    } else {
      var a, i: nat :| Position(chains, a, i) && chains[a][i] == d;
      assert Position(chains', a, i) && chains'[a][i] == d;
    }
  }

  // ---------------------------------------------------------------------------
  // Freeing
  // ---------------------------------------------------------------------------

  /** The table after the first `k` clusters of `q` were freed. */
  function FreeFat(fat: seq<nat>, q: seq<nat>, k: nat): (r: seq<nat>)
    requires k <= |q| && forall i :: 0 <= i < |q| ==> q[i] < |fat|
    ensures |r| == |fat|
  {
    if k == 0 then fat else FreeFat(fat, q, k - 1)[q[k - 1] := 0]
  }

  lemma {:induction false} FreeFatAt(fat: seq<nat>, q: seq<nat>, k: nat, c: nat)
    requires k <= |q| && (forall i :: 0 <= i < |q| ==> q[i] < |fat|) && c < |fat|
    ensures FreeFat(fat, q, k)[c] == if c in q[..k] then 0 else fat[c]
  {
    if k > 0 {
      FreeFatAt(fat, q, k - 1, c);
      assert q[..k] == q[..k - 1] + [q[k - 1]];
    }
  }

  /** Freeing a chain zeroes its clusters and leaves every other chain as it was. */
  lemma FreeOk(fat: seq<nat>, chains: Chains, first: nat)
    requires ChainsOk(fat, chains) && |fat| <= BAD && first in chains
    ensures forall i :: 0 <= i < |chains[first]| ==> chains[first][i] < |fat|
    ensures ChainsOk(FreeFat(fat, chains[first], |chains[first]|), chains - {first})
  {
    var q := chains[first];
    forall i | 0 <= i < |q|
      ensures q[i] < |fat|
    {
      assert Linked(fat, q, i);
    }
    var fat', chains' := FreeFat(fat, q, |q|), chains - {first};
    forall a | a in chains'
      ensures Chain(fat', chains'[a]) && chains'[a][0] == a
    {
      FreeOther(fat, chains, first, a);
    }
    FewerDisjoint(chains, first);
    forall c | 2 <= c < |fat'| && fat'[c] != 0 && fat'[c] != BAD
      ensures InSome(chains', c)
    {
      FreeCovered(fat, chains, first, c);
    }
  }

  lemma FewerDisjoint(chains: Chains, first: nat)
    requires Disjoint(chains)
    ensures Disjoint(chains - {first})
  {
    var chains' := chains - {first};
    assert forall a, i: nat :: Position(chains', a, i) ==> Position(chains, a, i) && chains'[a][i] == chains[a][i];
  }

  lemma FreeCovered(fat: seq<nat>, chains: Chains, first: nat, c: nat)
    requires ChainsOk(fat, chains) && first in chains && 2 <= c < |fat|
    requires forall i :: 0 <= i < |chains[first]| ==> chains[first][i] < |fat|
    requires var r := FreeFat(fat, chains[first], |chains[first]|)[c]; r != 0 && r != BAD
    ensures InSome(chains - {first}, c)
  {
    var q, chains' := chains[first], chains - {first};
    FreeFatAt(fat, q, |q|, c);
    assert q[..|q|] == q;
    var a, i: nat :| Position(chains, a, i) && chains[a][i] == c;
    assert Position(chains', a, i) && chains'[a][i] == c;
  }

  lemma FreeOther(fat: seq<nat>, chains: Chains, first: nat, a: nat)
    requires ChainsOk(fat, chains) && first in chains && a in chains && a != first
    requires forall i :: 0 <= i < |chains[first]| ==> chains[first][i] < |fat|
    ensures Chain(FreeFat(fat, chains[first], |chains[first]|), chains[a])
  {
    var q := chains[first];
    var fat' := FreeFat(fat, q, |q|);
    assert q[..|q|] == q;
    forall i | 0 <= i < |chains[a]|
      ensures Linked(fat', chains[a], i)
    {
      assert Linked(fat, chains[a], i);
      FreeFatAt(fat, q, |q|, chains[a][i]);
      NotInOther(chains, first, a, i);
    }
  }

  lemma NotInOther(chains: Chains, first: nat, a: nat, i: nat)
    requires Disjoint(chains) && first in chains && Position(chains, a, i) && a != first
    ensures chains[a][i] !in chains[first]
  {
    forall j | 0 <= j < |chains[first]|
      ensures chains[first][j] != chains[a][i]
    {
      assert Position(chains, first, j);
    }
  }
}
