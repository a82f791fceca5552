/** The order in which the engine keeps its atoms: one block per species, and the gradient's way back. */
module SpeciesOrder {
  import opened Ints
  import opened Permutations

  /** A block of `count` atoms of element `z`. */
  datatype Block = Block(z: int, count: int)

  predicate Sizes(blocks: seq<Block>) {
    forall s :: 0 <= s < |blocks| ==> blocks[s].count >= 0
  }

  /** The atoms of element `e` that the blocks ask for. */
  function Wanted(blocks: seq<Block>, e: int): int {
    if blocks == [] then 0
    else Wanted(blocks[..|blocks| - 1], e) + if blocks[|blocks| - 1].z == e then blocks[|blocks| - 1].count else 0
  }

  /** For every element the blocks ask for as many atoms as there are. */
  ghost predicate Balanced(z: seq<int>, blocks: seq<Block>) {
    Sizes(blocks) && forall e: int :: Wanted(blocks, e) == multiset(z)[e]
  }

  function Need(blocks: seq<Block>): int {
    if blocks == [] then 0 else Need(blocks[..|blocks| - 1]) + blocks[|blocks| - 1].count
  }

  /** The elements slot by slot, as the blocks lay them out. */
  function Layout(blocks: seq<Block>): seq<int>
    requires Sizes(blocks)
  {
    if blocks == [] then []
    else Layout(blocks[..|blocks| - 1]) + seq(blocks[|blocks| - 1].count, i => blocks[|blocks| - 1].z)
  }

  /** The elements of the atoms that a list of atom numbers names. */
  function Picked(z: seq<int>, p: seq<nat>): seq<int>
    requires forall i :: 0 <= i < |p| ==> p[i] < |z|
  {
    seq(|p|, i requires 0 <= i < |p| => z[p[i]])
  }

  predicate DistinctBelow(p: seq<nat>, n: nat) {
    (forall i :: 0 <= i < |p| ==> p[i] < n) && Different(p)
  }

  predicate InOrder(z: seq<int>, p: seq<nat>)
    requires forall i :: 0 <= i < |p| ==> p[i] < |z|
  {
    forall i, j :: 0 <= i < j < |p| && z[p[i]] == z[p[j]] ==> p[i] < p[j]
  }

  /** Block by block distinct atoms of the block's element, and among atoms of one element the lower number first. */
  ghost predicate Listed(z: seq<int>, blocks: seq<Block>, p: seq<nat>) {
    Sizes(blocks) && DistinctBelow(p, |z|) && Picked(z, p) == Layout(blocks) && InOrder(z, p)
  }

  // ----- counting

  lemma {:induction false} LayoutCounts(blocks: seq<Block>, e: int)
    requires Sizes(blocks)
    ensures multiset(Layout(blocks))[e] == Wanted(blocks, e) && |Layout(blocks)| == Need(blocks)
  {
    if blocks != [] {
      var b := blocks[|blocks| - 1];
      LayoutCounts(blocks[..|blocks| - 1], e);
      RunCount(b.count, b.z, e);
    }
  }

  lemma {:induction false} RunCount(n: nat, z: int, e: int)
    ensures multiset(seq(n, i => z))[e] == if z == e then n else 0
  {
    if n > 0 {
      RunCount(n - 1, z, e);
      assert seq(n, i => z) == seq(n - 1, i => z) + [z];
    }
  }

  lemma BalancedLayout(z: seq<int>, blocks: seq<Block>)
    requires Sizes(blocks)
    ensures Balanced(z, blocks) <==> multiset(Layout(blocks)) == multiset(z)
    ensures Balanced(z, blocks) ==> Need(blocks) == |z|
  {
    forall e: int
      ensures multiset(Layout(blocks))[e] == Wanted(blocks, e)
    {
      LayoutCounts(blocks, e);
    }
    LayoutCounts(blocks, 0);
    if Balanced(z, blocks) {
      forall e: int
        ensures multiset(Layout(blocks))[e] == multiset(z)[e]
      {
        assert Wanted(blocks, e) == multiset(z)[e];
      }
      assert multiset(Layout(blocks)) == multiset(z);
    }
    assert |multiset(Layout(blocks))| == |Layout(blocks)| && |multiset(z)| == |z|;
  }

  function AtomsOf(z: seq<int>, e: int): set<nat> {
    set j: nat | j < |z| && z[j] == e
  }

  function PickedOf(z: seq<int>, p: seq<nat>, e: int): set<nat>
    requires forall i :: 0 <= i < |p| ==> p[i] < |z|
  {
    set j: nat | j in p && z[j] == e
  }

  lemma {:induction false} AtomsCount(z: seq<int>, e: int)
    ensures |AtomsOf(z, e)| == multiset(z)[e]
  {
    if z == [] {
      assert AtomsOf(z, e) == {};
    } else {
      var n := |z| - 1;
      AtomsCount(z[..n], e);
      assert z == z[..n] + [z[n]];
      assert AtomsOf(z, e) == AtomsOf(z[..n], e) + if z[n] == e then {n} else {};
    }
  }

  lemma PickedStep(z: seq<int>, q: seq<nat>, a: nat, e: int)
    requires (forall i :: 0 <= i < |q| ==> q[i] < |z|) && a < |z|
    ensures Picked(z, q + [a]) == Picked(z, q) + [z[a]]
    ensures PickedOf(z, q + [a], e) == PickedOf(z, q, e) + if z[a] == e then {a} else {}
  {
  }

  lemma {:induction false} PickedSize(z: seq<int>, p: seq<nat>, e: int)
    requires DistinctBelow(p, |z|)
    ensures |PickedOf(z, p, e)| == multiset(Picked(z, p))[e]
  {
    if p == [] {
      assert PickedOf(z, p, e) == {} && Picked(z, p) == [];
    } else {
      var n := |p| - 1;
      var q := p[..n];
      assert p == q + [p[n]];
      PickedSize(z, q, e);
      PickedStep(z, q, p[n], e);
    }
  }

  /** When no atom of an element is left out, the picked atoms hold all of it. */
  lemma AllPicked(z: seq<int>, p: seq<nat>, e: int)
    requires DistinctBelow(p, |z|) && forall j: nat :: j < |z| && z[j] == e ==> j in p
    ensures multiset(Picked(z, p))[e] == multiset(z)[e]
  {
    AtomsCount(z, e);
    PickedSize(z, p, e);
    assert PickedOf(z, p, e) == AtomsOf(z, e);
  }

  // ----- placing the atoms

  /** What the loops keep: the atoms placed so far, and no smaller atom of their elements left behind. */
  ghost predicate Placed(z: seq<int>, p: seq<nat>, blocks: seq<Block>) {
    && Listed(z, blocks, p)
    && (forall i: nat, j: nat :: i < |p| && j < |z| && j !in p && z[j] == z[p[i]] ==> p[i] < j)
  }

  /** One more atom of the last block: the first free one of its element. */
  lemma PlaceOne(z: seq<int>, p: seq<nat>, blocks: seq<Block>, b: Block, j: nat)
    requires Placed(z, p, blocks + [b]) && j < |z| && j !in p && z[j] == b.z
    requires forall k: nat :: k < j && z[k] == b.z ==> k in p
    ensures Placed(z, p + [j], blocks + [b.(count := b.count + 1)])
  {
    hide Layout;
    var q := p + [j];
    assert b.count >= 0 by {
      assert (blocks + [b])[|blocks|] == b;
    }
    hide InOrder;
    hide Different;
    LayoutMore(blocks, b);
    assert Picked(z, q) == Picked(z, p) + [z[j]];
    InOrderMore(z, p, j);
    DifferentMore(p, j);
    forall i: nat, k: nat | i < |q| && k < |z| && k !in q && z[k] == z[q[i]]
      ensures q[i] < k
    {
      assert j in q && forall m :: m in p ==> m in q;
      assert i < |p| ==> q[i] == p[i];
    }
  }

  lemma InOrderMore(z: seq<int>, p: seq<nat>, j: nat)
    requires (forall i :: 0 <= i < |p| ==> p[i] < |z|) && j < |z| && InOrder(z, p)
    requires forall i :: 0 <= i < |p| && z[p[i]] == z[j] ==> p[i] < j
    ensures InOrder(z, p + [j])
  {
  }

  lemma DifferentMore(p: seq<nat>, j: nat)
    requires Different(p) && j !in p
    ensures Different(p + [j])
  {
    assert forall i :: 0 <= i < |p| ==> p[i] in p;
  }

  lemma LayoutMore(blocks: seq<Block>, b: Block)
    requires Sizes(blocks + [b]) && b.count >= 0
    ensures Sizes(blocks + [b.(count := b.count + 1)])
    ensures Layout(blocks + [b.(count := b.count + 1)]) == Layout(blocks + [b]) + [b.z]
  {
    var b' := b.(count := b.count + 1);
    assert forall s :: 0 <= s < |blocks| ==> (blocks + [b])[s] == blocks[s] && (blocks + [b'])[s] == blocks[s];
    assert (blocks + [b])[..|blocks|] == blocks && (blocks + [b'])[..|blocks|] == blocks;
    assert seq(b'.count, i => b.z) == seq(b.count, i => b.z) + [b.z];
  }

  lemma LayoutNone(blocks: seq<Block>, e: int)
    requires Sizes(blocks)
    ensures Sizes(blocks + [Block(e, 0)]) && Layout(blocks + [Block(e, 0)]) == Layout(blocks)
  {
    assert (blocks + [Block(e, 0)])[..|blocks|] == blocks;
    assert Layout(blocks) + seq(0, i => e) == Layout(blocks);
  }

  lemma {:induction false} WantedMore(blocks: seq<Block>, k: nat, e: int)
    requires Sizes(blocks) && k <= |blocks|
    ensures Wanted(blocks[..k], e) <= Wanted(blocks, e)
    decreases |blocks|
  {
    if k < |blocks| {
      assert blocks[..|blocks| - 1][..k] == blocks[..k];
      WantedMore(blocks[..|blocks| - 1], k, e);
    } else {
      assert blocks[..k] == blocks;
    }
  }

  /** A block that runs out of atoms asks for more than there are. */
  lemma RunsOut(z: seq<int>, p: seq<nat>, blocks: seq<Block>, s: nat, taken: nat)
    requires Sizes(blocks) && s < |blocks| && taken < blocks[s].count
    requires Listed(z, blocks[..s] + [Block(blocks[s].z, taken)], p)
    requires forall j: nat :: j < |z| && z[j] == blocks[s].z ==> j in p
    ensures !Balanced(z, blocks)
  {
    var e, sofar := blocks[s].z, blocks[..s] + [Block(blocks[s].z, taken)];
    AllPicked(z, p, e);
    LayoutCounts(sofar, e);
    assert sofar[..s] == blocks[..s] && blocks[..s + 1][..s] == blocks[..s];
    WantedMore(blocks, s + 1, e);
  }

  lemma AllPlaced(z: seq<int>, p: seq<nat>, blocks: seq<Block>)
    requires Listed(z, blocks, p) && |p| == |z|
    ensures Perm(p, |z|) && Balanced(z, blocks)
  {
    PermMultiset(p, z, Picked(z, p));
    BalancedLayout(z, blocks);
  }

  /** The total of the counts, as far as it stays an `int`. */
  method Total(blocks: seq<Block>) returns (need: int, ok: bool)
    ensures ok ==> Sizes(blocks) && need == Need(blocks)
    ensures !ok ==> !Sizes(blocks) || Need(blocks) > INT_MAX
  {
    need := 0;
    var s := 0;
    while s < |blocks|
      invariant 0 <= s <= |blocks| && need == Need(blocks[..s]) && 0 <= need <= INT_MAX && Sizes(blocks[..s])
    {
      assert blocks[..s + 1][..s] == blocks[..s];
      if blocks[s].count < 0 || need > INT_MAX - blocks[s].count {
        if Sizes(blocks) {
          NeedMore(blocks, s + 1);
        }
        return need, false;
      }
      need := need + blocks[s].count;
      s := s + 1;
    }
    assert blocks[..s] == blocks;
    return need, true;
  }

  lemma {:induction false} NeedMore(blocks: seq<Block>, k: nat)
    requires Sizes(blocks) && k <= |blocks|
    ensures Need(blocks[..k]) <= Need(blocks)
    decreases |blocks|
  {
    if k < |blocks| {
      assert blocks[..|blocks| - 1][..k] == blocks[..k];
      NeedMore(blocks[..|blocks| - 1], k);
    } else {
      assert blocks[..k] == blocks;
    }
  }

  /** `cpmdc_species_order_map`: it succeeds exactly when every element is asked for as often as it
      occurs, and then lists each block's atoms in increasing order. */
  method SpeciesOrderMap(z: seq<int>, blocks: seq<Block>, mapOut: array<nat>) returns (err: int)
    requires mapOut.Length == |z| <= INT_MAX
    modifies mapOut
    ensures err == 0 || err == -1
    ensures err == 0 <==> |z| > 0 && |blocks| > 0 && Balanced(z, blocks)
    ensures err == 0 ==> Perm(mapOut[..], |z|) && Listed(z, blocks, mapOut[..])
  {
    hide Layout;
    hide Listed;
    hide Balanced;
    if |z| == 0 || |blocks| == 0 {
      return -1;
    }
    var need, ok := Total(blocks);
    BalancedSizes(z, blocks);
    if !ok || need != |z| {
      return -1;
    }
    var used := new bool[|z|](_ => false);
    var slot, s := 0, 0;
    NothingPlaced(z);
    assert blocks[..0] == [] && mapOut[..0] == [];
    while s < |blocks|
      invariant 0 <= s <= |blocks| && 0 <= slot <= |z| && Placed(z, mapOut[..slot], blocks[..s])
      invariant forall j: nat :: j < |z| ==> (used[j] <==> j in mapOut[..slot])
    {
      var taken, j := 0, 0;
      ghost var b := Block(blocks[s].z, 0);
      StartBlock(z, mapOut[..slot], blocks[..s], blocks[s].z);
      while j < |z| && taken < blocks[s].count
        invariant 0 <= j <= |z| && 0 <= slot <= |z| && 0 <= taken <= blocks[s].count
        invariant Placed(z, mapOut[..slot], blocks[..s] + [Block(blocks[s].z, taken)])
        invariant forall k: nat :: k < |z| ==> (used[k] <==> k in mapOut[..slot])
        invariant forall k: nat :: k < j && z[k] == blocks[s].z ==> k in mapOut[..slot]
      {
        if !used[j] && z[j] == blocks[s].z {
          ghost var p := mapOut[..slot];
          PlaceOne(z, p, blocks[..s], Block(blocks[s].z, taken), j);
          RoomLeft(z, p + [j], blocks[..s] + [Block(blocks[s].z, taken + 1)]);
          used[j] := true;
          mapOut[slot] := j;
          slot := slot + 1;
          taken := taken + 1;
          assert mapOut[..slot] == p + [j];
        }
        j := j + 1;
      }
      if taken != blocks[s].count {
        RunsOut(z, mapOut[..slot], blocks, s, taken);
        return -1;
      }
      assert blocks[..s + 1] == blocks[..s] + [Block(blocks[s].z, taken)];
      s := s + 1;
    }
    assert blocks[..s] == blocks;
    PlacedAll(z, mapOut[..slot], blocks);
    AllPlaced(z, mapOut[..slot], blocks);
    assert mapOut[..slot] == mapOut[..];
    return 0;
  }

  lemma BalancedSizes(z: seq<int>, blocks: seq<Block>)
    ensures Balanced(z, blocks) ==> Sizes(blocks) && Need(blocks) == |z|
  {
    if Sizes(blocks) {
      BalancedLayout(z, blocks);
    }
  }

  lemma NothingPlaced(z: seq<int>)
    ensures Placed(z, [], [])
  {
  }

  lemma StartBlock(z: seq<int>, p: seq<nat>, blocks: seq<Block>, e: int)
    requires Placed(z, p, blocks)
    ensures Placed(z, p, blocks + [Block(e, 0)])
  {
    LayoutNone(blocks, e);
  }

  lemma RoomLeft(z: seq<int>, p: seq<nat>, blocks: seq<Block>)
    requires Placed(z, p, blocks)
    ensures |p| <= |z|
  {
    Pigeonhole(p, |z|);
  }

  lemma PlacedAll(z: seq<int>, p: seq<nat>, blocks: seq<Block>)
    requires Placed(z, p, blocks) && Need(blocks) == |z|
    ensures Listed(z, blocks, p) && |p| == |z|
  {
    LayoutCounts(blocks, 0);
    assert |Picked(z, p)| == |p|;
  }

  // ----- scattering the gradient

  /** The last slot below `n` that maps to atom `a`, or `n` if none does. */
  function LastSlot(p: seq<int>, n: nat, a: int): nat
    requires n <= |p|
    decreases n
  {
    if n == 0 then |p| else if p[n - 1] == a then n - 1 else LastSlot(p, n - 1, a)
  }

  lemma {:induction false} LastSlotIs(p: seq<int>, n: nat, a: int)
    requires n <= |p|
    ensures var s := LastSlot(p, n, a); s == |p| || (s < n && p[s] == a)
    ensures LastSlot(p, n, a) == |p| ==> forall i :: 0 <= i < n ==> p[i] != a
  {
    if n > 0 && p[n - 1] != a {
      LastSlotIs(p, n - 1, a);
    }
  }

  /** The three components of row `i`. */
  function Row(s: seq<real>, i: nat): (real, real, real)
    requires 3 * i + 2 < |s|
  {
    (s[3 * i], s[3 * i + 1], s[3 * i + 2])
  }

  /** The row that atom `a` ends up with. */
  function Landed(p: seq<int>, n: nat, species: seq<real>, was: seq<real>, a: nat): (real, real, real)
    requires |species| == |was| == 3 * |p| && a < |p| && n <= |p|
  {
    LastSlotIs(p, n, a);
    var s := LastSlot(p, n, a);
    if s < |p| then Row(species, s) else Row(was, a)
  }

  /** `cpmdc_scatter_species_gradient`: every atom gets the row of the last slot that names it. */
  method Scatter(p: seq<int>, species: seq<real>, grad: array<real>)
    requires |species| == grad.Length == 3 * |p|
    modifies grad
    ensures forall a: nat :: a < |p| ==> Row(grad[..], a) == Landed(p, |p|, species, old(grad[..]), a)
  {
    ghost var was := grad[..];
    var slot := 0;
    while slot < |p|
      invariant 0 <= slot <= |p|
      invariant forall a: nat :: a < |p| ==> Row(grad[..], a) == Landed(p, slot, species, was, a)
    {
      var atom := p[slot];
      ghost var now := grad[..];
      if 0 <= atom < |p| {
        var k := 0;
        while k < 3
          invariant 0 <= k <= 3
          invariant forall i :: 0 <= i < |now| ==>
                      grad[i] == if 3 * atom <= i < 3 * atom + k then species[3 * slot + (i - 3 * atom)] else now[i]
        {
          grad[3 * atom + k] := species[3 * slot + k];
          k := k + 1;
        }
      }
      forall a: nat | a < |p|
        ensures Row(grad[..], a) == Landed(p, slot + 1, species, was, a)
      {
        assert Row(now, a) == Landed(p, slot, species, was, a);
      }
      slot := slot + 1;
    }
  }

  /** Where the numbers of the scattered gradient come from: from the last slot that names the atom, and from
      the array itself for an atom that no slot names. */
  lemma ScatteredNumbers(p: seq<int>, species: seq<real>, was: seq<real>, now: seq<real>, a: nat)
    requires |species| == |was| == |now| == 3 * |p| && a < |p|
    requires Row(now, a) == Landed(p, |p|, species, was, a)
    ensures a !in p ==>
              now[3 * a] == was[3 * a] && now[3 * a + 1] == was[3 * a + 1] && now[3 * a + 2] == was[3 * a + 2]
    ensures forall slot: nat :: slot < |p| && p[slot] == a && (forall j :: slot < j < |p| ==> p[j] != a) ==>
              && now[3 * a] == species[3 * slot]
              && now[3 * a + 1] == species[3 * slot + 1]
              && now[3 * a + 2] == species[3 * slot + 2]
  {
    LastSlotIs(p, |p|, a);
    forall slot: nat | slot < |p| && p[slot] == a && (forall j :: slot < j < |p| ==> p[j] != a)
      ensures LastSlot(p, |p|, a) == slot
    {
      LastSlotLate(p, |p|, a, slot);
    }
  }

  lemma {:induction false} LastSlotLate(p: seq<int>, n: nat, a: int, slot: nat)
    requires slot < n <= |p| && p[slot] == a
    ensures slot <= LastSlot(p, n, a) < n
  {
    if p[n - 1] != a {
      LastSlotLate(p, n - 1, a, slot);
    }
  }

  /** With a permutation every row is written once, and gathering along the map undoes the scatter. */
  lemma ScatterGather(p: seq<nat>, species: seq<real>, was: seq<real>, i: nat)
    requires Perm(p, |p|) && |species| == |was| == 3 * |p| && i < |p|
    ensures Landed(p, |p|, species, was, p[i]) == Row(species, i)
      == (species[3 * i], species[3 * i + 1], species[3 * i + 2])
    ensures exists slot: nat :: slot < |p| && p[slot] == i && Landed(p, |p|, species, was, i) == Row(species, slot)
  {
    LastSlotIs(p, |p|, p[i]);
    LastSlotIs(p, |p|, i);
    var slot := Hits(p, |p|, i);
    assert Landed(p, |p|, species, was, i) == Row(species, slot);
  }
}
