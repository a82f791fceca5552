/** Adopting a calculator communicator: the ranks of a group agree by one reduction on whether they are
    an aligned block of the world, and all of them store the handle or none does. */
module Adopt {
  import opened Permutations

  /** What one rank holds: its place in the world, whether a session is live, and the stored handle. */
  class Rank {
    const world: nat
    var live: bool
    var have: bool
    var comm: int

    constructor (world: nat)
      ensures this.world == world && !live && !have
    {
      this.world := world;
      live, have, comm := false, false, 0;
    }
  }

  /** The world ranks of a group, in the order of the group's own ranks. */
  ghost function Worlds(group: seq<Rank>): seq<nat> {
    seq(|group|, i requires 0 <= i < |group| => group[i].world)
  }

  /** The ranks `q * k` up to `q * k + k`, and no others. */
  ghost predicate IsBlock(s: seq<nat>, q: nat, k: nat) {
    |s| == k && forall r: nat :: r in s <==> q * k <= r < q * k + k
  }

  ghost predicate Spans(s: seq<nat>, lo: int, hi: int) {
    lo in s && hi in s && forall r :: r in s ==> lo <= r <= hi
  }

  ghost function Above(s: seq<nat>, lo: nat): (t: seq<nat>)
    requires forall i :: 0 <= i < |s| ==> lo <= s[i]
    ensures |t| == |s| && forall i :: 0 <= i < |s| ==> t[i] == s[i] - lo
  {
    seq(|s|, i requires 0 <= i < |s| => s[i] - lo)
  }

  lemma InSpan(s: seq<nat>, lo: nat, hi: nat)
    requires Spans(s, lo, hi)
    ensures forall i :: 0 <= i < |s| ==> lo <= s[i] <= hi
  {
    forall i | 0 <= i < |s|
      ensures lo <= s[i] <= hi
    {
      assert s[i] in s;
    }
  }

  /** Distinct ranks that fill their own span are all of it. */
  lemma FullSpan(s: seq<nat>, lo: nat, hi: nat)
    requires |s| > 0 && Different(s) && Spans(s, lo, hi) && hi - lo + 1 == |s|
    ensures forall r: nat :: r in s <==> lo <= r <= hi
  {
    InSpan(s, lo, hi);
    var t := Above(s, lo);
    Pigeonhole(t, |s|);
    forall r: nat | lo <= r <= hi
      ensures r in s
    {
      var n: nat := r - lo;
      assert n in t;
      var i :| 0 <= i < |t| && t[i] == n;
      assert s[i] == r;
    }
  }

  lemma Multiples(lo: nat, k: nat)
    requires k > 0
    ensures lo % k == 0 ==> lo / k * k == lo
    ensures forall q: nat :: lo == q * k ==> lo % k == 0 && lo / k == q
  {
    forall q: nat | lo == q * k
      ensures lo % k == 0 && lo / k == q
    {
      Quotient(q, k, lo / k, lo % k);
    }
  }

  lemma Quotient(q: nat, k: nat, a: nat, r: nat)
    requires q * k == a * k + r && r < k
    ensures q == a && r == 0
  {
    if q > a {
      Gap(a, q, k);
    } else if q < a {
      Gap(q, a, k);
    }
  }

  lemma {:induction false} Gap(a: nat, b: nat, k: nat)
    requires a < b
    ensures a * k + k <= b * k
    decreases b
  {
    assert (b - 1) * k + k == b * k;
    if a + 1 < b {
      Gap(a, b - 1, k);
    }
  }

  /** A block starts and ends where its least and greatest rank say. */
  lemma BlockSpan(s: seq<nat>, lo: nat, hi: nat, q: nat)
    requires |s| > 0 && Spans(s, lo, hi) && IsBlock(s, q, |s|)
    ensures lo == q * |s| && hi == q * |s| + |s| - 1
  {
    assert q * |s| in s && q * |s| + |s| - 1 in s;
  }

  /** The test on least and greatest rank finds exactly the aligned blocks. */
  lemma AlignedIff(s: seq<nat>, lo: nat, hi: nat)
    requires |s| > 0 && Different(s) && Spans(s, lo, hi)
    ensures hi - lo + 1 == |s| && lo % |s| == 0 ==> IsBlock(s, lo / |s|, |s|)
    ensures (exists q: nat :: IsBlock(s, q, |s|)) ==> hi - lo + 1 == |s| && lo % |s| == 0
  {
    Multiples(lo, |s|);
    if hi - lo + 1 == |s| && lo % |s| == 0 {
      FullSpan(s, lo, hi);
    }
    if q: nat :| IsBlock(s, q, |s|) {
      hide IsBlock;
      BlockSpan(s, lo, hi, q);
    }
  }

  /** What a rank brings to the reduction. */
  datatype Vote = Vote(low: int, high: int, live: int)

  function VoteOf(world: nat, live: bool): Vote {
    Vote(0 - world, world, if live then 1 else 0)
  }

  predicate IsMax(votes: seq<Vote>, v: Vote) {
    && (forall i :: 0 <= i < |votes| ==> votes[i].low <= v.low && votes[i].high <= v.high && votes[i].live <= v.live)
    && (exists i :: 0 <= i < |votes| && votes[i].low == v.low)
    && (exists i :: 0 <= i < |votes| && votes[i].high == v.high)
    && (exists i :: 0 <= i < |votes| && votes[i].live == v.live)
  }

  /** `MPI_Allreduce` with `MPI_MAX` on three integers. */
  method AllReduceMax(votes: seq<Vote>) returns (v: Vote)
    requires |votes| > 0
    ensures IsMax(votes, v)
  {
    hide IsMax;
    v := votes[0];
    var i := 1;
    MaxOne(votes);
    while i < |votes|
      invariant 1 <= i <= |votes| && IsMax(votes[..i], v)
    {
      var w := votes[i];
      ghost var before := v;
      v := Vote(if w.low > v.low then w.low else v.low, if w.high > v.high then w.high else v.high,
                if w.live > v.live then w.live else v.live);
      MaxMore(votes[..i], before, w, v);
      assert votes[..i + 1] == votes[..i] + [w];
      i := i + 1;
    }
    assert votes[..i] == votes;
  }

  lemma MaxOne(votes: seq<Vote>)
    requires |votes| > 0
    ensures IsMax(votes[..1], votes[0])
  {
    assert votes[..1][0] == votes[0];
  }

  lemma MaxMore(votes: seq<Vote>, v: Vote, w: Vote, m: Vote)
    requires IsMax(votes, v)
    requires m == Vote(if w.low > v.low then w.low else v.low, if w.high > v.high then w.high else v.high,
                       if w.live > v.live then w.live else v.live)
    ensures IsMax(votes + [w], m)
  {
    var all := votes + [w];
    var a :| 0 <= a < |votes| && votes[a].low == v.low;
    var b :| 0 <= b < |votes| && votes[b].high == v.high;
    var c :| 0 <= c < |votes| && votes[c].live == v.live;
    assert all[|votes|] == w && all[a] == votes[a] && all[b] == votes[b] && all[c] == votes[c];
  }

  /** What every rank of a group concludes: the calculator index, or refusal. */
  function Verdict(size: nat, ranksPerCalc: int, v: Vote): int
    requires size > 0
  {
    if ranksPerCalc > 0 && size != ranksPerCalc then -1
    else if v.live > 0 then -1
    else if v.high + v.low + 1 != size || -v.low % size != 0 then -1
    else -v.low / size
  }

  ghost predicate NoneLive(group: seq<Rank>)
    reads group
  {
    forall i :: 0 <= i < |group| ==> !group[i].live
  }

  method Votes(group: seq<Rank>) returns (votes: seq<Vote>)
    ensures |votes| == |group|
    ensures forall i :: 0 <= i < |group| ==> votes[i] == VoteOf(group[i].world, group[i].live)
  {
    votes := [];
    var i := 0;
    while i < |group|
      invariant 0 <= i <= |group| == |group| && |votes| == i
      invariant forall j :: 0 <= j < i ==> votes[j] == VoteOf(group[j].world, group[j].live)
    {
      votes := votes + [VoteOf(group[i].world, group[i].live)];
      i := i + 1;
    }
  }

  lemma VerdictIs(worlds: seq<nat>, lives: seq<bool>, votes: seq<Vote>, v: Vote, ranksPerCalc: int)
    requires |worlds| == |votes| == |lives| > 0 && Different(worlds) && IsMax(votes, v)
    requires forall i :: 0 <= i < |votes| ==> votes[i] == VoteOf(worlds[i], lives[i])
    ensures var q := Verdict(|worlds|, ranksPerCalc, v);
      && (q == -1 || (q >= 0 && IsBlock(worlds, q, |worlds|)))
      && (q >= 0 <==> (ranksPerCalc <= 0 || ranksPerCalc == |worlds|) && (forall i :: 0 <= i < |lives| ==> !lives[i])
                      && exists q: nat :: IsBlock(worlds, q, |worlds|))
  {
    hide IsBlock;
    hide Different;
    hide IsMax;
    VotesSpan(worlds, lives, votes, v);
    AlignedIff(worlds, 0 - v.low, v.high);
    assert 0 - v.low >= 0 && (0 - v.low) / |worlds| >= 0;
  }

  lemma VotesSpan(worlds: seq<nat>, lives: seq<bool>, votes: seq<Vote>, v: Vote)
    requires |worlds| == |votes| == |lives| > 0 && IsMax(votes, v)
    requires forall i :: 0 <= i < |votes| ==> votes[i] == VoteOf(worlds[i], lives[i])
    ensures v.low <= 0 <= v.high && Spans(worlds, 0 - v.low, v.high)
    ensures v.live > 0 <==> exists i :: 0 <= i < |lives| && lives[i]
  {
    var a :| 0 <= a < |votes| && votes[a].low == v.low;
    var b :| 0 <= b < |votes| && votes[b].high == v.high;
    var c :| 0 <= c < |votes| && votes[c].live == v.live;
    assert worlds[a] == 0 - v.low && worlds[b] == v.high;
    forall r | r in worlds
      ensures 0 - v.low <= r <= v.high
    {
      var i :| 0 <= i < |worlds| && worlds[i] == r;
      assert votes[i].low <= v.low;
    }
    if v.live > 0 {
      assert lives[c];
    } else {
      assert forall i :: 0 <= i < |lives| ==> votes[i].live <= v.live;
    }
  }

  /** `cpmdc_adopt_calculator_comm` on all ranks of one group: one verdict for all, and the handle is
      stored on all of them or on none. */
  method AdoptGroup(group: seq<Rank>, comm: int, ranksPerCalc: int) returns (index: int)
    requires |group| > 0 && Different(Worlds(group))
      && (forall i, j :: 0 <= i < j < |group| ==> group[i] != group[j])
    modifies group
    ensures index >= 0 <==> (ranksPerCalc <= 0 || ranksPerCalc == |group|) && old(NoneLive(group))
                            && exists q: nat :: IsBlock(Worlds(group), q, |group|)
    ensures index == -1 || (index >= 0 && IsBlock(Worlds(group), index, |group|))
    ensures forall i :: 0 <= i < |group| ==>
      && group[i].live == old(group[i].live)
      && if index >= 0 then group[i].have && group[i].comm == comm
         else group[i].have == old(group[i].have) && group[i].comm == old(group[i].comm)
  {
    hide Verdict;
    hide IsMax;
    hide IsBlock;
    hide Different;
    var votes := Votes(group);
    var v := AllReduceMax(votes);
    ghost var lives := seq(|group|, i requires 0 <= i < |group| reads group => group[i].live);
    VerdictIs(Worlds(group), lives, votes, v, ranksPerCalc);
    index := Verdict(|group|, ranksPerCalc, v);
    if index < 0 {
      return;
    }
    var i := 0;
    while i < |group|
      invariant 0 <= i <= |group|
      invariant forall j :: 0 <= j < |group| ==> group[j].live == old(group[j].live)
      invariant forall j :: 0 <= j < i ==> group[j].have && group[j].comm == comm
    {
      group[i].comm := comm;
      group[i].have := true;
      i := i + 1;
    }
  }

  // ----- the whole world

  ghost function Flatten(groups: seq<seq<nat>>): seq<nat> {
    if groups == [] then [] else groups[0] + Flatten(groups[1..])
  }

  lemma {:induction false} FlattenSize(groups: seq<seq<nat>>, k: nat)
    requires forall g :: 0 <= g < |groups| ==> |groups[g]| == k
    ensures |Flatten(groups)| == |groups| * k
  {
    if groups != [] {
      FlattenSize(groups[1..], k);
    }
  }

  /** Where rank `i` of group `g` stands in the list of all groups. */
  lemma {:induction false} FlattenAt(groups: seq<seq<nat>>, k: nat, g: nat, i: nat)
    requires (forall h :: 0 <= h < |groups| ==> |groups[h]| == k) && g < |groups| && i < k
    ensures g * k + i < |Flatten(groups)| && Flatten(groups)[g * k + i] == groups[g][i]
  {
    FlattenSize(groups, k);
    if g > 0 {
      FlattenAt(groups[1..], k, g - 1, i);
      assert (g - 1) * k + k == g * k;
    }
  }

  lemma SlotsDiffer(k: nat, g: nat, i: nat, h: nat, j: nat)
    requires i < k && j < k && g * k + i == h * k + j
    ensures g == h
  {
    if g > h {
      Gap(h, g, k);
    } else if h > g {
      Gap(g, h, k);
    }
  }

  /** If the world is cut into groups of one size and every one of them adopts, their indices are
      exactly 0 up to the number of groups, each once. */
  lemma IndicesCover(groups: seq<seq<nat>>, k: nat, world: nat, index: seq<nat>)
    requires k > 0 && |index| == |groups| && (forall g :: 0 <= g < |groups| ==> |groups[g]| == k)
    requires Perm(Flatten(groups), world)
    requires forall g :: 0 <= g < |groups| ==> IsBlock(groups[g], index[g], k)
    ensures Perm(index, |groups|) && world == |groups| * k
  {
    FlattenSize(groups, k);
    forall g | 0 <= g < |groups|
      ensures index[g] < |groups|
    {
      InWorld(groups, k, world, g, index[g]);
      if index[g] > |groups| {
        Gap(|groups|, index[g], k);
      }
    }
    forall g, h | 0 <= g < h < |groups|
      ensures index[g] != index[h]
    {
      if index[g] == index[h] {
        SharedRank(groups, k, world, g, h, index[g]);
      }
    }
  }

  lemma InWorld(groups: seq<seq<nat>>, k: nat, world: nat, g: nat, q: nat)
    requires k > 0 && (forall h :: 0 <= h < |groups| ==> |groups[h]| == k) && Perm(Flatten(groups), world)
    requires g < |groups| && IsBlock(groups[g], q, k)
    ensures q * k < world
  {
    assert q * k in groups[g];
    var i :| 0 <= i < k && groups[g][i] == q * k;
    FlattenAt(groups, k, g, i);
  }

  lemma SharedRank(groups: seq<seq<nat>>, k: nat, world: nat, g: nat, h: nat, q: nat)
    requires k > 0 && (forall h :: 0 <= h < |groups| ==> |groups[h]| == k) && Perm(Flatten(groups), world)
    requires g < |groups| && h < |groups| && IsBlock(groups[g], q, k) && IsBlock(groups[h], q, k)
    ensures g == h
  {
    assert q * k in groups[g] && q * k in groups[h];
    var i :| 0 <= i < k && groups[g][i] == q * k;
    var j :| 0 <= j < k && groups[h][j] == q * k;
    FlattenAt(groups, k, g, i);
    FlattenAt(groups, k, h, j);
    SlotsDiffer(k, g, i, h, j);
  }
}
