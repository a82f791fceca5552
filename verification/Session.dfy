/** The session of cpmdc.c: a topology guard, a cached result that is reused for the same atoms in any
    order, and a method that is fixed with the topology.  Coordinates are reals. */
module SessionCache {
  import opened Ints
  import opened Options
  import opened Permutations

  type Vec = (real, real, real)

  /** The tolerance of every comparison, in Angstrom. */
  const TOLERANCE: real := 0.00000001

  /** One step's atoms; the cell is three vectors or absent. */
  datatype Geometry = Geometry(z: seq<int>, pos: seq<Vec>, cell: Option<(Vec, Vec, Vec)>)

  predicate GeometryOk(g: Geometry) {
    |g.z| == |g.pos|
  }

  function AbsR(x: real): real {
    if x < 0.0 then -x else x
  }

  predicate Near(x: real, y: real) {
    AbsR(x - y) <= TOLERANCE
  }

  /** `coords_differ`, negated. */
  predicate Close(a: Vec, b: Vec) {
    Near(a.0, b.0) && Near(a.1, b.1) && Near(a.2, b.2)
  }

  /** `cell_differs`, negated. */
  predicate SameCell(a: Option<(Vec, Vec, Vec)>, b: Option<(Vec, Vec, Vec)>) {
    match (a, b)
    case (None, None) => true
    case (Some(x), Some(y)) => Close(x.0, y.0) && Close(x.1, y.1) && Close(x.2, y.2)
    case _ => false
  }

  // ----- element counts

  predicate Element(z: int) {
    1 <= z <= 118
  }

  predicate Elements(zs: seq<int>) {
    forall i :: 0 <= i < |zs| ==> Element(zs[i])
  }

  /** The same number of atoms of every element, all of them real elements. */
  predicate SameAtoms(left: seq<int>, right: seq<int>) {
    Elements(left) && Elements(right) && multiset(left) == multiset(right)
  }

  ghost predicate Counted(counts: seq<int>, left: multiset<int>, right: multiset<int>) {
    |counts| == 119 && forall e :: 0 <= e < 119 ==> counts[e] >= 0 && counts[e] + right[e] == left[e]
  }

  /** How often each element occurs; nothing for a number that is none. */
  method CountUp(left: seq<int>) returns (counts: array<int>, ok: bool)
    ensures ok <==> Elements(left)
    ensures fresh(counts) && (ok ==> Counted(counts[..], multiset(left), multiset{}))
  {
    counts := new int[119](_ => 0);
    var i := 0;
    while i < |left|
      invariant 0 <= i <= |left| && Elements(left[..i])
      invariant Counted(counts[..], multiset(left[..i]), multiset{})
    {
      if left[i] < 1 || left[i] > 118 {
        return counts, false;
      }
      counts[left[i]] := counts[left[i]] + 1;
      assert left[..i + 1] == left[..i] + [left[i]];
      i := i + 1;
    }
    assert left[..i] == left;
    return counts, true;
  }

  /** `element_counts_match`: it counts up and down and looks for a negative count only. */
  method ElementCountsMatch(left: seq<int>, right: seq<int>) returns (same: bool)
    requires |left| == |right|
    ensures same <==> SameAtoms(left, right)
  {
    var counts, ok := CountUp(left);
    if !ok {
      return false;
    }
    var i := 0;
    while i < |right|
      invariant 0 <= i <= |right| && Elements(right[..i])
      invariant Counted(counts[..], multiset(left), multiset(right[..i]))
    {
      if right[i] < 1 || right[i] > 118 {
        return false;
      }
      counts[right[i]] := counts[right[i]] - 1;
      assert right[..i + 1] == right[..i] + [right[i]];
      if counts[right[i]] < 0 {
        TooMany(left, right, i);
        return false;
      }
      i := i + 1;
    }
    assert right[..i] == right;
    NoneMissing(left, right);
    return true;
  }

  lemma TooMany(left: seq<int>, right: seq<int>, i: nat)
    requires i < |right| && multiset(right[..i + 1])[right[i]] > multiset(left)[right[i]]
    ensures multiset(left) != multiset(right)
  {
    assert right == right[..i + 1] + right[i + 1..];
    assert multiset(right)[right[i]] >= multiset(right[..i + 1])[right[i]];
  }

  /** With equally many atoms, no element short on one side means none short on the other. */
  lemma NoneMissing(left: seq<int>, right: seq<int>)
    requires |left| == |right| && Elements(right)
    requires forall e :: 0 <= e < 119 ==> multiset(left)[e] >= multiset(right)[e]
    ensures multiset(left) == multiset(right)
  {
    assert multiset(right) <= multiset(left) by {
      forall e: int
        ensures multiset(right)[e] <= multiset(left)[e]
      {
        if multiset(right)[e] > 0 {
          assert e in right;
        }
      }
    }
    assert multiset(left) == multiset(right) + (multiset(left) - multiset(right));
    assert |multiset(left) - multiset(right)| == 0;
  }

  // ----- the cached result

  datatype Cache = Cache(geom: Geometry, energy: real, grad: seq<Vec>)

  predicate CacheOk(c: Cache) {
    GeometryOk(c.geom) && |c.grad| == |c.geom.z|
  }

  /** Atom `i` of `g` is atom `p[i]` of `g0`, up to the tolerance. */
  predicate Matches(g0: Geometry, g: Geometry, p: seq<nat>)
    requires GeometryOk(g0) && GeometryOk(g)
  {
    && Perm(p, |g.z|) && |g0.z| == |g.z| && SameCell(g0.cell, g.cell)
    && forall i :: 0 <= i < |g.z| ==> g0.z[p[i]] == g.z[i] && Close(g0.pos[p[i]], g.pos[i])
  }

  function Reordered(grad: seq<Vec>, p: seq<nat>): seq<Vec>
    requires forall i :: 0 <= i < |p| ==> p[i] < |grad|
  {
    seq(|p|, i requires 0 <= i < |p| => grad[p[i]])
  }

  predicate Candidate(c: Cache, g: Geometry, taken: seq<nat>, i: nat, j: nat)
    requires CacheOk(c) && GeometryOk(g) && i < |g.z| && j < |c.geom.z|
  {
    j !in taken && c.geom.z[j] == g.z[i] && Close(c.geom.pos[j], g.pos[i])
  }

  /** The first free stored atom that atom `i` can be. */
  function FirstCandidate(c: Cache, g: Geometry, taken: seq<nat>, i: nat, from: nat): (j: nat)
    requires CacheOk(c) && GeometryOk(g) && i < |g.z| && from <= |c.geom.z|
    ensures from <= j <= |c.geom.z| && (j < |c.geom.z| ==> Candidate(c, g, taken, i, j))
    ensures forall k: nat :: from <= k < j ==> !Candidate(c, g, taken, i, k)
    decreases |c.geom.z| - from
  {
    if from == |c.geom.z| || Candidate(c, g, taken, i, from) then from else FirstCandidate(c, g, taken, i, from + 1)
  }

  /** The greedy match from atom `|taken|` on. */
  function Greedy(c: Cache, g: Geometry, taken: seq<nat>): Option<seq<nat>>
    requires CacheOk(c) && GeometryOk(g) && |taken| <= |g.z|
    decreases |g.z| - |taken|
  {
    if |taken| == |g.z| then Some(taken)
    else
      var j := FirstCandidate(c, g, taken, |taken|, 0);
      if j == |c.geom.z| then None else Greedy(c, g, taken + [j])
  }

  /** The order in which a cached result fits a request, if it does. */
  function Hit(c: Cache, g: Geometry): Option<seq<nat>>
    requires CacheOk(c) && GeometryOk(g)
  {
    if |c.geom.z| != |g.z| || !SameCell(c.geom.cell, g.cell) then None else Greedy(c, g, [])
  }

  predicate Partial(c: Cache, g: Geometry, taken: seq<nat>)
    requires CacheOk(c) && GeometryOk(g)
  {
    && |taken| <= |g.z| == |c.geom.z|
    && (forall i :: 0 <= i < |taken| ==>
          taken[i] < |g.z| && c.geom.z[taken[i]] == g.z[i] && Close(c.geom.pos[taken[i]], g.pos[i]))
    && (forall i, j :: 0 <= i < j < |taken| ==> taken[i] != taken[j])
  }

  lemma {:induction false} GreedySound(c: Cache, g: Geometry, taken: seq<nat>)
    requires CacheOk(c) && GeometryOk(g) && Partial(c, g, taken) && SameCell(c.geom.cell, g.cell)
    ensures Greedy(c, g, taken).Some? ==> Matches(c.geom, g, Greedy(c, g, taken).value)
    decreases |g.z| - |taken|
  {
    if |taken| < |g.z| {
      var j := FirstCandidate(c, g, taken, |taken|, 0);
      if j < |c.geom.z| {
        assert forall i :: 0 <= i < |taken| ==> taken[i] in taken;
        GreedySound(c, g, taken + [j]);
      }
    }
  }

  /** A hit is a permutation with equal elements and positions within the tolerance; the reordered
      gradient has the stored rows, each as often. */
  lemma HitSound(c: Cache, g: Geometry)
    requires CacheOk(c) && GeometryOk(g) && Hit(c, g).Some?
    ensures Matches(c.geom, g, Hit(c, g).value)
    ensures multiset(Reordered(c.grad, Hit(c, g).value)) == multiset(c.grad)
  {
    GreedySound(c, g, []);
    PermMultiset(Hit(c, g).value, c.grad, Reordered(c.grad, Hit(c, g).value));
  }

  /** What a hit means in numbers: a permutation of the stored atoms with equal elements, every coordinate and
      every component of the cell within 1e-8. */
  lemma HitNumbers(c: Cache, g: Geometry)
    requires CacheOk(c) && GeometryOk(g) && Hit(c, g).Some?
    ensures var p := Hit(c, g).value;
      && |p| == |g.z| == |c.geom.z| && (forall i, j :: 0 <= i < j < |p| ==> p[i] != p[j])
      && (forall i :: 0 <= i < |p| ==> p[i] < |p| && c.geom.z[p[i]] == g.z[i] && Within(c.geom.pos[p[i]], g.pos[i]))
      && (c.geom.cell.Some? <==> g.cell.Some?)
      && (g.cell.Some? ==> Within(c.geom.cell.value.0, g.cell.value.0) && Within(c.geom.cell.value.1, g.cell.value.1)
                           && Within(c.geom.cell.value.2, g.cell.value.2))
  {
    HitSound(c, g);
    assert Different(Hit(c, g).value);
  }

  predicate Within(a: Vec, b: Vec) {
    && -0.00000001 <= a.0 - b.0 <= 0.00000001 && -0.00000001 <= a.1 - b.1 <= 0.00000001
    && -0.00000001 <= a.2 - b.2 <= 0.00000001
  }

  lemma CloseIs(a: Vec, b: Vec)
    ensures Close(a, b) <==> Within(a, b)
  {
  }

  /** Atom `i` of the request can be stored atom `j`. */
  predicate CanBe(c: Cache, g: Geometry, i: nat, j: nat)
    requires CacheOk(c) && GeometryOk(g) && i < |g.z|
  {
    j < |c.geom.z| && c.geom.z[j] == g.z[i] && Within(c.geom.pos[j], g.pos[i])
  }

  /** Each of the first atoms of the request has the first stored atom that it can be and that is not taken. */
  ghost predicate Chosen(c: Cache, g: Geometry, p: seq<nat>)
    requires CacheOk(c) && GeometryOk(g)
  {
    |p| <= |g.z| && forall i :: 0 <= i < |p| ==>
      CanBe(c, g, i, p[i]) && p[i] !in p[..i] && forall k: nat :: k < p[i] && CanBe(c, g, i, k) ==> k in p[..i]
  }

  predicate CellWithin(a: Option<(Vec, Vec, Vec)>, b: Option<(Vec, Vec, Vec)>) {
    && (a.Some? <==> b.Some?)
    && (a.Some? ==> Within(a.value.0, b.value.0) && Within(a.value.1, b.value.1) && Within(a.value.2, b.value.2))
  }

  /** Exactly when there is a hit, and which one. */
  lemma HitExactly(c: Cache, g: Geometry, p: seq<nat>)
    requires CacheOk(c) && GeometryOk(g)
    ensures Hit(c, g) == Some(p) <==>
      |c.geom.z| == |g.z| && CellWithin(c.geom.cell, g.cell) && |p| == |g.z| && Chosen(c, g, p)
  {
    GreedyExactly(c, g, [], p);
    assert [] <= p;
  }

  lemma {:induction false} GreedyExactly(c: Cache, g: Geometry, taken: seq<nat>, p: seq<nat>)
    requires CacheOk(c) && GeometryOk(g) && Chosen(c, g, taken)
    ensures Greedy(c, g, taken) == Some(p) <==> taken <= p && |p| == |g.z| && Chosen(c, g, p)
    decreases |g.z| - |taken|
  {
    hide Close;
    hide Within;
    if |taken| < |g.z| {
      var i, j := |taken|, FirstCandidate(c, g, taken, |taken|, 0);
      CandidatesFit(c, g, taken, i);
      if j < |c.geom.z| {
        ChosenMore(c, g, taken, j);
        GreedyExactly(c, g, taken + [j], p);
      }
      if taken <= p && |p| == |g.z| && Chosen(c, g, p) {
        assert p[..i] == taken && CanBe(c, g, i, p[i]);
        assert p[i] == j;
        assert taken + [j] <= p;
      }
      assert taken <= taken + [j];
    } else {
      assert taken[..|taken|] == taken;
      assert taken <= p && |p| == |g.z| <==> p == taken;
    }
  }

  lemma CandidatesFit(c: Cache, g: Geometry, taken: seq<nat>, i: nat)
    requires CacheOk(c) && GeometryOk(g) && i < |g.z|
    ensures forall j: nat :: j < |c.geom.z| ==> (Candidate(c, g, taken, i, j) <==> j !in taken && CanBe(c, g, i, j))
  {
    forall j: nat | j < |c.geom.z|
      ensures Candidate(c, g, taken, i, j) <==> j !in taken && CanBe(c, g, i, j)
    {
      CloseIs(c.geom.pos[j], g.pos[i]);
    }
  }

  lemma ChosenMore(c: Cache, g: Geometry, taken: seq<nat>, j: nat)
    requires CacheOk(c) && GeometryOk(g) && Chosen(c, g, taken) && |taken| < |g.z|
    requires CanBe(c, g, |taken|, j) && j !in taken
    requires forall k: nat :: k < j && CanBe(c, g, |taken|, k) ==> k in taken
    ensures Chosen(c, g, taken + [j])
  {
    hide CanBe;
    var p := taken + [j];
    forall i | 0 <= i < |p|
      ensures CanBe(c, g, i, p[i]) && p[i] !in p[..i] && forall k: nat :: k < p[i] && CanBe(c, g, i, k) ==> k in p[..i]
    {
      assert p[..i] == taken[..i];
    }
  }

  predicate FarApart(a: Vec, b: Vec) {
    AbsR(a.0 - b.0) > 2.0 * TOLERANCE || AbsR(a.1 - b.1) > 2.0 * TOLERANCE || AbsR(a.2 - b.2) > 2.0 * TOLERANCE
  }

  /** No two stored atoms of one element can be taken for each other. */
  predicate Separated(c: Cache)
    requires CacheOk(c)
  {
    forall i, j :: 0 <= i < j < |c.geom.z| && c.geom.z[i] == c.geom.z[j] ==> FarApart(c.geom.pos[i], c.geom.pos[j])
  }

  lemma OnlyOne(c: Cache, g: Geometry, i: nat, j: nat, k: nat)
    requires CacheOk(c) && GeometryOk(g) && Separated(c) && i < |g.z| && j < |c.geom.z| && k < |c.geom.z|
    requires c.geom.z[j] == g.z[i] == c.geom.z[k] && Close(c.geom.pos[j], g.pos[i]) && Close(c.geom.pos[k], g.pos[i])
    ensures j == k
  {
    Triangle(c.geom.pos[j], c.geom.pos[k], g.pos[i]);
    Triangle(c.geom.pos[k], c.geom.pos[j], g.pos[i]);
  }

  lemma Triangle(a: Vec, b: Vec, x: Vec)
    requires Close(a, x) && Close(b, x)
    ensures !FarApart(a, b)
  {
  }

  lemma {:induction false} GreedyComplete(c: Cache, g: Geometry, taken: seq<nat>, p: seq<nat>)
    requires CacheOk(c) && GeometryOk(g) && Separated(c) && Matches(c.geom, g, p)
    requires |taken| <= |g.z| && taken == p[..|taken|]
    ensures Greedy(c, g, taken) == Some(p)
    decreases |g.z| - |taken|
  {
    var i := |taken|;
    if i < |g.z| {
      assert forall k :: 0 <= k < i ==> taken[k] == p[k];
      assert Candidate(c, g, taken, i, p[i]);
      var j := FirstCandidate(c, g, taken, i, 0);
      OnlyOne(c, g, i, j, p[i]);
      assert p[..i + 1] == p[..i] + [p[i]];
      GreedyComplete(c, g, taken + [j], p);
    } else {
      assert p[..i] == p;
    }
  }

  /** When the stored atoms are far enough apart, every reordering within the tolerance is a hit, and
      the greedy match finds that very reordering. */
  lemma HitComplete(c: Cache, g: Geometry, p: seq<nat>)
    requires CacheOk(c) && GeometryOk(g) && Separated(c) && Matches(c.geom, g, p)
    ensures Hit(c, g) == Some(p)
  {
    GreedyComplete(c, g, [], p);
  }

  /** The stored gradient in the order of the request. */
  predicate Fits(c: Cache, g: Geometry, grad: seq<Vec>)
    requires CacheOk(c) && GeometryOk(g)
  {
    && Hit(c, g).Some? && (forall i :: 0 <= i < |Hit(c, g).value| ==> Hit(c, g).value[i] < |c.grad|)
    && grad == Reordered(c.grad, Hit(c, g).value)
  }

  /** `session_copy_cached_gradient`: rows are stored as the match goes, so a miss may leave some behind. */
  method CopyCachedGradient(c: Cache, g: Geometry, grad: array<Vec>) returns (hit: bool)
    requires CacheOk(c) && GeometryOk(g) && grad.Length == |g.z|
    modifies grad
    ensures hit <==> Hit(c, g).Some?
    ensures hit ==> Fits(c, g, grad[..])
  {
    hide Close;
    hide SameCell;
    if |c.geom.z| != |g.z| || !SameCell(c.geom.cell, g.cell) {
      return false;
    }
    var n := |g.z|;
    var used := new bool[n](_ => false);
    ghost var taken: seq<nat> := [];
    var i := 0;
    while i < n
      invariant 0 <= i <= n && |taken| == i && (forall k :: 0 <= k < i ==> taken[k] < n && grad[k] == c.grad[taken[k]])
      invariant forall j: nat :: j < n ==> (used[j] <==> j in taken)
      invariant Greedy(c, g, []) == Greedy(c, g, taken)
    {
      var found := n;
      var j := 0;
      while j < n && found == n
        invariant 0 <= j <= n && (found == n || (found < j && Candidate(c, g, taken, i, found)))
        invariant forall k: nat :: k < j && k < found ==> !Candidate(c, g, taken, i, k)
      {
        if !used[j] && c.geom.z[j] == g.z[i] && Close(c.geom.pos[j], g.pos[i]) {
          found := j;
        }
        j := j + 1;
      }
      FirstIs(c, g, taken, i, 0, found);
      if found == n {
        return false;
      }
      used[found] := true;
      grad[i] := c.grad[found];
      taken := taken + [found];
      i := i + 1;
    }
    assert grad[..] == Reordered(c.grad, taken);
    return true;
  }

  lemma {:induction false} FirstIs(c: Cache, g: Geometry, taken: seq<nat>, i: nat, from: nat, j: nat)
    requires CacheOk(c) && GeometryOk(g) && i < |g.z| && from <= j <= |c.geom.z|
    requires (j < |c.geom.z| ==> Candidate(c, g, taken, i, j)) && forall k: nat :: from <= k < j ==>
      !Candidate(c, g, taken, i, k)
    ensures FirstCandidate(c, g, taken, i, from) == j
    decreases j - from
  {
    if from < j {
      FirstIs(c, g, taken, i, from + 1, j);
    }
  }

  // ----- the session

  /** All that the engine is configured from: the serialized parameters, the scalars laid over them, and the
      input deck that was rendered beforehand. */
  datatype Setup = Setup(params: seq<int>, overrides: Option<seq<int>>, deck: string)

  /** The code around a session: what deck is rendered from parameters and overrides, if they parse and
      render; and the electronic structure code, which gives an energy and a gradient, or fails. */
  datatype Engine = Engine(render: (seq<int>, Option<seq<int>>) -> Option<string>,
                           run: (Setup, Geometry) -> Option<(real, seq<Vec>)>)

  /** The deck is the one of the parameters with these overrides. */
  predicate Rendered(engine: Engine, m: Setup) {
    engine.render(m.params, m.overrides) == Some(m.deck)
  }

  /** The fields of `struct CPMDCSession` that matter here, whether it is the active session, and the setup
      in its image, which is what the engine evaluates. */
  datatype State = State(setup: Setup, configured: bool, active: bool, image: Option<Setup>,
                         topology: Option<seq<int>>, cache: Option<Cache>)

  datatype Reply = Failed | Ok(energy: real, grad: seq<Vec>)

  datatype Op =
    /** A force call; `embed` says whether the engine is up and takes a setup, `wanted` whether a gradient is
        asked for. */
    | Evaluate(g: Geometry, wanted: bool, embed: bool)
    | SetParams(params: seq<int>, overrides: Option<seq<int>>, embed: bool)
    /** Another session, or the process-wide API, takes the engine. */
    | Foreign

  predicate OpOk(op: Op) {
    op.Evaluate? ==> GeometryOk(op.g)
  }

  ghost predicate OpsOk(ops: seq<Op>) {
    forall i :: 0 <= i < |ops| ==> OpOk(ops[i])
  }

  predicate StateOk(st: State) {
    st.cache.Some? ==> CacheOk(st.cache.value)
  }

  /** `session_accept_topology`: the first step fixes the atoms, whatever they are. */
  function Accept(topology: Option<seq<int>>, z: seq<int>): Option<seq<int>> {
    if |z| == 0 then None
    else
      match topology
      case None => Some(z)
      case Some(f) => if |f| == |z| && SameAtoms(f, z) then Some(z) else None
  }

  predicate Countable(z: seq<int>) {
    0 < |z| <= INT_MAX / 3
  }

  /** `configure_embed_from_session`. */
  function Configure(st: State): State {
    st.(configured := true, active := true, image := Some(st.setup))
  }

  /** The engine call and what becomes of the cache. */
  function Compute(engine: Engine, st: State, g: Geometry, wanted: bool): (State, Reply)
    requires GeometryOk(g)
  {
    var r := if wanted && st.image.Some? then engine.run(st.image.value, g) else None;
    match r
    case None => (st.(cache := None), Failed)
    case Some((e, grad)) =>
      if |grad| != |g.z| then (st.(cache := None), Failed) else (st.(cache := Some(Cache(g, e, grad))), Ok(e, grad))
  }

  /** `session_energy_gradient_cell`. */
  function Evaluated(engine: Engine, st: State, g: Geometry, wanted: bool, embed: bool): (State, Reply)
    requires GeometryOk(g) && StateOk(st)
  {
    if !Countable(g.z) || Accept(st.topology, g.z).None? then (st, Failed)
    else
      var st1 := st.(topology := Accept(st.topology, g.z));
      if wanted && st.cache.Some? && Hit(st.cache.value, g).Some? then
        HitSound(st.cache.value, g);
        (st1, Ok(st.cache.value.energy, Reordered(st.cache.value.grad, Hit(st.cache.value, g).value)))
      else if st1.configured && st1.active then
        if embed then Compute(engine, st1, g, wanted) else (st1.(cache := None), Failed)
      else if !embed then (st1, Failed)
      else Compute(engine, Configure(st1), g, wanted)
  }

  /** `cpmdc_session_set_params_ov`: the overrides are stored before anything else can fail, parameters and
      deck only once the new deck is there. */
  function ParamsSet(engine: Engine, st: State, params: seq<int>, overrides: Option<seq<int>>, embed: bool): (State,
      bool) {
    if params == [] || st.topology.Some? then (st, false)
    else
      var st1 := st.(setup := st.setup.(overrides := overrides));
      match engine.render(params, overrides)
      case None => (st1, false)
      case Some(deck) =>
        var st2 := st1.(setup := Setup(params, overrides, deck));
        if embed then (Configure(st2), true) else (st2, false)
  }

  function Step(engine: Engine, st: State, op: Op): (r: (State, Reply))
    requires StateOk(st) && OpOk(op)
    ensures StateOk(r.0)
  {
    match op
    case Evaluate(g, wanted, embed) => Evaluated(engine, st, g, wanted, embed)
    case SetParams(p, o, embed) => (ParamsSet(engine, st, p, o, embed).0, Failed)
    case Foreign => (st.(active := false), Failed)
  }

  /** The deck is that of the session's parameters and overrides.  The image, where the engine is this
      session's, and the cached result both belong to the session's setup; a cached result means that the
      topology is fixed. */
  predicate InStep(engine: Engine, st: State) {
    && StateOk(st) && Rendered(engine, st.setup)
    && (st.configured && st.active ==> st.image == Some(st.setup))
    && (st.cache.Some? ==>
          && st.topology.Some?
          && engine.run(st.setup, st.cache.value.geom) == Some((st.cache.value.energy, st.cache.value.grad)))
  }

  /** The new session of `cpmdc_session_create` with its deck, with or without a working engine. */
  function Created(params: seq<int>, deck: string, embed: bool): State {
    var st := State(Setup(params, None, deck), false, false, None, None, None);
    if embed then Configure(st) else st
  }

  /** A reply that the engine gave under the setup, for the request's atoms in some order and within the
      tolerance, in the order of the request. */
  ghost predicate Genuine(engine: Engine, m: Setup, g: Geometry, r: Reply)
    requires GeometryOk(g)
  {
    r.Ok? ==> exists c: Cache, p: seq<nat> ::
      && CacheOk(c) && Matches(c.geom, g, p) && (forall i :: 0 <= i < |p| ==> p[i] < |c.grad|)
      && engine.run(m, c.geom) == Some((c.energy, c.grad)) && r == Ok(c.energy, Reordered(c.grad, p))
  }

  function Identity(n: nat): (p: seq<nat>)
    ensures Perm(p, n) && forall i :: 0 <= i < n ==> p[i] == i
  {
    seq(n, i => i)
  }

  /** A parameter change succeeds if and only if there are parameters, no atoms are fixed, a deck renders and the engine
      takes it; then the session and its image are the new setup.  A change that is refused outright leaves the
      session alone, one that fails later leaves the overrides, or all of the setup, behind. */
  lemma SetParamsCases(engine: Engine, st: State, params: seq<int>, overrides: Option<seq<int>>, embed: bool)
    ensures var (now, ok) := ParamsSet(engine, st, params, overrides, embed);
      && (ok <==> params != [] && st.topology.None? && engine.render(params, overrides).Some? && embed)
      && now.topology == st.topology && now.cache == st.cache
      && (ok ==> now.configured && now.active && now.image == Some(now.setup))
      && (!ok ==> now.configured == st.configured && now.active == st.active && now.image == st.image)
      && (params == [] || st.topology.Some? ==> now.setup == st.setup)
      && (params != [] && st.topology.None? ==>
            && now.setup.overrides == overrides
            && if engine.render(params, overrides).Some?
               then now.setup.params == params && Rendered(engine, now.setup)
               else now.setup.params == st.setup.params && now.setup.deck == st.setup.deck)
  {
  }

  /** A new session has the engine exactly when that takes its setup, and nothing else yet. */
  lemma CreatedCases(params: seq<int>, deck: string, embed: bool)
    ensures var now := Created(params, deck, embed);
      && now.setup.params == params && now.setup.overrides.None? && now.setup.deck == deck
      && now.configured == now.active == embed && now.image == (if embed then Some(now.setup) else None)
      && now.topology.None? && now.cache.None?
  {
  }

  lemma EvaluateKeeps(engine: Engine, st: State, g: Geometry, wanted: bool, embed: bool)
    requires InStep(engine, st) && GeometryOk(g)
    ensures var r := Evaluated(engine, st, g, wanted, embed);
      InStep(engine, r.0) && r.0.setup == st.setup && Genuine(engine, st.setup, g, r.1)
  {
    hide SameAtoms;
    hide Matches;
    var r := Evaluated(engine, st, g, wanted, embed);
    if Countable(g.z) && Accept(st.topology, g.z).Some? && r.1.Ok? {
      if wanted && st.cache.Some? && Hit(st.cache.value, g).Some? {
        HitSound(st.cache.value, g);
        HitInRange(st.cache.value, g);
      } else {
        var c := r.0.cache.value;
        SelfMatch(g);
        SelfOrder(c.grad);
        assert Matches(c.geom, g, Identity(|g.z|));
      }
    }
  }

  lemma HitInRange(c: Cache, g: Geometry)
    requires CacheOk(c) && GeometryOk(g) && Hit(c, g).Some?
    ensures forall i :: 0 <= i < |Hit(c, g).value| ==> Hit(c, g).value[i] < |c.grad|
  {
    HitSound(c, g);
  }

  lemma SelfMatch(g: Geometry)
    requires GeometryOk(g)
    ensures Matches(g, g, Identity(|g.z|))
  {
  }

  lemma SelfOrder(grad: seq<Vec>)
    ensures Reordered(grad, Identity(|grad|)) == grad
  {
  }

  /** A parameter change that is refused outright, or that succeeds, or that fails without harm: when the
      parameters do not render, the session's own deck must be right under the new overrides, too, and an
      engine set up for this session must have had the same ones; when the engine refuses the new deck, it
      must not be set up for this session, or nothing changes. */
  predicate Harmless(engine: Engine, st: State, op: Op) {
    op.SetParams? ==>
      || op.params == [] || st.topology.Some?
      || match engine.render(op.params, op.overrides)
         case None =>
           && engine.render(st.setup.params, op.overrides) == Some(st.setup.deck)
           && (st.configured && st.active ==> op.overrides == st.setup.overrides)
         case Some(_) =>
           op.embed || !(st.configured && st.active)
             || (op.overrides == st.setup.overrides && op.params == st.setup.params)
  }

  /** A parameter change keeps the session in step exactly when it is harmless. */
  lemma SetParamsInStep(engine: Engine, st: State, params: seq<int>, overrides: Option<seq<int>>, embed: bool)
    requires InStep(engine, st)
    ensures InStep(engine, ParamsSet(engine, st, params, overrides, embed).0)
        <==> Harmless(engine, st, SetParams(params, overrides, embed))
  {
  }

  lemma StepKeeps(engine: Engine, st: State, op: Op)
    requires InStep(engine, st) && OpOk(op)
    ensures Harmless(engine, st, op) <==> InStep(engine, Step(engine, st, op).0)
    ensures op.Evaluate? ==> Genuine(engine, st.setup, op.g, Step(engine, st, op).1)
  {
    hide Genuine;
    match op
    case Evaluate(g, wanted, embed) => EvaluateKeeps(engine, st, g, wanted, embed);
    case SetParams(p, o, embed) => SetParamsInStep(engine, st, p, o, embed);
    case Foreign =>
  }

  // ----- runs

  function After(engine: Engine, st: State, ops: seq<Op>): (r: State)
    requires StateOk(st) && OpsOk(ops)
    ensures StateOk(r)
  {
    if ops == [] then st else Step(engine, After(engine, st, ops[..|ops| - 1]), ops[|ops| - 1]).0
  }

  lemma AfterNone(engine: Engine, st: State)
    requires StateOk(st)
    ensures After(engine, st, []) == st
  {
  }

  lemma AfterMore(engine: Engine, st: State, ops: seq<Op>, op: Op)
    requires StateOk(st) && OpsOk(ops) && OpOk(op)
    ensures After(engine, st, ops + [op]) == Step(engine, After(engine, st, ops), op).0
  {
    assert (ops + [op])[..|ops|] == ops;
  }

  ghost predicate AllHarmless(engine: Engine, st: State, ops: seq<Op>)
    requires StateOk(st) && OpsOk(ops)
  {
    forall i :: 0 <= i < |ops| ==> Harmless(engine, After(engine, st, ops[..i]), ops[i])
  }

  lemma {:induction false} RunInStep(engine: Engine, st: State, ops: seq<Op>)
    requires InStep(engine, st) && OpsOk(ops) && AllHarmless(engine, st, ops)
    ensures InStep(engine, After(engine, st, ops))
    decreases |ops|
  {
    if ops != [] {
      var before := ops[..|ops| - 1];
      assert forall i :: 0 <= i < |before| ==> before[..i] == ops[..i];
      RunInStep(engine, st, before);
      StepKeeps(engine, After(engine, st, before), ops[|ops| - 1]);
    }
  }

  lemma CreatedInStep(engine: Engine, params: seq<int>, deck: string, embed: bool)
    requires engine.render(params, None) == Some(deck)
    ensures InStep(engine, Created(params, deck, embed))
  {
  }

  /** Over any run without a half-done parameter change, every good reply is the engine's own under the
      session's parameters and overrides with the deck rendered from them, for the requested atoms. */
  lemma EveryReplyGenuine(engine: Engine, params: seq<int>, deck: string, embed: bool, ops: seq<Op>, i: nat)
    requires engine.render(params, None) == Some(deck)
    requires OpsOk(ops) && AllHarmless(engine, Created(params, deck, embed), ops) && i < |ops| && ops[i].Evaluate?
    ensures var st := After(engine, Created(params, deck, embed), ops[..i]);
      Rendered(engine, st.setup) && Genuine(engine, st.setup, ops[i].g, Step(engine, st, ops[i]).1)
  {
    hide Genuine;
    hide Harmless;
    var st := Created(params, deck, embed);
    CreatedInStep(engine, params, deck, embed);
    assert forall k :: 0 <= k < i ==> ops[..i][..k] == ops[..k];
    RunInStep(engine, st, ops[..i]);
    StepKeeps(engine, After(engine, st, ops[..i]), ops[i]);
  }

  lemma {:induction false} CachedFixed(engine: Engine, st: State, ops: seq<Op>)
    requires StateOk(st) && OpsOk(ops) && (st.cache.Some? ==> st.topology.Some?)
    ensures var st' := After(engine, st, ops); st'.cache.Some? ==> st'.topology.Some?
    decreases |ops|
  {
    hide Hit;
    if ops != [] {
      CachedFixed(engine, st, ops[..|ops| - 1]);
    }
  }

  /** Whatever happened before, half-done changes included, a change that succeeds puts the session in step. */
  lemma Mended(engine: Engine, params: seq<int>, deck: string, embed: bool, ops: seq<Op>,
               p: seq<int>, overrides: Option<seq<int>>, takes: bool)
    requires OpsOk(ops)
    ensures var st := After(engine, Created(params, deck, embed), ops);
      var r := ParamsSet(engine, st, p, overrides, takes);
      r.1 ==> InStep(engine, r.0) && r.0.setup.params == p && r.0.setup.overrides == overrides
  {
    CachedFixed(engine, Created(params, deck, embed), ops);
  }

  /** Atom `i` of `g` is exactly atom `p[i]` of `g0`, in the same cell. */
  ghost predicate Permuted(g0: Geometry, g: Geometry, p: seq<nat>)
    requires GeometryOk(g0) && GeometryOk(g)
  {
    && Perm(p, |g.z|) && |g0.z| == |g.z| && g0.cell == g.cell
    && forall i :: 0 <= i < |g.z| ==> g0.z[p[i]] == g.z[i] && g0.pos[p[i]] == g.pos[i]
  }

  /** An engine whose gradient follows the atoms when they are listed in another order. */
  ghost predicate Equivariant(engine: Engine) {
    forall m, g0, g, p ::
      && GeometryOk(g0) && GeometryOk(g) && Permuted(g0, g, p)
      && engine.run(m, g0).Some? && |engine.run(m, g0).value.1| == |g0.z| ==>
        engine.run(m, g) == Some((engine.run(m, g0).value.0, Reordered(engine.run(m, g0).value.1, p)))
  }

  /** The same atoms in the same order, every position and the cell within the tolerance. */
  predicate Nearby(g1: Geometry, g: Geometry)
    requires GeometryOk(g1) && GeometryOk(g)
  {
    g1.z == g.z && SameCell(g1.cell, g.cell) && forall i :: 0 <= i < |g.z| ==> Close(g1.pos[i], g.pos[i])
  }

  /** For such an engine a good reply, from the cache or not, is what calling the engine gives for the
      requested atoms in the requested order, no position further away than the tolerance. */
  lemma GenuineIsDirect(engine: Engine, m: Setup, g: Geometry, r: Reply) returns (g1: Geometry)
    requires Equivariant(engine) && GeometryOk(g) && Genuine(engine, m, g, r) && r.Ok?
    ensures GeometryOk(g1) && Nearby(g1, g) && engine.run(m, g1) == Some((r.energy, r.grad))
  {
    var c: Cache, p: seq<nat> :|
      && CacheOk(c) && Matches(c.geom, g, p) && (forall i :: 0 <= i < |p| ==> p[i] < |c.grad|)
      && engine.run(m, c.geom) == Some((c.energy, c.grad)) && r == Ok(c.energy, Reordered(c.grad, p));
    g1 := Geometry(g.z, Reordered(c.geom.pos, p), c.geom.cell);
    assert Permuted(c.geom, g1, p);
  }

  lemma StepFixed(engine: Engine, st: State, op: Op)
    requires StateOk(st) && st.topology.Some? && OpOk(op)
    ensures var st' := Step(engine, st, op).0;
      && st'.topology.Some? && st'.setup == st.setup
      && multiset(st'.topology.value) == multiset(st.topology.value)
  {
    hide Hit;
    hide Elements;
    hide Compute;
    ComputeKeeps(engine, st, op);
  }

  /** The engine call leaves setup and topology alone. */
  lemma ComputeKeeps(engine: Engine, st: State, op: Op)
    requires OpOk(op)
    ensures op.Evaluate? ==> forall x: State :: x.setup == st.setup ==>
      var y := Compute(engine, x, op.g, op.wanted).0; y.setup == st.setup && y.topology == x.topology
  {
  }

  /** Once the topology is fixed neither the setup nor the atoms change any more. */
  lemma {:induction false} FixedForGood(engine: Engine, st: State, ops: seq<Op>)
    requires StateOk(st) && st.topology.Some? && OpsOk(ops)
    ensures var st' := After(engine, st, ops);
      && st'.topology.Some? && st'.setup == st.setup
      && multiset(st'.topology.value) == multiset(st.topology.value)
    decreases |ops|
  {
    hide Step;
    if ops != [] {
      FixedForGood(engine, st, ops[..|ops| - 1]);
      StepFixed(engine, After(engine, st, ops[..|ops| - 1]), ops[|ops| - 1]);
    }
  }

  lemma ElementsSame(f: seq<int>, h: seq<int>)
    requires multiset(f) == multiset(h)
    ensures Elements(f) <==> Elements(h)
  {
    assert forall x :: x in multiset(f) <==> x in multiset(h);
    assert forall i :: 0 <= i < |f| ==> f[i] in multiset(f);
    assert forall i :: 0 <= i < |h| ==> h[i] in multiset(h);
  }

  /** The same atoms: numbers from 1 to 118 on both sides, each equally often. */
  ghost predicate SameMolecule(f: seq<int>, z: seq<int>) {
    (forall x :: x in f || x in z ==> 1 <= x <= 118) && multiset(f) == multiset(z)
  }

  lemma SameMoleculeIs(f: seq<int>, z: seq<int>)
    ensures SameMolecule(f, z) <==> SameAtoms(f, z)
  {
    ghost var m := SameMolecule(f, z);
    assert forall i :: 0 <= i < |f| ==> f[i] in f;
    assert forall i :: 0 <= i < |z| ==> z[i] in z;
  }

  lemma SameSize(f: seq<int>, z: seq<int>)
    requires multiset(f) == multiset(z)
    ensures |f| == |z|
  {
    assert |multiset(f)| == |f| && |multiset(z)| == |z|;
  }

  /** A step of a session with fixed atoms goes on exactly when it has the same atoms, in whatever order, and
      not too many; otherwise it changes nothing and is not answered. */
  lemma StepGoesOn(engine: Engine, st: State, f: seq<int>, g: Geometry, wanted: bool, embed: bool)
    requires StateOk(st) && GeometryOk(g) && st.topology == Some(f)
    ensures var r := Evaluated(engine, st, g, wanted, embed);
      if SameMolecule(f, g.z) && 0 < |g.z| <= 715_827_882 then r.0.topology == Some(g.z) && r.0.setup == st.setup
      else r == (st, Failed)
  {
    hide Hit;
    hide SameAtoms;
    hide SameMolecule;
    SameMoleculeIs(f, g.z);
    SameIsSize(f, g.z);
  }

  /** The engine has an energy and one row of the gradient for every atom. */
  predicate Gives(engine: Engine, m: Setup, g: Geometry) {
    engine.run(m, g).Some? && |engine.run(m, g).value.1| == |g.z|
  }

  /** The setup that an evaluation runs under: the image of the session that has the engine, else its own. */
  function Ran(st: State): Option<Setup> {
    if st.configured && st.active then st.image else Some(st.setup)
  }

  /** A step that goes on.  When the cached result fits, it is the answer, row by row.  Without an engine nothing
      else changes, except that the session that has it loses its cached result.  Otherwise the session has the
      engine afterwards, and the answer and the new cached result are what the engine gives, if it gives a
      whole gradient and one was wanted; if not, there is neither. */
  lemma StepCases(engine: Engine, st: State, g: Geometry, wanted: bool, embed: bool)
    requires StateOk(st) && GeometryOk(g) && 0 < |g.z| <= 715_827_882
    requires st.topology.Some? ==> SameMolecule(st.topology.value, g.z)
    ensures var r := Evaluated(engine, st, g, wanted, embed);
      var hit := wanted && st.cache.Some? && Hit(st.cache.value, g).Some?;
      var now := st.(topology := Some(g.z));
      && (hit ==> r.0 == now && r.1.Ok? && r.1.energy == st.cache.value.energy && |r.1.grad| == |g.z|)
      && (hit ==> var p := Hit(st.cache.value, g).value; |p| == |g.z| && forall i :: 0 <= i < |g.z| ==>
            p[i] < |st.cache.value.grad| && r.1.grad[i] == st.cache.value.grad[p[i]])
      && (!hit && !embed ==> r == (if st.configured && st.active then now.(cache := None) else now, Failed))
      && (!hit && embed ==> r.0.setup == st.setup && r.0.configured && r.0.active && r.0.image == Ran(st))
      && (!hit && embed ==>
            if wanted && Ran(st).Some? && Gives(engine, Ran(st).value, g) then
              var (e, rows) := engine.run(Ran(st).value, g).value;
              r.1 == Ok(e, rows) && r.0.cache == Some(Cache(g, e, rows))
            else r.1 == Failed && r.0.cache == None)
  {
    hide Hit;
    hide SameAtoms;
    hide SameMolecule;
    if st.topology.Some? {
      SameMoleculeIs(st.topology.value, g.z);
      SameIsSize(st.topology.value, g.z);
    }
    if wanted && st.cache.Some? && Hit(st.cache.value, g).Some? {
      HitSound(st.cache.value, g);
    }
  }

  lemma SameIsSize(f: seq<int>, z: seq<int>)
    ensures SameAtoms(f, z) ==> |f| == |z|
  {
    if SameAtoms(f, z) {
      SameSize(f, z);
    }
  }

  /** Over any run the atoms that a session accepts stay those of its first step.  A session that is in step
      answers each such step when its cached result fits, or when the engine is up and gives a gradient of the
      right length for the session's setup. */
  lemma RunGoesOn(engine: Engine, st: State, f: seq<int>, ops: seq<Op>, g: Geometry, embed: bool)
    requires InStep(engine, st) && st.topology == Some(f) && OpsOk(ops) && GeometryOk(g) && 0 < |g.z| <= 715_827_882
    ensures var st' := After(engine, st, ops);
      var r := Evaluated(engine, st', g, true, embed);
      && (!SameMolecule(f, g.z) ==> r == (st', Failed))
      && (SameMolecule(f, g.z) ==> r.0.topology == Some(g.z))
      && (SameMolecule(f, g.z) && st'.cache.Some? && Hit(st'.cache.value, g).Some? ==> r.1.Ok?)
      && (SameMolecule(f, g.z) && embed && Gives(engine, st.setup, g) ==> r.1.Ok?)
  {
    hide Evaluated;
    hide After;
    hide Hit;
    FixedForGood(engine, st, ops);
    AfterFixed(engine, st, ops);
    RunInStep(engine, st, ops);
    var h := After(engine, st, ops).topology.value;
    StepGoesOn(engine, After(engine, st, ops), h, g, true, embed);
    SameMoleculeIs(f, g.z);
    SameMoleculeIs(h, g.z);
    ElementsSame(f, h);
    if SameMolecule(f, g.z) {
      StepCases(engine, After(engine, st, ops), g, true, embed);
    }
  }

  /** With fixed atoms every call is harmless. */
  lemma AfterFixed(engine: Engine, st: State, ops: seq<Op>)
    requires StateOk(st) && st.topology.Some? && OpsOk(ops)
    ensures AllHarmless(engine, st, ops)
  {
    forall i | 0 <= i < |ops|
      ensures Harmless(engine, After(engine, st, ops[..i]), ops[i])
    {
      FixedForGood(engine, st, ops[..i]);
    }
  }

  /** The first step is accepted whatever its atoms are; the same atoms are accepted again exactly when
      all of them are elements. */
  lemma FirstStep(engine: Engine, st: State, g: Geometry, wanted: bool, embed: bool)
    requires StateOk(st) && GeometryOk(g) && st.topology == None && Countable(g.z)
    ensures var after := Evaluated(engine, st, g, wanted, embed).0;
      after.topology == Some(g.z) && (Accept(after.topology, g.z).Some? <==> Elements(g.z))
  {
    hide Hit;
    hide Elements;
  }

  /** With atoms that are no elements fixed, no later step of any run is answered. */
  lemma {:induction false} StrangeAtoms(engine: Engine, st: State, ops: seq<Op>, i: nat)
    requires StateOk(st) && st.topology.Some? && !Elements(st.topology.value)
    requires OpsOk(ops) && i < |ops| && ops[i].Evaluate?
    ensures Step(engine, After(engine, st, ops[..i]), ops[i]).1 == Failed
  {
    hide Elements;
    StrangeStays(engine, st, ops[..i]);
  }

  lemma {:induction false} StrangeStays(engine: Engine, st: State, ops: seq<Op>)
    requires StateOk(st) && st.topology.Some? && !Elements(st.topology.value) && OpsOk(ops)
    ensures After(engine, st, ops).topology == st.topology
    decreases |ops|
  {
    hide Elements;
    hide Hit;
    if ops != [] {
      StrangeStays(engine, st, ops[..|ops| - 1]);
    }
  }

  /** A new session answers a step with an atom of number 0, and refuses the very same step from then on. */
  lemma StrangeRun(engine: Engine, g: Geometry, e: real, grad: seq<Vec>)
    requires g.z == [0] && |g.pos| == |grad| == 1 && engine.run(Setup([1], None, ""), g) == Some((e, grad))
    ensures var step := Evaluate(g, true, true);
      var st := Created([1], "", true);
      && GeometryOk(g) && StateOk(st)
      && Step(engine, st, step).1 == Ok(e, grad)
      && Step(engine, Step(engine, st, step).0, step).1 == Failed
  {
    assert !Element(g.z[0]);
  }

  /** A half-done change while the engine is this session's: overrides that came with unusable parameters.
      The next result comes from the setup of before, though the session already names another. */
  lemma HalfDoneChange(engine: Engine, deck: string, g: Geometry, e: real, grad: seq<Vec>)
    requires GeometryOk(g) && Countable(g.z) && |grad| == |g.z| && engine.render([2], Some([3])) == None
    requires engine.run(Setup([1], None, deck), g) == Some((e, grad))
    ensures var ops := [SetParams([2], Some([3]), true)];
      var st := After(engine, Created([1], deck, true), ops);
      && st.setup == Setup([1], Some([3]), deck) && !InStep(engine, st)
      && Step(engine, st, Evaluate(g, true, true)).1 == Ok(e, grad)
  {
    hide After;
    var op := SetParams([2], Some([3]), true);
    AfterNone(engine, Created([1], deck, true));
    AfterMore(engine, Created([1], deck, true), [], op);
    assert [] + [op] == [op];
  }

  /** A half-done change while the engine is another session's: the overrides are withdrawn together with
      unusable parameters.  The next result comes from the deck with the overrides and from no overrides,
      a setup that nobody asked for. */
  lemma StaleDeck(engine: Engine, plain: string, deck: string, g: Geometry, e: real, grad: seq<Vec>)
    requires GeometryOk(g) && Countable(g.z) && |grad| == |g.z|
    requires engine.render([1], None) == Some(plain) && engine.render([1], Some([3])) == Some(deck) && plain != deck
    requires engine.render([2], None) == None && engine.run(Setup([1], None, deck), g) == Some((e, grad))
    ensures var ops := [SetParams([1], Some([3]), true), Foreign, SetParams([2], None, true)];
      var st0 := Created([1], plain, true);
      var st := After(engine, st0, ops);
      && InStep(engine, After(engine, st0, ops[..2])) && !InStep(engine, st)
      && st.setup == Setup([1], None, deck) && !Rendered(engine, st.setup)
      && Step(engine, st, Evaluate(g, true, true)).1 == Ok(e, grad)
  {
    hide After;
    hide Hit;
    var st0 := Created([1], plain, true);
    var first, last := SetParams([1], Some([3]), true), SetParams([2], None, true);
    AfterNone(engine, st0);
    AfterMore(engine, st0, [], first);
    AfterMore(engine, st0, [first], Foreign);
    AfterMore(engine, st0, [first, Foreign], last);
    assert [] + [first] == [first] && [first] + [Foreign] == [first, Foreign];
    assert [first, Foreign] + [last] == [first, Foreign, last] && [first, Foreign, last][..2] == [first, Foreign];
  }

  // ----- the session object

  /** The session that the process-wide engine was last configured for, `g_active_session`. */
  class Embed {
    var owner: Session?

    constructor ()
      ensures owner == null
    {
      owner := null;
    }
  }

  class Session {
    var setup: Setup
    var configured: bool
    var image: Option<Setup>
    var topology: Option<seq<int>>
    var resultCached: bool
    var cachedGeometry: Geometry
    var cachedEnergy: real
    var cachedGrad: seq<Vec>

    ghost predicate Valid()
      reads this
    {
      resultCached ==> CacheOk(Cache(cachedGeometry, cachedEnergy, cachedGrad))
    }

    ghost function Value(e: Embed): State
      reads this, e
    {
      State(setup, configured, e.owner == this, image, topology,
            if resultCached then Some(Cache(cachedGeometry, cachedEnergy, cachedGrad)) else None)
    }

    /** `cpmdc_session_create`: a failed configuration is left for the first evaluation. */
    constructor (e: Embed, params: seq<int>, deck: string, embed: bool)
      modifies e
      ensures Valid() && Value(e) == Created(params, deck, embed)
      ensures !embed ==> e.owner == old(e.owner)
    {
      setup := Setup(params, None, deck);
      configured, image, topology, resultCached := false, None, None, false;
      cachedGeometry, cachedEnergy, cachedGrad := Geometry([], [], None), 0.0, [];
      new;
      if embed {
        Install(e);
      }
    }

    /** The checks of `cpmdc_session_create`: no session without parameters, nor with parameters that do not
        parse and render. */
    static method Create(e: Embed, engine: Engine, params: seq<int>, embed: bool) returns (s: Session?)
      modifies e
      ensures s == null <==> params == [] || engine.render(params, None).None?
      ensures s == null || !embed ==> e.owner == old(e.owner)
      ensures s != null ==>
        fresh(s) && s.Valid() && s.Value(e) == Created(params, engine.render(params, None).value, embed)
    {
      if params == [] {
        return null;
      }
      match engine.render(params, None)
      case None =>
        return null;
      case Some(deck) =>
        s := new Session(e, params, deck, embed);
    }

    /** `configure_embed_from_session`, once the engine accepts. */
    method Install(e: Embed)
      modifies this`configured, this`image, e
      ensures configured && e.owner == this && image == Some(setup)
    {
      image := Some(setup);
      configured := true;
      e.owner := this;
    }

    /** `session_accept_topology`. */
    method AcceptTopology(z: seq<int>) returns (ok: bool)
      modifies this`topology
      ensures ok == Accept(old(topology), z).Some? && topology == if ok then Accept(old(topology), z) else old(topology)
    {
      if |z| == 0 {
        return false;
      }
      match topology
      case None =>
        topology := Some(z);
        return true;
      case Some(f) =>
        if |f| != |z| {
          return false;
        }
        ok := ElementCountsMatch(f, z);
        if ok {
          topology := Some(z);
        }
    }

    /** `session_energy_gradient_cell`.  A null array asks for no gradient. */
    method EnergyGradient(e: Embed, engine: Engine, g: Geometry, grad: array?<Vec>, embed: bool)
      returns (ok: bool, energy: real)
      requires Valid() && GeometryOk(g) && (grad != null ==> grad.Length == |g.z|)
      modifies this, e, grad
      ensures Valid() && StateOk(old(Value(e)))
      ensures var r := Evaluated(engine, old(Value(e)), g, grad != null, embed);
        && Value(e) == r.0 && ok == r.1.Ok? && (ok ==> grad != null && r.1 == Ok(energy, grad[..]))
    {
      ok, energy := false, 0.0;
      if |g.z| == 0 || |g.z| > INT_MAX / 3 {
        return;
      }
      var accepted := AcceptTopology(g.z);
      if !accepted {
        return;
      }
      if grad != null && resultCached {
        var c := Cache(cachedGeometry, cachedEnergy, cachedGrad);
        var hit := CopyCachedGradient(c, g, grad);
        if hit {
          return true, cachedEnergy;
        }
      }
      if !configured || e.owner != this {
        if !embed {
          return;
        }
        Install(e);
      }
      ok, energy := Calculate(e, engine, g, grad, embed);
    }

    /** The engine call.  A good result is stored, any other drops the stored one. */
    method Calculate(ghost e: Embed, engine: Engine, g: Geometry, grad: array?<Vec>, up: bool)
      returns (ok: bool, energy: real)
      requires Valid() && GeometryOk(g) && (grad != null ==> grad.Length == |g.z|)
      modifies this`resultCached, this`cachedGeometry, this`cachedEnergy, this`cachedGrad, grad
      ensures Valid()
      ensures var st := old(Value(e));
        var r := if up then Compute(engine, st, g, grad != null) else (st.(cache := None), Failed);
        && Value(e) == r.0 && ok == r.1.Ok? && (ok ==> grad != null && r.1 == Ok(energy, grad[..]))
    {
      ok, energy := false, 0.0;
      resultCached := false;
      if grad == null || !up || image.None? {
        return;
      }
      match engine.run(image.value, g)
      case None =>
      case Some((found, rows)) =>
        if |rows| == |g.z| {
          forall i | 0 <= i < |rows| {
            grad[i] := rows[i];
          }
          assert grad[..] == rows;
          cachedGeometry, cachedEnergy, cachedGrad := g, found, grad[..];
          resultCached := true;
          ok, energy := true, found;
        }
    }

    /** `cpmdc_session_energy_forces`: the caller's array is negated, the stored gradient is not. */
    method EnergyForces(e: Embed, engine: Engine, g: Geometry, forces: array<Vec>, embed: bool)
      returns (ok: bool, energy: real)
      requires Valid() && GeometryOk(g) && forces.Length == |g.z|
      modifies this, e, forces
      ensures Valid() && StateOk(old(Value(e)))
      ensures var r := Evaluated(engine, old(Value(e)), g, true, embed);
        && Value(e) == r.0 && ok == r.1.Ok?
        && (ok ==> energy == r.1.energy && |r.1.grad| == forces.Length
                   && forall i :: 0 <= i < forces.Length ==>
                        forces[i] == (-r.1.grad[i].0, -r.1.grad[i].1, -r.1.grad[i].2))
    {
      ok, energy := EnergyGradient(e, engine, g, forces, embed);
      if ok {
        forall i | 0 <= i < forces.Length {
          forces[i] := Negated(forces[i]);
        }
      }
    }

    /** `cpmdc_session_set_params_ov`. */
    method SetParams(e: Embed, engine: Engine, params: seq<int>, overrides: Option<seq<int>>, embed: bool)
      returns (ok: bool)
      requires Valid()
      modifies this, e
      ensures Valid() && (Value(e), ok) == ParamsSet(engine, old(Value(e)), params, overrides, embed)
    {
      if params == [] || topology.Some? {
        return false;
      }
      setup := setup.(overrides := overrides);
      match engine.render(params, overrides)
      case None =>
        return false;
      case Some(deck) =>
        setup := setup.(params := params, deck := deck);
        if !embed {
          return false;
        }
        Install(e);
        return true;
    }
  }

  function Negated(v: Vec): Vec {
    (-v.0, -v.1, -v.2)
  }
}
