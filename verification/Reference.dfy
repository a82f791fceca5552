/** The reference evaluator that stands in for CPMD in builds without it, `run_reference_pef`: every atom in a
    harmonic well of its own.  Numbers are reals. */
module ReferencePotential {
  import opened Ints
  import opened Options
  import opened Permutations
  import opened SessionCache

  /** Angstrom per Bohr. */
  const BOHR: real := 0.529177210903

  /** What the evaluator takes from a setup: the stiffness of the wells and the energy without atoms. */
  datatype Knobs = Knobs(stiffness: real, offset: real)

  function Charge(z: int): (c: real)
    ensures c >= 1.0
  {
    if z < 1 then 1.0 else z as real
  }

  function InBohr(x: real): real {
    x / BOHR
  }

  function Pull(k: real, z: int, x: real): real {
    k * Charge(z) * InBohr(x)
  }

  function Row(k: real, z: int, v: Vec): Vec {
    (Pull(k, z, v.0), Pull(k, z, v.1), Pull(k, z, v.2))
  }

  function Square(x: real): real {
    x * x
  }

  function Well(k: real, z: int, squares: real): real {
    0.5 * k * Charge(z) * squares
  }

  function AtomEnergy(k: real, z: int, v: Vec): real {
    Well(k, z, Square(InBohr(v.0)) + Square(InBohr(v.1)) + Square(InBohr(v.2)))
  }

  function VecSquares(v: Vec): real {
    Square(v.0) + Square(v.1) + Square(v.2)
  }

  function CellEnergy(cell: Option<(Vec, Vec, Vec)>): real {
    match cell
    case None => 0.0
    case Some(c) => 0.0000000001 * (VecSquares(c.0) + VecSquares(c.1) + VecSquares(c.2))
  }

  function Energies(k: real, g: Geometry): (s: seq<real>)
    requires GeometryOk(g)
  {
    seq(|g.z|, i requires 0 <= i < |g.z| => AtomEnergy(k, g.z[i], g.pos[i]))
  }

  function Rows(k: real, g: Geometry): (s: seq<Vec>)
    requires GeometryOk(g)
  {
    seq(|g.z|, i requires 0 <= i < |g.z| => Row(k, g.z[i], g.pos[i]))
  }

  function Total(s: seq<real>): real {
    if s == [] then 0.0 else Total(s[..|s| - 1]) + s[|s| - 1]
  }

  /** Energy and gradient of a geometry. */
  function Result(knobs: Knobs, g: Geometry): (real, seq<Vec>)
    requires GeometryOk(g)
  {
    (knobs.offset + Total(Energies(knobs.stiffness, g)) + CellEnergy(g.cell), Rows(knobs.stiffness, g))
  }

  /** Each atom adds its own energy and its row; without atoms there are the offset and the cell. */
  lemma AtomAdds(knobs: Knobs, g: Geometry, z: int, v: Vec)
    requires GeometryOk(g)
    ensures Result(knobs, Geometry([], [], g.cell)) == (knobs.offset + CellEnergy(g.cell), [])
    ensures Result(knobs, Geometry(g.z + [z], g.pos + [v], g.cell)) ==
            (Result(knobs, g).0 + AtomEnergy(knobs.stiffness, z, v), Result(knobs, g).1 + [Row(knobs.stiffness, z, v)])
  {
    hide AtomEnergy;
    hide Row;
    hide CellEnergy;
    var more := Geometry(g.z + [z], g.pos + [v], g.cell);
    var all := Energies(knobs.stiffness, more);
    var e := AtomEnergy(knobs.stiffness, z, v);
    assert all == Energies(knobs.stiffness, g) + [e];
    assert all[..|all| - 1] == Energies(knobs.stiffness, g) && all[|all| - 1] == e;
    assert Total(all) == Total(Energies(knobs.stiffness, g)) + e;
    var none := Geometry([], [], g.cell);
    assert Energies(knobs.stiffness, none) == [] && Rows(knobs.stiffness, none) == [];
    assert Rows(knobs.stiffness, more) == Rows(knobs.stiffness, g) + [Row(knobs.stiffness, z, v)];
  }

  /** `run_reference_pef`. */
  method Evaluate(knobs: Knobs, g: Geometry, grad: array<Vec>) returns (ok: bool, energy: real)
    requires GeometryOk(g) && grad.Length == |g.z|
    modifies grad
    ensures ok == Countable(g.z) && (ok ==> (energy, grad[..]) == Result(knobs, g))
  {
    hide Row;
    hide AtomEnergy;
    hide CellEnergy;
    ok, energy := false, 0.0;
    if |g.z| == 0 || |g.z| > INT_MAX / 3 {
      return;
    }
    energy := knobs.offset;
    ghost var all, rows := Energies(knobs.stiffness, g), Rows(knobs.stiffness, g);
    var i := 0;
    while i < |g.z|
      invariant 0 <= i <= |g.z| && energy == knobs.offset + Total(all[..i]) && grad[..i] == rows[..i]
    {
      grad[i] := Row(knobs.stiffness, g.z[i], g.pos[i]);
      energy := energy + AtomEnergy(knobs.stiffness, g.z[i], g.pos[i]);
      assert all[..i + 1][..i] == all[..i];
      i := i + 1;
    }
    assert all[..i] == all && rows[..i] == rows && grad[..i] == grad[..];
    return true, energy + CellEnergy(g.cell);
  }

  lemma {:induction false} TotalJoin(s: seq<real>, t: seq<real>)
    ensures Total(s + t) == Total(s) + Total(t)
    decreases |t|
  {
    if t == [] {
      assert s + t == s;
    } else {
      TotalJoin(s, t[..|t| - 1]);
      assert (s + t)[..|s + t| - 1] == s + t[..|t| - 1];
    }
  }

  lemma {:induction false} TotalWithout(s: seq<real>, k: nat)
    requires k < |s|
    ensures Total(s) == Total(s[..k] + s[k + 1..]) + s[k]
  {
    var front, back := s[..k + 1], s[k + 1..];
    assert front[..k] == s[..k] && s == front + back;
    TotalJoin(s[..k], back);
    TotalJoin(front, back);
  }

  lemma RestPermuted(s: seq<real>, t: seq<real>) returns (k: nat)
    requires multiset(s) == multiset(t) && s != []
    ensures k < |t| && t[k] == s[0] && multiset(s[..0] + s[1..]) == multiset(t[..k] + t[k + 1..])
  {
    assert s[0] in multiset(s);
    k :| k < |t| && t[k] == s[0];
    WithoutOne(s, 0);
    WithoutOne(t, k);
    assert multiset(s[..0] + s[1..]) == multiset(s) - multiset{s[0]};
    assert multiset(t[..k] + t[k + 1..]) == multiset(t) - multiset{s[0]};
  }

  /** A sum does not depend on the order. */
  lemma {:induction false} TotalPermuted(s: seq<real>, t: seq<real>)
    requires multiset(s) == multiset(t)
    ensures Total(s) == Total(t)
    decreases |s|
  {
    if s == [] {
      assert |multiset(t)| == 0;
    } else {
      var k := RestPermuted(s, t);
      TotalPermuted(s[..0] + s[1..], t[..k] + t[k + 1..]);
      TotalWithout(s, 0);
      TotalWithout(t, k);
    }
  }

  /** The gradient is that of the energy: moving an atom by `t` Bohr along an axis changes its energy by gradient
      times `t` and by half the stiffness times charge times the square of `t`. */
  ghost predicate Slopes(k: real, z: int, before: real, after: real, slope: real, t: real) {
    after == before + slope * t + 0.5 * k * Charge(z) * (t * t)
  }

  lemma GradientIs(k: real, z: int, v: Vec, h: real)
    ensures var e, t := AtomEnergy(k, z, v), h / 0.529177210903;
      && Slopes(k, z, e, AtomEnergy(k, z, (v.0 + h, v.1, v.2)), Row(k, z, v).0, t)
      && Slopes(k, z, e, AtomEnergy(k, z, (v.0, v.1 + h, v.2)), Row(k, z, v).1, t)
      && Slopes(k, z, e, AtomEnergy(k, z, (v.0, v.1, v.2 + h)), Row(k, z, v).2, t)
  {
    hide Slopes;
    AxisIs(k, z, v.0, h, Square(InBohr(v.1)) + Square(InBohr(v.2)));
    AxisIs(k, z, v.1, h, Square(InBohr(v.0)) + Square(InBohr(v.2)));
    AxisIs(k, z, v.2, h, Square(InBohr(v.0)) + Square(InBohr(v.1)));
    hide Square;
    hide InBohr;
    hide Pull;
    SumOrder(Square(InBohr(v.0)), Square(InBohr(v.1)), Square(InBohr(v.2)));
    SumOrder(Square(InBohr(v.0)), Square(InBohr(v.1 + h)), Square(InBohr(v.2)));
    SumOrder(Square(InBohr(v.0)), Square(InBohr(v.1)), Square(InBohr(v.2 + h)));
    SumOrder(Square(InBohr(v.0 + h)), Square(InBohr(v.1)), Square(InBohr(v.2)));
    hide Well;
  }

  lemma SumOrder(a: real, b: real, c: real)
    ensures a + b + c == a + (b + c) == b + (a + c) == c + (a + b)
  {
  }

  lemma AxisIs(k: real, z: int, x: real, h: real, rest: real)
    ensures Slopes(k, z, Well(k, z, Square(InBohr(x)) + rest), Well(k, z, Square(InBohr(x + h)) + rest), Pull(k, z, x),
                   h / 0.529177210903)
  {
    var a, t := InBohr(x), h / 0.529177210903;
    assert InBohr(x + h) == a + t;
    SquareMore(a, t);
    assert Square(a + t) + rest == Square(a) + rest + (2.0 * (a * t) + t * t);
    WellMore(k, z, Square(a) + rest, a, t);
  }

  lemma SquareMore(a: real, t: real)
    ensures Square(a + t) == Square(a) + (2.0 * (a * t) + t * t)
  {
  }

  lemma WellMore(k: real, z: int, sum: real, a: real, t: real)
    ensures Well(k, z, sum + (2.0 * (a * t) + t * t))
         == Well(k, z, sum) + k * Charge(z) * a * t + 0.5 * k * Charge(z) * (t * t)
  {
    var c := k * Charge(z);
    Distribute(c, sum, a * t, t * t);
    assert c * a * t == c * (a * t);
    assert 0.5 * k * Charge(z) == 0.5 * c;
  }

  lemma Distribute(c: real, x: real, y: real, w: real)
    ensures 0.5 * c * (x + (2.0 * y + w)) == 0.5 * c * x + c * y + 0.5 * c * w
  {
  }

  lemma AtOrigin(k: real, z: int)
    ensures AtomEnergy(k, z, (0.0, 0.0, 0.0)) == 0.0 && Charge(z) == if z > 1 then z as real else 1.0
  {
  }

  /** The cell adds 1e-10 times the sum of its nine squares. */
  lemma CellIs(a: Vec, b: Vec, c: Vec)
    ensures CellEnergy(None) == 0.0
    ensures CellEnergy(Some((a, b, c))) * 10_000_000_000.0
         == a.0 * a.0 + a.1 * a.1 + a.2 * a.2 + b.0 * b.0 + b.1 * b.1 + b.2 * b.2 + c.0 * c.0 + c.1 * c.1 + c.2 * c.2
  {
  }

  /** The engine is the reference evaluator. */
  ghost predicate IsReference(engine: Engine, knobs: Setup -> Knobs) {
    forall m, g :: GeometryOk(g) ==>
      engine.run(m, g) == if Countable(g.z) then Some(Result(knobs(m), g)) else None
  }

  lemma ResultPermuted(knobs: Knobs, g0: Geometry, g: Geometry, p: seq<nat>)
    requires GeometryOk(g0) && GeometryOk(g) && Permuted(g0, g, p)
    ensures var (e, grad) := Result(knobs, g0);
      |grad| == |g0.z| && Result(knobs, g) == (e, Reordered(grad, p))
  {
    hide Row;
    hide AtomEnergy;
    hide CellEnergy;
    var k := knobs.stiffness;
    PermMultiset(p, Energies(k, g0), Energies(k, g));
    TotalPermuted(Energies(k, g0), Energies(k, g));
    assert Rows(k, g) == Reordered(Rows(k, g0), p);
  }

  /** The reference evaluator follows its atoms: what is proved of equivariant engines holds of it. */
  lemma ReferenceEquivariant(engine: Engine, knobs: Setup -> Knobs)
    requires IsReference(engine, knobs)
    ensures Equivariant(engine)
  {
    hide Result;
    forall m, g0, g, p |
      && GeometryOk(g0) && GeometryOk(g) && Permuted(g0, g, p)
      && engine.run(m, g0).Some? && |engine.run(m, g0).value.1| == |g0.z|
      ensures engine.run(m, g) == Some((engine.run(m, g0).value.0, Reordered(engine.run(m, g0).value.1, p)))
    {
      ResultPermuted(knobs(m), g0, g, p);
    }
  }

  /** How far a component of the gradient can be from the evaluator's own for the requested geometry. */
  function Slack(k: real, z: int): real {
    Pull(k, z, TOLERANCE)
  }

  lemma PullClose(k: real, z: int, x: real, y: real)
    requires k >= 0.0 && Near(x, y)
    ensures AbsR(Pull(k, z, x) - Pull(k, z, y)) <= Slack(k, z)
  {
    hide InBohr;
    InBohrClose(x, y);
    NotNegative(k, Charge(z));
    Scale(k * Charge(z), InBohr(x), InBohr(y), InBohr(TOLERANCE));
  }

  lemma InBohrClose(x: real, y: real)
    requires Near(x, y)
    ensures AbsR(InBohr(x) - InBohr(y)) <= InBohr(TOLERANCE)
  {
  }

  lemma NotNegative(a: real, b: real)
    requires a >= 0.0 && b >= 0.0
    ensures a * b >= 0.0
  {
  }

  lemma Scale(c: real, a: real, b: real, t: real)
    requires c >= 0.0 && AbsR(a - b) <= t
    ensures AbsR(c * a - c * b) <= c * t
  {
    assert c * a - c * b == c * (a - b);
    assert c * (a - b) <= c * t && c * (b - a) <= c * t;
  }

  /** No component further away than the tolerance makes it. */
  predicate RowClose(k: real, z: int, a: Vec, b: Vec) {
    AbsR(a.0 - b.0) <= Slack(k, z) && AbsR(a.1 - b.1) <= Slack(k, z) && AbsR(a.2 - b.2) <= Slack(k, z)
  }

  lemma RowsClose(k: real, g1: Geometry, g: Geometry)
    requires k >= 0.0 && GeometryOk(g1) && GeometryOk(g) && Nearby(g1, g)
    ensures forall j :: 0 <= j < |g.z| ==> RowClose(k, g.z[j], Rows(k, g1)[j], Rows(k, g)[j])
  {
    hide Pull;
    forall j | 0 <= j < |g.z|
      ensures RowClose(k, g.z[j], Rows(k, g1)[j], Rows(k, g)[j])
    {
      PullClose(k, g.z[j], g1.pos[j].0, g.pos[j].0);
      PullClose(k, g.z[j], g1.pos[j].1, g.pos[j].1);
      PullClose(k, g.z[j], g1.pos[j].2, g.pos[j].2);
    }
  }

  /** Over any run without a half-done change, a session on the reference evaluator answers with a gradient
      whose every component is within the tolerance, times stiffness and charge, of the one for the very
      geometry asked for, whether it comes from the cache or not. */
  lemma RepliesClose(engine: Engine, knobs: Setup -> Knobs, params: seq<int>, deck: string, embed: bool,
                     ops: seq<Op>, i: nat)
    requires IsReference(engine, knobs) && engine.render(params, None) == Some(deck)
    requires OpsOk(ops) && AllHarmless(engine, Created(params, deck, embed), ops) && i < |ops| && ops[i].Evaluate?
    ensures var st := After(engine, Created(params, deck, embed), ops[..i]);
      var k, g, r := knobs(st.setup).stiffness, ops[i].g, Step(engine, st, ops[i]).1;
      r.Ok? && k >= 0.0 ==>
        |r.grad| == |g.z| && forall j :: 0 <= j < |g.z| ==> RowClose(k, g.z[j], r.grad[j], Rows(k, g)[j])
  {
    hide Harmless;
    hide Genuine;
    hide Rows;
    hide Nearby;
    hide RowClose;
    hide Equivariant;
    hide Total;
    hide CellEnergy;
    EveryReplyGenuine(engine, params, deck, embed, ops, i);
    ReferenceEquivariant(engine, knobs);
    var st := After(engine, Created(params, deck, embed), ops[..i]);
    var k, g, r := knobs(st.setup).stiffness, ops[i].g, Step(engine, st, ops[i]).1;
    if r.Ok? && k >= 0.0 {
      var g1 := GenuineIsDirect(engine, st.setup, g, r);
      RowsClose(k, g1, g);
      RowCount(k, g1, g);
    }
  }

  lemma RowCount(k: real, g1: Geometry, g: Geometry)
    requires GeometryOk(g1) && GeometryOk(g) && Nearby(g1, g)
    ensures |Rows(k, g1)| == |Rows(k, g)| == |g.z|
  {
  }
}
