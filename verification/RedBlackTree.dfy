/** The red-black tree of capn.c: heap nodes with parent links, and the insertion that rebalances
    them in place.  The same node header indexes segments by id and copies by source interval. */
module RedBlackTree {

  /** The two child links `link[0]` and `link[1]`, picked by a side. */
  datatype Links<T> = Links(left: Node?<T>, right: Node?<T>) {
    function Get(dir: bool): Node?<T> {
      if dir then right else left
    }

    function Put(dir: bool, x: Node?<T>): (k: Links<T>)
      ensures k.Get(dir) == x && k.Get(!dir) == Get(!dir)
    {
      if dir then Links(left, x) else Links(x, right)
    }
  }

  /** `struct capn_tree`, together with the record that embeds it. */
  class Node<T> {
    const item: T
    var parent: Node?<T>
    var link: Links<T>
    var red: bool

    constructor (item: T)
      ensures this.item == item && parent == null && link == Links(null, null)
    {
      this.item := item;
      parent, link, red := null, Links(null, null), false;
    }
  }

  /** The shape that a set of nodes stands for. */
  datatype Tree<T> = Leaf | Branch(l: Tree<T>, node: Node<T>, red: bool, r: Tree<T>)

  /** A tree with one hole, read from the hole upwards. */
  datatype Path<T> =
    | Top
    | Down(dir: bool, node: Node<T>, red: bool, other: Tree<T>, up: Path<T>)

  // ----- contents

  ghost function Nodes<T>(t: Tree<T>): set<Node<T>> {
    match t
    case Leaf => {}
    case Branch(l, n, _, r) => Nodes(l) + {n} + Nodes(r)
  }

  ghost function PathNodes<T>(p: Path<T>): set<Node<T>> {
    match p
    case Top => {}
    case Down(_, n, _, o, up) => {n} + Nodes(o) + PathNodes(up)
  }

  ghost function InOrder<T>(t: Tree<T>): seq<Node<T>> {
    match t
    case Leaf => []
    case Branch(l, n, _, r) => InOrder(l) + [n] + InOrder(r)
  }

  /** What comes before, and after, the hole. */
  ghost function Before<T>(p: Path<T>): seq<Node<T>> {
    match p
    case Top => []
    case Down(dir, n, _, o, up) => if dir then Before(up) + InOrder(o) + [n] else Before(up)
  }

  ghost function After<T>(p: Path<T>): seq<Node<T>> {
    match p
    case Top => []
    case Down(dir, n, _, o, up) => if dir then After(up) else [n] + InOrder(o) + After(up)
  }

  ghost predicate Distinct<T>(t: Tree<T>) {
    match t
    case Leaf => true
    case Branch(l, n, _, r) =>
      n !in Nodes(l) && n !in Nodes(r) && Nodes(l) !! Nodes(r) && Distinct(l) && Distinct(r)
  }

  ghost predicate PathDistinct<T>(p: Path<T>) {
    match p
    case Top => true
    case Down(_, n, _, o, up) =>
      n !in Nodes(o) && n !in PathNodes(up) && Nodes(o) !! PathNodes(up) && Distinct(o) && PathDistinct(up)
  }

  // ----- the heap

  datatype Cell<T> = Cell(parent: Node?<T>, link: Links<T>, red: bool)

  /** The fields of a set of nodes at one moment. */
  type Image<T> = map<Node<T>, Cell<T>>

  ghost function Snap<T>(all: set<Node<T>>): (m: Image<T>)
    reads all
  {
    map n | n in all :: Cell(n.parent, n.link, n.red)
  }

  /** The nodes below `x` form `t`, and every parent link is the inverse of a child link. */
  ghost predicate Rep<T>(t: Tree<T>, x: Node?<T>, parent: Node?<T>, m: Image<T>) {
    match t
    case Leaf => x == null
    case Branch(l, n, red, r) =>
      x == n && n in m && m[n].parent == parent && m[n].red == red
      && Rep(l, m[n].link.left, n, m) && Rep(r, m[n].link.right, n, m)
  }

  /** The nodes around a hole form `p`: `x` fills the hole, `parent` is the node above it. */
  ghost predicate PathRep<T>(p: Path<T>, x: Node?<T>, parent: Node?<T>, m: Image<T>) {
    match p
    case Top => parent == null
    case Down(dir, n, red, o, up) =>
      parent == n && n in m && m[n].link.Get(dir) == x && m[n].red == red
      && Rep(o, m[n].link.Get(!dir), n, m) && PathRep(up, n, m[n].parent, m)
  }

  ghost function Root<T>(p: Path<T>, x: Node?<T>): Node?<T> {
    match p
    case Top => x
    case Down(_, n, _, _, up) => Root(up, n)
  }

  ghost predicate Agree<T>(m: Image<T>, m': Image<T>, on: set<Node<T>>) {
    forall n :: n in on && n in m ==> n in m' && m'[n] == m[n]
  }

  lemma {:induction false} RepFrame<T>(t: Tree<T>, x: Node?<T>, parent: Node?<T>, m: Image<T>, m': Image<T>)
    requires Rep(t, x, parent, m) && Agree(m, m', Nodes(t))
    ensures Rep(t, x, parent, m')
  {
    if t.Branch? {
      RepFrame(t.l, m[t.node].link.left, t.node, m, m');
      RepFrame(t.r, m[t.node].link.right, t.node, m, m');
    }
  }

  /** Only the parent link of the root has changed. */
  lemma {:induction false} RepMoved<T>(t: Tree<T>, x: Node?<T>, was: Node<T>, now: Node<T>, m: Image<T>, m': Image<T>)
    requires Rep(t, x, was, m) && Distinct(t) && Agree(m, m', Nodes(t) - {x})
    requires x != null && x in m ==> x in m' && m'[x] == m[x].(parent := now)
    ensures Rep(t, x, now, m')
  {
    if t.Branch? {
      RepFrame(t.l, m[t.node].link.left, t.node, m, m');
      RepFrame(t.r, m[t.node].link.right, t.node, m, m');
    }
  }

  lemma {:induction false} PathFrame<T>(p: Path<T>, x: Node?<T>, parent: Node?<T>, m: Image<T>, m': Image<T>)
    requires PathRep(p, x, parent, m) && Agree(m, m', PathNodes(p))
    ensures PathRep(p, x, parent, m')
  {
    if p.Down? {
      RepFrame(p.other, m[p.node].link.Get(!p.dir), p.node, m, m');
      PathFrame(p.up, p.node, m[p.node].parent, m, m');
    }
  }

  // ----- colours and heights

  ghost predicate IsRed<T>(t: Tree<T>) { t.Branch? && t.red }

  ghost predicate NoRedRed<T>(t: Tree<T>) {
    match t
    case Leaf => true
    case Branch(l, _, red, r) => (red ==> !IsRed(l) && !IsRed(r)) && NoRedRed(l) && NoRedRed(r)
  }

  /** Every downward path crosses `h` black nodes. */
  ghost predicate BlackHeight<T>(t: Tree<T>, h: nat) {
    match t
    case Leaf => h == 0
    case Branch(l, _, red, r) =>
      if red then BlackHeight(l, h) && BlackHeight(r, h)
      else h > 0 && BlackHeight(l, h - 1) && BlackHeight(r, h - 1)
  }

  ghost predicate RedBlack<T>(t: Tree<T>) {
    !IsRed(t) && NoRedRed(t) && exists h :: BlackHeight(t, h)
  }

  /** The path is what remains of a red-black tree once a subtree of black height `h` is cut out. */
  ghost predicate PathOk<T>(p: Path<T>, h: nat) {
    match p
    case Top => true
    case Down(_, _, red, o, up) =>
      NoRedRed(o) && BlackHeight(o, h) &&
      (red ==> !IsRed(o) && up.Down? && !up.red) &&
      PathOk(up, if red then h else h + 1)
  }

  /** The tree at `n` whose child on side `dir` is `t` and whose other child is `o`. */
  ghost function Join<T>(dir: bool, n: Node<T>, red: bool, o: Tree<T>, t: Tree<T>): Tree<T> {
    if dir then Branch(o, n, red, t) else Branch(t, n, red, o)
  }

  ghost function Child<T>(t: Tree<T>, dir: bool): Tree<T>
    requires t.Branch?
  {
    if dir then t.r else t.l
  }

  ghost function Plug<T>(p: Path<T>, t: Tree<T>): Tree<T> {
    match p
    case Top => t
    case Down(dir, n, red, o, up) => Plug(up, Join(dir, n, red, o, t))
  }

  // ----- plugging

  lemma {:induction false} PlugRep<T>(p: Path<T>, t: Tree<T>, x: Node?<T>, parent: Node?<T>, m: Image<T>)
    requires PathRep(p, x, parent, m) && Rep(t, x, parent, m)
    ensures Rep(Plug(p, t), Root(p, x), null, m)
  {
    match p
    case Top =>
    case Down(dir, n, red, o, up) =>
      PlugRep(up, Join(dir, n, red, o, t), n, m[n].parent, m);
  }

  lemma Regroup<A>(a: seq<A>, b: seq<A>, c: seq<A>, d: seq<A>, e: seq<A>)
    ensures a + (b + c + d) + e == (a + b + c) + d + e
    ensures a + (b + c + d) + e == a + b + (c + d + e)
  {
  }

  lemma {:induction false} PlugInOrder<T>(p: Path<T>, t: Tree<T>)
    ensures InOrder(Plug(p, t)) == Before(p) + InOrder(t) + After(p)
  {
    match p
    case Top =>
      assert [] + InOrder(t) + [] == InOrder(t);
    case Down(dir, n, red, o, up) =>
      PlugInOrder(up, Join(dir, n, red, o, t));
      if dir {
        Regroup(Before(up), InOrder(o), [n], InOrder(t), After(up));
      } else {
        Regroup(Before(up), InOrder(t), [n], InOrder(o), After(up));
      }
  }

  lemma {:induction false} PlugNodes<T>(p: Path<T>, t: Tree<T>)
    ensures Nodes(Plug(p, t)) == PathNodes(p) + Nodes(t)
  {
    match p
    case Top =>
    case Down(dir, n, red, o, up) =>
      PlugNodes(up, Join(dir, n, red, o, t));
  }

  lemma {:induction false} PlugDistinct<T>(p: Path<T>, t: Tree<T>)
    ensures Distinct(Plug(p, t)) <==> PathDistinct(p) && Distinct(t) && PathNodes(p) !! Nodes(t)
  {
    match p
    case Top =>
    case Down(dir, n, red, o, up) =>
      PlugDistinct(up, Join(dir, n, red, o, t));
  }

  lemma {:induction false} PlugRedBlack<T>(p: Path<T>, t: Tree<T>, h: nat)
    requires NoRedRed(t) && BlackHeight(t, h) && PathOk(p, h)
    requires IsRed(t) ==> p.Down? && !p.red
    ensures RedBlack(Plug(p, t))
  {
    match p
    case Top =>
    case Down(dir, n, red, o, up) =>
      PlugRedBlack(up, Join(dir, n, red, o, t), if red then h else h + 1);
  }

  /** What the loop of the insertion keeps, colours aside: `t` is the red subtree that may clash
      with its parent, `p` the rest of the tree, `seen` the in-order sequence of both. */
  ghost predicate Pending<T>(p: Path<T>, t: Tree<T>, h: nat, seen: seq<Node<T>>, all: set<Node<T>>) {
    && t.Branch? && t.red && NoRedRed(t) && BlackHeight(t, h) && PathOk(p, h)
    && Distinct(t) && PathDistinct(p) && Nodes(t) !! PathNodes(p)
    && Before(p) + InOrder(t) + After(p) == seen
    && Nodes(t) + PathNodes(p) == all
  }

  /** A finished tree with the wanted contents. */
  ghost predicate Settled<T>(t: Tree<T>, seen: seq<Node<T>>, all: set<Node<T>>) {
    RedBlack(t) && Distinct(t) && InOrder(t) == seen && Nodes(t) == all
  }

  /** The grandparent's subtree after parent and uncle turn black and the grandparent red. */
  ghost function Recoloured<T>(p: Path<T>, t: Tree<T>): Tree<T>
    requires p.Down? && p.up.Down? && p.up.other.Branch?
  {
    Join(p.up.dir, p.up.node, true, p.up.other.(red := false), Join(p.dir, p.node, false, p.other, t))
  }

  ghost function RotatedOnce<T>(p: Path<T>, t: Tree<T>): Tree<T>
    requires p.Down? && p.up.Down?
  {
    Join(p.dir, p.node, false, Join(p.dir, p.up.node, true, p.up.other, p.other), t)
  }

  ghost function RotatedTwice<T>(p: Path<T>, t: Tree<T>): Tree<T>
    requires p.Down? && p.up.Down? && t.Branch?
  {
    Join(p.up.dir, t.node, false, Join(p.up.dir, p.up.node, true, p.up.other, Child(t, p.dir)),
         Join(p.up.dir, p.node, true, Child(t, !p.dir), p.other))
  }

  lemma PlugSettled<T>(p: Path<T>, t: Tree<T>, h: nat, seen: seq<Node<T>>, all: set<Node<T>>)
    requires NoRedRed(t) && BlackHeight(t, h) && PathOk(p, h) && (IsRed(t) ==> p.Down? && !p.red)
    requires Distinct(t) && PathDistinct(p) && Nodes(t) !! PathNodes(p)
    requires Before(p) + InOrder(t) + After(p) == seen && Nodes(t) + PathNodes(p) == all
    ensures Settled(Plug(p, t), seen, all)
  {
    PlugInOrder(p, t);
    PlugNodes(p, t);
    PlugDistinct(p, t);
    PlugRedBlack(p, t, h);
  }

  /** The in-order sequence seen through a parent and a grandparent. */
  lemma GrandInOrder<T>(p: Path<T>, t: Tree<T>)
    requires p.Down? && p.up.Down?
    ensures Before(p) + InOrder(t) + After(p)
         == Before(p.up.up) + InOrder(Join(p.up.dir, p.up.node, p.up.red, p.up.other,
                                           Join(p.dir, p.node, p.red, p.other, t)))
            + After(p.up.up)
  {
    var j := Join(p.dir, p.node, p.red, p.other, t);
    JoinInOrder(p, t);
    JoinInOrder(p.up, j);
  }

  lemma JoinInOrder<T>(p: Path<T>, t: Tree<T>)
    requires p.Down?
    ensures Before(p) + InOrder(t) + After(p)
         == Before(p.up) + InOrder(Join(p.dir, p.node, p.red, p.other, t)) + After(p.up)
  {
    if p.dir {
      Regroup(Before(p.up), InOrder(p.other), [p.node], InOrder(t), After(p.up));
    } else {
      Regroup(Before(p.up), InOrder(t), [p.node], InOrder(p.other), After(p.up));
    }
  }

  lemma Regroup7<A>(a: seq<A>, b: seq<A>, c: seq<A>, d: seq<A>, e: seq<A>, f: seq<A>, g: seq<A>)
    ensures a + b + (c + d + (e + f + g)) == (a + b + c) + d + (e + f + g)
    ensures a + b + ((c + d + e) + f + g) == (a + b + c) + d + (e + f + g)
    ensures (a + b + (c + d + e)) + f + g == (a + b + c) + d + (e + f + g)
    ensures ((a + b + c) + d + e) + f + g == (a + b + c) + d + (e + f + g)
  {
  }

  /** Recolouring and both rotations keep the in-order sequence of the grandparent's subtree. */
  lemma RotationInOrder<T>(p: Path<T>, t: Tree<T>)
    requires p.Down? && p.up.Down? && t.Branch?
    ensures var s := InOrder(Join(p.up.dir, p.up.node, p.up.red, p.up.other, Join(p.dir, p.node, p.red, p.other, t)));
      && (p.up.other.Branch? ==> InOrder(Recoloured(p, t)) == s)
      && (p.dir == p.up.dir ==> InOrder(RotatedOnce(p, t)) == s)
      && (p.dir != p.up.dir ==> InOrder(RotatedTwice(p, t)) == s)
  {
    var o1, o2, n, g := InOrder(p.other), InOrder(p.up.other), [p.node], [p.up.node];
    var a, x, b := InOrder(t.l), [t.node], InOrder(t.r);
    assert InOrder(t) == a + x + b;
    if p.up.dir {
      if p.dir { Regroup7(o2, g, o1, n, a, x, b); } else { Regroup7(o2, g, a, x, b, n, o1); }
    } else {
      if p.dir { Regroup7(o1, n, a, x, b, g, o2); } else { Regroup7(a, x, b, n, o1, g, o2); }
    }
  }

  lemma {:induction false} RecolouredFits<T>(p: Path<T>, t: Tree<T>, h: nat, seen: seq<Node<T>>, all: set<Node<T>>)
    requires Pending(p, t, h, seen, all) && p.Down? && p.red && IsRed(p.up.other)
    ensures var s := Recoloured(p, t);
      && NoRedRed(s) && BlackHeight(s, h + 1) && PathOk(p.up.up, h + 1)
      && Distinct(s) && PathDistinct(p.up.up) && Nodes(s) !! PathNodes(p.up.up)
      && Nodes(s) + PathNodes(p.up.up) == all
  {
    assert PathOk(p.up, h) && PathDistinct(p.up);
  }

  lemma {:induction false} RecolouredPending<T>(p: Path<T>, t: Tree<T>, h: nat, seen: seq<Node<T>>, all: set<Node<T>>)
    requires Pending(p, t, h, seen, all) && p.Down? && p.red && IsRed(p.up.other)
    ensures Pending(p.up.up, Recoloured(p, t), h + 1, seen, all)
  {
    RecolouredFits(p, t, h, seen, all);
    GrandInOrder(p, t);
    RotationInOrder(p, t);
  }

  ghost predicate Fits<T>(p: Path<T>, s: Tree<T>, h: nat, all: set<Node<T>>)
    requires p.Down? && p.up.Down?
  {
    && !IsRed(s) && NoRedRed(s) && BlackHeight(s, h + 1) && PathOk(p.up.up, h + 1)
    && Distinct(s) && PathDistinct(p.up.up) && Nodes(s) !! PathNodes(p.up.up)
    && Nodes(s) + PathNodes(p.up.up) == all
  }

  lemma {:induction false} RotationFits<T>(p: Path<T>, t: Tree<T>, h: nat, seen: seq<Node<T>>, all: set<Node<T>>)
    requires Pending(p, t, h, seen, all) && p.Down? && p.red && !IsRed(p.up.other)
    ensures Fits(p, if p.up.dir == p.dir then RotatedOnce(p, t) else RotatedTwice(p, t), h, all)
  {
    if p.up.dir == p.dir {
      OnceFits(p, t, h, seen, all);
    } else {
      TwiceFits(p, t, h, seen, all);
    }
  }

  lemma {:induction false} OnceFits<T>(p: Path<T>, t: Tree<T>, h: nat, seen: seq<Node<T>>, all: set<Node<T>>)
    requires Pending(p, t, h, seen, all) && p.Down? && p.red && !IsRed(p.up.other)
    ensures Fits(p, RotatedOnce(p, t), h, all)
  {
    assert PathOk(p.up, h) && PathDistinct(p.up);
  }

  lemma {:induction false} TwiceFits<T>(p: Path<T>, t: Tree<T>, h: nat, seen: seq<Node<T>>, all: set<Node<T>>)
    requires Pending(p, t, h, seen, all) && p.Down? && p.red && !IsRed(p.up.other)
    ensures Fits(p, RotatedTwice(p, t), h, all)
  {
    TwiceBalanced(p, t, h);
    TwiceDistinct(p, t);
  }

  lemma {:induction false} TwiceBalanced<T>(p: Path<T>, t: Tree<T>, h: nat)
    requires t.Branch? && t.red && NoRedRed(t) && BlackHeight(t, h) && PathOk(p, h)
    requires p.Down? && p.red && !IsRed(p.up.other)
    ensures var s := RotatedTwice(p, t);
      !IsRed(s) && NoRedRed(s) && BlackHeight(s, h + 1) && PathOk(p.up.up, h + 1)
  {
    assert PathOk(p.up, h);
  }

  lemma {:induction false} TwiceDistinct<T>(p: Path<T>, t: Tree<T>)
    requires p.Down? && p.up.Down? && t.Branch? && Distinct(t) && PathDistinct(p) && Nodes(t) !! PathNodes(p)
    ensures var s, up := RotatedTwice(p, t), p.up.up;
      && Distinct(s) && PathDistinct(up) && Nodes(s) !! PathNodes(up)
      && Nodes(s) + PathNodes(up) == Nodes(t) + PathNodes(p)
  {
    hide PathDistinct;
    hide Distinct;
    hide Nodes;
    FamilyApart(p, t);
    var l, r := Child(t, p.dir), Child(t, !p.dir);
    assert t == Join(p.dir, t.node, t.red, r, l);
    DistinctJoin(p.dir, t.node, t.red, r, l);
    DistinctJoin(p.up.dir, p.up.node, true, p.up.other, l);
    DistinctJoin(p.up.dir, p.node, true, r, p.other);
    DistinctJoin(p.up.dir, t.node, false, Join(p.up.dir, p.up.node, true, p.up.other, l),
                 Join(p.up.dir, p.node, true, r, p.other));
    assert PathNodes(p) == Nodes(p.other) + {p.node} + PathNodes(p.up);
    assert PathNodes(p.up) == Nodes(p.up.other) + {p.up.node} + PathNodes(p.up.up);
  }

  lemma {:induction false} DistinctJoin<T>(dir: bool, n: Node<T>, red: bool, o: Tree<T>, t: Tree<T>)
    ensures Distinct(Join(dir, n, red, o, t)) <==>
      Distinct(o) && Distinct(t) && n !in Nodes(o) && n !in Nodes(t) && Nodes(o) !! Nodes(t)
    ensures Nodes(Join(dir, n, red, o, t)) == Nodes(o) + Nodes(t) + {n}
  {
  }

  lemma {:induction false} RotationSettled<T>(p: Path<T>, t: Tree<T>, h: nat, seen: seq<Node<T>>, all: set<Node<T>>)
    requires Pending(p, t, h, seen, all) && p.Down? && p.red && !IsRed(p.up.other)
    ensures Settled(Plug(p.up.up, if p.up.dir == p.dir then RotatedOnce(p, t) else RotatedTwice(p, t)), seen, all)
  {
    RotationFits(p, t, h, seen, all);
    GrandInOrder(p, t);
    RotationInOrder(p, t);
    PlugSettled(p.up.up, if p.up.dir == p.dir then RotatedOnce(p, t) else RotatedTwice(p, t), h + 1, seen, all);
  }

  // ----- the heap moves

  /** `*gglink = n`: whatever pointed at `g`, a child link of `gp` or the root, now points at `n`. */
  method Relink<T>(root: Node?<T>, gp: Node?<T>, g: Node<T>, n: Node<T>, ghost dir: bool) returns (root': Node?<T>)
    requires gp != null ==> gp.link.Get(dir) == g && gp.link.Get(!dir) != g
    modifies (if gp == null then {} else {gp})`link
    ensures root' == if gp == null then n else root
    ensures gp != null ==> gp.link == old(gp.link).Put(dir, n)
  {
    root' := root;
    if gp == null {
      root' := n;
    } else if gp.link.right == g {
      gp.link := gp.link.Put(true, n);
    } else {
      gp.link := gp.link.Put(false, n);
    }
  }

  lemma {:induction false} RelinkRep<T>(up: Path<T>, g: Node?<T>, n: Node<T>, gp: Node?<T>, m: Image<T>, m': Image<T>)
    requires PathRep(up, g, gp, m) && PathDistinct(up)
    requires gp != null ==> up.node in m' && m'[up.node] == m[up.node].(link := m[up.node].link.Put(up.dir, n))
    requires Agree(m, m', PathNodes(up) - {gp})
    ensures PathRep(up, n, gp, m')
    ensures up.Down? ==> Root(up, n) == Root(up, g)
  {
    if up.Down? {
      RepFrame(up.other, m[gp].link.Get(!up.dir), gp, m, m');
      PathFrame(up.up, gp, m[gp].parent, m, m');
    }
  }

  /** The neighbourhood of a red node with a red parent, one equation per field. */
  ghost predicate Family<T>(p: Path<T>, t: Tree<T>, x: Node<T>, par: Node<T>, g: Node<T>, m: Image<T>)
    requires p.Down? && p.up.Down?
  {
    && p.node == par && p.up.node == g && x in m && par in m && g in m
    && m[x].parent == par && m[par].parent == g && m[par].link.Get(p.dir) == x && m[g].link.Get(p.up.dir) == par
    && m[par].red == p.red && m[g].red == p.up.red
    && Rep(t, x, par, m) && Rep(p.other, m[par].link.Get(!p.dir), par, m)
    && Rep(p.up.other, m[g].link.Get(!p.up.dir), g, m) && PathRep(p.up.up, g, m[g].parent, m)
  }

  lemma {:induction false} FamilyRep<T>(p: Path<T>, t: Tree<T>, x: Node<T>, par: Node<T>, m: Image<T>)
    requires p.Down? && p.up.Down? && PathRep(p, x, par, m) && Rep(t, x, par, m) && t.Branch?
    ensures par in m && m[par].parent != null && Family(p, t, x, par, m[par].parent, m)
  {
    assert PathRep(p.up, par, m[par].parent, m);
  }

  ghost predicate PathApart<T>(p: Path<T>, t: Tree<T>)
    requires p.Down? && p.up.Down?
  {
    && Distinct(t) && Distinct(p.other) && Distinct(p.up.other) && PathDistinct(p.up.up)
    && p.node != p.up.node
    && p.node !in Nodes(t) && p.node !in Nodes(p.other) && p.node !in Nodes(p.up.other) && p.node !in PathNodes(p.up.up)
    && p.up.node !in Nodes(t) && p.up.node !in Nodes(p.other) && p.up.node !in Nodes(p.up.other)
    && p.up.node !in PathNodes(p.up.up)
    && Nodes(t) !! Nodes(p.other) && Nodes(t) !! Nodes(p.up.other) && Nodes(t) !! PathNodes(p.up.up)
    && Nodes(p.other) !! Nodes(p.up.other) && Nodes(p.other) !! PathNodes(p.up.up)
    && Nodes(p.up.other) !! PathNodes(p.up.up)
  }

  lemma {:induction false} FamilyApart<T>(p: Path<T>, t: Tree<T>)
    requires p.Down? && p.up.Down? && Distinct(t) && PathDistinct(p) && Nodes(t) !! PathNodes(p)
    ensures PathApart(p, t)
  {
    assert PathDistinct(p.up);
  }

  /** Case 3 on the image: parent and uncle black, grandparent red. */
  lemma {:induction false} RecolouredRep<T>(p: Path<T>, t: Tree<T>, x: Node<T>, par: Node<T>, g: Node<T>, u: Node<T>,
                                            m: Image<T>, m': Image<T>)
    requires p.Down? && p.up.Down? && p.up.other.Branch? && Family(p, t, x, par, g, m) && PathApart(p, t)
    requires u == m[g].link.Get(!p.up.dir) && u in m && {par, g, u} <= m'.Keys
    requires m'[par] == m[par].(red := false) && m'[g] == m[g].(red := true) && m'[u] == m[u].(red := false)
    requires Agree(m, m', m.Keys - {par, g, u})
    ensures Rep(Recoloured(p, t), g, m[g].parent, m') && PathRep(p.up.up, g, m[g].parent, m')
  {
    var o := p.up.other;
    PathFrame(p.up.up, g, m[g].parent, m, m');
    RepFrame(t, x, par, m, m');
    RepFrame(p.other, m[par].link.Get(!p.dir), par, m, m');
    RepFrame(o.l, m[u].link.left, u, m, m');
    RepFrame(o.r, m[u].link.right, u, m, m');
    assert Rep(o.(red := false), u, g, m');
    assert Rep(Join(p.dir, par, false, p.other, t), par, g, m');
  }

  lemma JoinRep<T>(dir: bool, n: Node<T>, red: bool, o: Tree<T>, t: Tree<T>, parent: Node?<T>, m: Image<T>)
    requires n in m && m[n].parent == parent && m[n].red == red
    requires Rep(t, m[n].link.Get(dir), n, m) && Rep(o, m[n].link.Get(!dir), n, m)
    ensures Rep(Join(dir, n, red, o, t), n, parent, m)
  {
  }

  lemma AgreeOff<T>(m: Image<T>, m': Image<T>, w: set<Node?<T>>, on: set<Node<T>>)
    requires Agree(m, m', m.Keys - w) && forall n :: n in on ==> n !in w
    ensures Agree(m, m', on)
  {
  }

  /** Case 5 on the image. */
  lemma {:induction false} RotatedOnceRep<T>(p: Path<T>, t: Tree<T>, x: Node<T>, par: Node<T>, g: Node<T>,
                                             three: Node?<T>, m: Image<T>, m1: Image<T>, m': Image<T>)
    requires p.Down? && p.up.Down? && Family(p, t, x, par, g, m) && PathApart(p, t) && p.dir == p.up.dir
    requires three == m[par].link.Get(!p.dir) && (three != null ==> three in m)
    requires Agree(m, m1, m.Keys - {m[g].parent}) && PathRep(p.up.up, par, m[g].parent, m1)
    requires m1.Keys == m'.Keys == m.Keys
    requires m'[g] == Cell(par, m[g].link.Put(p.dir, three), true)
    requires m'[par] == Cell(m[g].parent, m[par].link.Put(!p.dir, g), false)
    requires three != null ==> m'[three] == m[three].(parent := g)
    requires Agree(m1, m', m.Keys - {par, g, three})
    ensures Rep(Plug(p.up.up, RotatedOnce(p, t)), Root(p.up.up, par), null, m')
  {
    var up, o1, o2, gp, dir := p.up.up, p.other, p.up.other, m[g].parent, p.dir;
    var w: set<Node?<T>> := {par, g, three, gp};
    assert gp != null ==> gp in PathNodes(up);
    assert three != null ==> three in Nodes(o1);
    assert PathRep(up, par, gp, m') by {
      AgreeOff(m1, m', {par, g, three}, PathNodes(up));
      PathFrame(up, par, gp, m1, m');
    }
    assert Agree(m, m', m.Keys - w);
    assert Rep(o1, three, g, m') by {
      AgreeOff(m, m', w, Nodes(o1) - {three});
      RepMoved(o1, three, par, g, m, m');
    }
    assert Rep(o2, m[g].link.Get(!dir), g, m') by {
      AgreeOff(m, m', w, Nodes(o2));
      RepFrame(o2, m[g].link.Get(!dir), g, m, m');
    }
    assert Rep(t, x, par, m') by {
      AgreeOff(m, m', w, Nodes(t));
      RepFrame(t, x, par, m, m');
    }
    JoinRep(dir, g, true, o2, o1, par, m');
    JoinRep(dir, par, false, Join(dir, g, true, o2, o1), t, gp, m');
    PlugRep(up, RotatedOnce(p, t), par, gp, m');
  }

  /** Case 4 on the image, below the grandparent's old place. */
  lemma {:induction false} RotatedTwiceParts<T>(p: Path<T>, t: Tree<T>, x: Node<T>, par: Node<T>, g: Node<T>,
                                                two: Node?<T>, three: Node?<T>, m: Image<T>, m': Image<T>)
    requires p.Down? && p.up.Down? && Family(p, t, x, par, g, m) && PathApart(p, t) && p.dir != p.up.dir && t.Branch?
      && p.red
    requires two == m[x].link.Get(!p.dir) && three == m[x].link.Get(p.dir)
    requires (two != null ==> two in m) && (three != null ==> three in m)
    requires m'.Keys == m.Keys
    requires two != null ==> m'[two] == m[two].(parent := par)
    requires three != null ==> m'[three] == m[three].(parent := g)
    requires Agree(m, m', m.Keys - {x, par, g, two, three, m[g].parent})
    ensures Rep(Child(t, !p.dir), two, par, m') && Rep(Child(t, p.dir), three, g, m')
    ensures Rep(p.other, m[par].link.Get(!p.dir), par, m') && Rep(p.up.other, m[g].link.Get(p.dir), g, m')
  {
    var o1, o2, gp, dir := p.other, p.up.other, m[g].parent, p.up.dir;
    var t2, t3 := Child(t, dir), Child(t, !dir);
    var w: set<Node?<T>> := {x, par, g, two, three, gp};
    assert gp != null ==> gp in PathNodes(p.up.up);
    assert Rep(t2, two, x, m) && Rep(t3, three, x, m);
    NodeBelow(t2, two, x, m);
    NodeBelow(t3, three, x, m);
    hide Rep;
    hide PathRep;
    AgreeOff(m, m', w, Nodes(t2) - {two});
    RepMoved(t2, two, x, par, m, m');
    AgreeOff(m, m', w, Nodes(t3) - {three});
    RepMoved(t3, three, x, g, m, m');
    OuterParts(p, t, x, par, g, w, m, m');
  }

  lemma {:induction false} OuterParts<T>(p: Path<T>, t: Tree<T>, x: Node<T>, par: Node<T>, g: Node<T>,
                                         w: set<Node?<T>>, m: Image<T>, m': Image<T>)
    requires p.Down? && p.up.Down? && Family(p, t, x, par, g, m) && Agree(m, m', m.Keys - w)
    requires forall n :: n in Nodes(p.other) + Nodes(p.up.other) ==> n !in w
    ensures Rep(p.other, m[par].link.Get(!p.dir), par, m') && Rep(p.up.other, m[g].link.Get(!p.up.dir), g, m')
  {
    hide Rep;
    hide PathRep;
    AgreeOff(m, m', w, Nodes(p.other));
    RepFrame(p.other, m[par].link.Get(!p.dir), par, m, m');
    AgreeOff(m, m', w, Nodes(p.up.other));
    RepFrame(p.up.other, m[g].link.Get(!p.up.dir), g, m, m');
  }

  lemma {:induction false} NodeBelow<T>(t: Tree<T>, n: Node?<T>, parent: Node?<T>, m: Image<T>)
    requires Rep(t, n, parent, m)
    ensures n != null ==> n in Nodes(t)
  {
  }

  /** The node's sibling lies below the parent. */
  lemma {:induction false} Sibling<T>(p: Path<T>, t: Tree<T>, x: Node<T>, par: Node<T>, g: Node<T>, m: Image<T>)
    requires p.Down? && p.up.Down? && Family(p, t, x, par, g, m) && PathApart(p, t)
    ensures var three := m[par].link.Get(!p.dir);
      three != null ==> three in Nodes(p.other) && three !in {par, g, m[g].parent}
    ensures m[g].parent !in {par, g}
    ensures g !in PathNodes(p.up.up) && PathDistinct(p.up.up) && PathRep(p.up.up, g, m[g].parent, m)
  {
    assert m[g].parent != null ==> m[g].parent in PathNodes(p.up.up);
  }

  lemma {:induction false} Grandchildren<T>(p: Path<T>, t: Tree<T>, x: Node<T>, par: Node<T>, g: Node<T>, m: Image<T>)
    requires p.Down? && p.up.Down? && Family(p, t, x, par, g, m) && PathApart(p, t) && t.Branch?
    ensures m[x].link.left != null ==>
      m[x].link.left in Nodes(t) && m[x].link.left !in {x, par, g, m[g].parent, m[x].link.right}
    ensures m[x].link.right != null ==>
      m[x].link.right in Nodes(t) && m[x].link.right !in {x, par, g, m[g].parent, m[x].link.left}
    ensures m[g].parent !in {x, par, g}
    ensures par != x && g != x
    ensures Rep(t.l, m[x].link.left, x, m) && Rep(t.r, m[x].link.right, x, m) && t.node == x
    ensures m[x].link.left !in PathNodes(p.up.up) && m[x].link.right !in PathNodes(p.up.up)
    ensures m[g].parent == if p.up.up.Down? then p.up.up.node else null
  {
    assert Rep(t.l, m[x].link.left, x, m) && Rep(t.r, m[x].link.right, x, m);
    assert m[g].parent != null ==> m[g].parent in PathNodes(p.up.up);
  }

  /** The effect of the stores of case 4. */
  ghost predicate StoredTwice<T>(m: Image<T>, m': Image<T>, n: Node<T>, par: Node<T>, g: Node<T>, dir: bool) {
    && n in m && par in m && g in m && m'.Keys == m.Keys
    && var two, three := m[n].link.Get(dir), m[n].link.Get(!dir);
    && m'[par] == Cell(n, m[par].link.Put(!dir, two), m[par].red)
    && m'[g] == Cell(n, m[g].link.Put(dir, three), true)
    && m'[n] == Cell(m[g].parent, if dir then Links(g, par) else Links(par, g), false)
    && (two != null ==> two in m && m'[two] == m[two].(parent := par))
    && (three != null ==> three in m && m'[three] == m[three].(parent := g))
    && Agree(m, m', m.Keys - {n, par, g, two, three})
  }

  /** Case 4 on the image. */
  lemma {:induction false} RotatedTwiceRep<T>(p: Path<T>, t: Tree<T>, x: Node<T>, par: Node<T>, g: Node<T>,
                                              two: Node?<T>, three: Node?<T>, m: Image<T>, m1: Image<T>, m': Image<T>)
    requires p.Down? && p.up.Down? && Family(p, t, x, par, g, m) && PathApart(p, t) && p.dir != p.up.dir && t.Branch?
      && p.red
    requires two == m[x].link.Get(!p.dir) && three == m[x].link.Get(p.dir) && m1.Keys == m.Keys
    requires Agree(m, m1, m.Keys - {m[g].parent}) && PathRep(p.up.up, x, m[g].parent, m1)
    requires StoredTwice(m1, m', x, par, g, p.up.dir)
    ensures Rep(Plug(p.up.up, RotatedTwice(p, t)), Root(p.up.up, x), null, m')
  {
    hide Rep;
    hide PathRep;
    hide Distinct;
    hide PathDistinct;
    var up, o1, o2, gp, dir := p.up.up, p.other, p.up.other, m[g].parent, p.up.dir;
    var t2, t3 := Child(t, dir), Child(t, !dir);
    Grandchildren(p, t, x, par, g, m);
    assert m1[x] == m[x] && m1[par] == m[par] && m1[g] == m[g];
    assert PathRep(up, x, gp, m') by {
      assert Rep(t2, two, x, m) && Rep(t3, three, x, m);
      AgreeOff(m1, m', {x, par, g, two, three}, PathNodes(up));
      PathFrame(up, x, gp, m1, m');
    }
    RotatedTwiceParts(p, t, x, par, g, two, three, m, m');
    JoinRep(dir, par, true, t2, o1, x, m');
    JoinRep(dir, g, true, o2, t3, x, m');
    JoinRep(dir, x, false, Join(dir, g, true, o2, t3), Join(dir, par, true, t2, o1), gp, m');
    PlugRep(up, RotatedTwice(p, t), x, gp, m');
  }

  /** The stores of case 5, the one through `gglink` aside. */
  method StoreOnce<T>(par: Node<T>, g: Node<T>, dir: bool, ghost all: set<Node<T>>)
    requires {par, g} <= all && par != g && g.parent != par
    requires par.link.Get(!dir) != null ==> par.link.Get(!dir) in all - {par, g}
    modifies all`parent, all`link, all`red
    ensures Snap(all)[g] == Cell(par, old(g.link).Put(dir, old(par.link.Get(!dir))), true)
    ensures Snap(all)[par] == Cell(old(g.parent), old(par.link).Put(!dir, g), false)
    ensures var three := old(par.link.Get(!dir));
      && (three != null ==> Snap(all)[three] == old(Snap(all))[three].(parent := g))
      && Agree(old(Snap(all)), Snap(all), all - {par, g, three})
  {
    var three := par.link.Get(!dir);
    g.link := g.link.Put(dir, three);
    par.link := par.link.Put(!dir, g);
    par.parent := g.parent;
    g.parent := par;
    if three != null {
      three.parent := g;
    }
    g.red := true;
    par.red := false;
  }

  /** The stores of case 4, the one through `gglink` aside. */
  method StoreTwice<T>(n: Node<T>, par: Node<T>, g: Node<T>, dir: bool, ghost all: set<Node<T>>)
    requires {n, par, g} <= all && par != g && n != par && n != g && g.parent !in {n, par}
    requires n.link.left != null ==> n.link.left in all && n.link.left !in {n, par, g, n.link.right}
    requires n.link.right != null ==> n.link.right in all && n.link.right !in {n, par, g}
    modifies all`parent, all`link, all`red
    ensures StoredTwice(old(Snap(all)), Snap(all), n, par, g, dir)
  {
    ghost var m := Snap(all);
    var two := n.link.Get(dir);
    var three := n.link.Get(!dir);
    StoreLinks(n, par, g, dir, two, three);
    n.parent := g.parent;
    par.parent := n;
    g.parent := n;
    if two != null {
      two.parent := par;
    }
    if three != null {
      three.parent := g;
    }
    n.red := false;
    g.red := true;
    assert Agree(m, Snap(all), all - {n, par, g, two, three});
  }

  method StoreLinks<T>(n: Node<T>, par: Node<T>, g: Node<T>, dir: bool, two: Node?<T>, three: Node?<T>)
    requires par != g && n != par && n != g
    modifies n`link, par`link, g`link
    ensures n.link == if dir then Links(g, par) else Links(par, g)
    ensures par.link == old(par.link).Put(!dir, two) && g.link == old(g.link).Put(dir, three)
  {
    par.link := par.link.Put(!dir, two);
    g.link := g.link.Put(dir, three);
    n.link := n.link.Put(dir, par);
    n.link := n.link.Put(!dir, g);
  }

  /** The write through `gglink`, seen on the image of all nodes. */
  method RelinkAbove<T>(root: Node?<T>, g: Node<T>, n: Node<T>, ghost up: Path<T>, ghost all: set<Node<T>>)
    returns (root': Node?<T>)
    requires PathRep(up, g, g.parent, Snap(all)) && PathDistinct(up) && g !in PathNodes(up) && g in all
    requires up.Down? ==> root == Root(up, g)
    modifies all`parent, all`link, all`red
    ensures Agree(old(Snap(all)), Snap(all), all - {g.parent}) && PathRep(up, n, g.parent, Snap(all))
    ensures root' == Root(up, n) && g.parent == old(g.parent)
  {
    ghost var m := Snap(all);
    var gp := g.parent;
    assert gp == if up.Down? then up.node else null;
    root' := Relink(root, gp, g, n, up.Down? && up.dir);
    RelinkRep(up, g, n, gp, m, Snap(all));
  }

  /** The stores of case 3. */
  method StoreRecolour<T>(par: Node<T>, g: Node<T>, u: Node<T>, ghost all: set<Node<T>>)
    requires {par, g, u} <= all && par != g && par != u && g != u
    modifies all`parent, all`link, all`red
    ensures Snap(all)[par] == old(Snap(all))[par].(red := false)
    ensures Snap(all)[u] == old(Snap(all))[u].(red := false)
    ensures Snap(all)[g] == old(Snap(all))[g].(red := true)
    ensures Agree(old(Snap(all)), Snap(all), all - {par, g, u})
  {
    par.red := false;
    u.red := false;
    g.red := true;
  }

  /** What the heap looks like at the head of the loop. */
  ghost predicate Looping<T>(p: Path<T>, t: Tree<T>, x: Node<T>, root: Node?<T>, h: nat, seen: seq<Node<T>>,
                             all: set<Node<T>>)
    reads all
  {
    && Pending(p, t, h, seen, all) && x in all
    && Rep(t, x, x.parent, Snap(all)) && PathRep(p, x, x.parent, Snap(all))
    && (p.Down? ==> root == Root(p, x))
  }

  ghost predicate Done<T>(t: Tree<T>, root: Node?<T>, seen: seq<Node<T>>, all: set<Node<T>>)
    reads all
  {
    Settled(t, seen, all) && Rep(t, root, null, Snap(all))
  }

  /** At a red parent, what the cases need to know of the neighbourhood. */
  lemma {:induction false} RedParent<T>(p: Path<T>, t: Tree<T>, x: Node<T>, root: Node?<T>, h: nat,
                                        seen: seq<Node<T>>, all: set<Node<T>>)
    requires Looping(p, t, x, root, h, seen, all) && x.parent != null && x.parent in all && x.parent.red
    ensures p.Down? && p.red && p.up.Down? && !p.up.red && x.parent.parent != null && x.parent.parent in all
    ensures Family(p, t, x, x.parent, x.parent.parent, Snap(all)) && PathApart(p, t)
    ensures p.up.dir == (x.parent == x.parent.parent.link.right) && p.dir == (x == x.parent.link.right)
    ensures p.up.up.Down? ==> root == Root(p.up.up, x.parent.parent)
    ensures IsRed(p.up.other) <==> var u := x.parent.parent.link.Get(!p.up.dir); u != null && u in all && u.red
    ensures var u := x.parent.parent.link.Get(!p.up.dir); u != null ==>
      u in all && p.up.other.Branch? && p.up.other.node == u
  {
    FamilyRep(p, t, x, x.parent, Snap(all));
    FamilyApart(p, t);
    assert Root(p, x) == Root(p.up, x.parent) == Root(p.up.up, x.parent.parent);
  }

  /** Case 5 of the insertion: one rotation at the grandparent. */
  method RotateOnce<T>(root: Node?<T>, x: Node<T>, par: Node<T>, g: Node<T>, dir: bool,
                       ghost p: Path<T>, ghost t: Tree<T>, ghost all: set<Node<T>>) returns (root': Node?<T>)
    requires p.Down? && p.up.Down? && Family(p, t, x, par, g, Snap(all)) && PathApart(p, t)
    requires all == Nodes(t) + PathNodes(p)
    requires p.dir == p.up.dir == dir && (p.up.up.Down? ==> root == Root(p.up.up, g))
    modifies all`parent, all`link, all`red
    ensures Rep(Plug(p.up.up, RotatedOnce(p, t)), root', null, Snap(all))
  {
    hide Rep;
    hide PathRep;
    hide Distinct;
    hide PathDistinct;
    ghost var up, m, three := p.up.up, Snap(all), par.link.Get(!dir);
    Sibling(p, t, x, par, g, m);
    root' := RelinkAbove(root, g, par, up, all);
    ghost var m1 := Snap(all);
    assert m1[par] == m[par] && m1[g] == m[g];
    StoreOnce(par, g, dir, all);
    RotatedOnceRep(p, t, x, par, g, three, m, m1, Snap(all));
  }

  /** Case 4: a rotation at the parent, then one at the grandparent. */
  method RotateTwice<T>(root: Node?<T>, x: Node<T>, par: Node<T>, g: Node<T>, dir: bool,
                        ghost p: Path<T>, ghost t: Tree<T>, ghost all: set<Node<T>>) returns (root': Node?<T>)
    requires p.Down? && p.up.Down? && Family(p, t, x, par, g, Snap(all)) && PathApart(p, t) && p.red && t.Branch?
    requires all == Nodes(t) + PathNodes(p)
    requires p.dir == !dir && p.up.dir == dir && (p.up.up.Down? ==> root == Root(p.up.up, g))
    modifies all`parent, all`link, all`red
    ensures Rep(Plug(p.up.up, RotatedTwice(p, t)), root', null, Snap(all))
  {
    hide Rep;
    hide PathRep;
    hide Distinct;
    hide PathDistinct;
    ghost var up, m, two, three, gp := p.up.up, Snap(all), x.link.Get(dir), x.link.Get(!dir), g.parent;
    Grandchildren(p, t, x, par, g, m);
    assert g !in PathNodes(up) && PathDistinct(up) && PathRep(up, g, gp, m);
    root' := RelinkAbove(root, g, x, up, all);
    ghost var m1 := Snap(all);
    assert m1[x] == m[x] && m1[par] == m[par] && m1[g] == m[g];
    StoreTwice(x, par, g, dir, all);
    RotatedTwiceRep(p, t, x, par, g, two, three, m, m1, Snap(all));
  }

  /** Cases 4 and 5: the uncle is black. */
  method Rotate<T>(root: Node?<T>, x: Node<T>, par: Node<T>, ghost p: Path<T>, ghost t: Tree<T>, ghost h: nat,
                   ghost seen: seq<Node<T>>, ghost all: set<Node<T>>) returns (root': Node?<T>, ghost t': Tree<T>)
    requires Looping(p, t, x, root, h, seen, all) && par == x.parent && par in all && par.red
    requires p.Down? && p.up.Down? && !IsRed(p.up.other)
    modifies all`parent, all`link, all`red
    ensures Done(t', root', seen, all)
  {
    RedParent(p, t, x, root, h, seen, all);
    RotationSettled(p, t, h, seen, all);
    var g := par.parent;
    var dir := par == g.link.right;
    if dir != (x == par.link.right) {
      root' := RotateTwice(root, x, par, g, dir, p, t, all);
      t' := Plug(p.up.up, RotatedTwice(p, t));
    } else {
      root' := RotateOnce(root, x, par, g, dir, p, t, all);
      t' := Plug(p.up.up, RotatedOnce(p, t));
    }
  }

  /** Case 3: parent and uncle turn black, the grandparent red. */
  method Recolour<T>(root: Node?<T>, x: Node<T>, par: Node<T>, g: Node<T>, u: Node<T>,
                     ghost p: Path<T>, ghost t: Tree<T>, ghost h: nat, ghost seen: seq<Node<T>>,
                       ghost all: set<Node<T>>)
    requires Looping(p, t, x, root, h, seen, all) && par == x.parent && par in all && par.red && g == par.parent
      && g in all
    requires p.Down? && p.up.Down? && u == g.link.Get(!p.up.dir) && IsRed(p.up.other)
    modifies all`parent, all`link, all`red
    ensures Looping(p.up.up, Recoloured(p, t), g, root, h + 1, seen, all)
  {
    ghost var m := Snap(all);
    RedParent(p, t, x, root, h, seen, all);
    StoreRecolour(par, g, u, all);
    RecolouredRep(p, t, x, par, g, u, m, Snap(all));
    RecolouredPending(p, t, h, seen, all);
  }

  /** Case 1: the red subtree has no parent and turns black. */
  method Blacken<T>(x: Node<T>, root: Node?<T>, ghost p: Path<T>, ghost t: Tree<T>, ghost h: nat,
                    ghost seen: seq<Node<T>>, ghost all: set<Node<T>>) returns (ghost t': Tree<T>)
    requires Looping(p, t, x, root, h, seen, all) && x.parent == null
    modifies all`parent, all`link, all`red
    ensures Done(t', x, seen, all)
  {
    ghost var m := Snap(all);
    x.red := false;
    t' := t.(red := false);
    assert [] + InOrder(t) + [] == InOrder(t);
    assert BlackHeight(t', h + 1);
    RepFrame(t.l, x.link.left, x, m, Snap(all));
    RepFrame(t.r, x.link.right, x, m, Snap(all));
  }

  /** `n` as a red leaf at the hole of `path`. */
  method Redden<T>(root: Node?<T>, n: Node<T>, ghost path: Path<T>, ghost seen: seq<Node<T>>, ghost all: set<Node<T>>)
    requires all == PathNodes(path) + {n} && PathRep(path, n, n.parent, Snap(all))
    requires PathDistinct(path) && n !in PathNodes(path) && PathOk(path, 0) && (path.Down? ==> root == Root(path, n))
    requires seen == Before(path) + [n] + After(path)
    modifies n`link, n`red
    ensures Looping(path, Branch(Leaf, n, true, Leaf), n, root, 0, seen, all)
  {
    ghost var m := Snap(all);
    n.red := true;
    n.link := Links(null, null);
    PathFrame(path, n, n.parent, m, Snap(all));
    assert InOrder(Branch(Leaf, n, true, Leaf)) == [n];
  }

  /** Case 2: the parent is black. */
  lemma BlackParent<T>(p: Path<T>, t: Tree<T>, x: Node<T>, root: Node?<T>, h: nat, seen: seq<Node<T>>,
                       all: set<Node<T>>)
    requires Looping(p, t, x, root, h, seen, all) && x.parent != null && x.parent in all && !x.parent.red
    ensures Done(Plug(p, t), root, seen, all)
  {
    PlugRep(p, t, x, x.parent, Snap(all));
    PlugSettled(p, t, h, seen, all);
  }

  lemma ParentInAll<T>(p: Path<T>, t: Tree<T>, x: Node<T>, root: Node?<T>, h: nat, seen: seq<Node<T>>,
                       all: set<Node<T>>)
    requires Looping(p, t, x, root, h, seen, all)
    ensures x.parent != null <==> p.Down?
    ensures x.parent != null ==> x.parent in all
  {
  }

  /** `capn_tree_insert`: `n` has been linked as a leaf at the hole of `path`. */
  method Insert<T>(root: Node?<T>, n: Node<T>, ghost path: Path<T>)
    returns (root': Node?<T>, ghost t': Tree<T>)
    requires PathRep(path, n, n.parent, Snap(PathNodes(path) + {n})) && PathDistinct(path) && n !in PathNodes(path)
    requires PathOk(path, 0) && (path.Down? ==> root == Root(path, n))
    modifies (PathNodes(path) + {n})`parent, (PathNodes(path) + {n})`link, (PathNodes(path) + {n})`red
    ensures Done(t', root', Before(path) + [n] + After(path), PathNodes(path) + {n})
  {
    hide Looping;
    hide Done;
    hide Family;
    hide PathApart;
    hide PathNodes;
    hide Plug;
    hide Rep;
    ghost var all := PathNodes(path) + {n};
    ghost var seen := Before(path) + [n] + After(path);
    root' := root;
    Redden(root, n, path, seen, all);
    var x: Node<T> := n;
    ghost var t: Tree<T> := Branch(Leaf, n, true, Leaf);
    ghost var p := path;
    ghost var h: nat := 0;
    while true
      invariant Looping(p, t, x, root', h, seen, all)
      decreases p
    {
      ParentInAll(p, t, x, root', h, seen, all);
      var par := x.parent;
      if par == null {
        t' := Blacken(x, root', p, t, h, seen, all);
        root' := x;
        return;
      }
      if !par.red {
        BlackParent(p, t, x, root', h, seen, all);
        t' := Plug(p, t);
        return;
      }
      RedParent(p, t, x, root', h, seen, all);
      var g := par.parent;
      var dir := par == g.link.right;
      var u := g.link.Get(!dir);
      if u != null && u.red {
        Recolour(root', x, par, g, u, p, t, h, seen, all);
        x, p, t, h := g, p.up.up, Recoloured(p, t), h + 1;
      } else {
        root', t' := Rotate(root', x, par, p, t, h, seen, all);
        return;
      }
    }
  }

  // ----- walking down

  /** A path and the subtree in its hole, both parts of one red-black tree in the heap. */
  ghost predicate Split<T>(p: Path<T>, t: Tree<T>, x: Node?<T>, h: nat, m: Image<T>) {
    && NoRedRed(t) && BlackHeight(t, h) && PathOk(p, h) && (IsRed(t) ==> p.Down? && !p.red)
    && Distinct(t) && PathDistinct(p) && Nodes(t) !! PathNodes(p)
    && PathRep(p, x, Above(p), m) && Rep(t, x, Above(p), m)
  }

  ghost function Above<T>(p: Path<T>): Node?<T> {
    if p.Top? then null else p.node
  }

  ghost function ChildHeight<T>(t: Tree<T>, h: nat): nat
    requires BlackHeight(t, h)
  {
    if t.Branch? && !t.red then h - 1 else h
  }

  /** The path one link further down. */
  ghost function Step<T>(p: Path<T>, t: Tree<T>, dir: bool): Path<T>
    requires t.Branch?
  {
    Down(dir, t.node, t.red, Child(t, !dir), p)
  }

  lemma {:induction false} StepOrder<T>(p: Path<T>, t: Tree<T>, dir: bool)
    requires t.Branch?
    ensures Before(Step(p, t, dir)) + InOrder(Child(t, dir)) + After(Step(p, t, dir))
         == Before(p) + InOrder(t) + After(p)
    ensures PathNodes(Step(p, t, dir)) + Nodes(Child(t, dir)) == PathNodes(p) + Nodes(t)
  {
    JoinInOrder(Step(p, t, dir), Child(t, dir));
    assert t == Join(dir, t.node, t.red, Child(t, !dir), Child(t, dir));
  }

  /** Following one child link. */
  lemma {:induction false} StepDown<T>(p: Path<T>, t: Tree<T>, x: Node<T>, dir: bool, h: nat, m: Image<T>)
    requires Split(p, t, x, h, m)
    ensures t.Branch? && t.node == x && x in m
    ensures Split(Step(p, t, dir), Child(t, dir), m[x].link.Get(dir), ChildHeight(t, h), m)
    ensures Root(Step(p, t, dir), m[x].link.Get(dir)) == Root(p, x)
  {
    hide InOrder;
    hide Before;
    hide After;
  }

  /** The hole to the right of the greatest node. */
  lemma {:induction false} RightmostHole<T>(p: Path<T>, t: Tree<T>, x: Node?<T>, h: nat, m: Image<T>)
    returns (p': Path<T>)
    requires Split(p, t, x, h, m) && (t.Leaf? ==> p.Top? || p.dir) && After(p) == []
    ensures Split(p', Leaf, null, 0, m) && Before(p') == Before(p) + InOrder(t) && After(p') == []
    ensures PathNodes(p') == PathNodes(p) + Nodes(t) && Root(p', null) == Root(p, x)
    ensures p'.Top? || (p'.dir && Before(p') != [] && p'.node == Before(p')[|Before(p')| - 1])
    decreases t
  {
    hide Distinct;
    hide PathDistinct;
    hide NoRedRed;
    hide PathOk;
    hide PathRep;
    match t
    case Leaf =>
      p' := p;
      assert Before(p) + [] == Before(p);
    case Branch(l, n, red, r) =>
      StepDown(p, t, n, true, h, m);
      StepOrder(p, t, true);
      var q := Step(p, t, true);
      p' := RightmostHole(q, r, m[n].link.right, ChildHeight(t, h), m);
      assert Before(q) + InOrder(r) == Before(p) + (InOrder(l) + [n] + InOrder(r));
  }

  ghost function Depth<T>(t: Tree<T>): nat {
    match t
    case Leaf => 0
    case Branch(l, _, _, r) => 1 + if Depth(l) < Depth(r) then Depth(r) else Depth(l)
  }

  ghost function Pow2(n: nat): nat {
    if n == 0 then 1 else 2 * Pow2(n - 1)
  }

  /** No walk is longer than twice the black height, and the black height is logarithmic. */
  lemma {:induction false} DepthBound<T>(t: Tree<T>, h: nat)
    requires NoRedRed(t) && BlackHeight(t, h)
    ensures Depth(t) <= 2 * h + if IsRed(t) then 1 else 0
    ensures Pow2(h) <= |InOrder(t)| + 1
  {
    match t
    case Leaf =>
    case Branch(l, n, red, r) =>
      DepthBound(l, ChildHeight(t, h));
      DepthBound(r, ChildHeight(t, h));
  }
}
