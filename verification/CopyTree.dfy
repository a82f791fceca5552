/** The red-black tree of source intervals that a deep copy keeps: what has been cloned, and to where. */
module CopyTree {
  import opened RedBlackTree
  import opened Options
  import P = Pointers

  /** `struct copy`: a source object, its clone, and the source bytes it occupies. */
  datatype Copy = Copy(from: P.Ptr, to: P.Ptr, fbegin: int, fend: int)

  predicate Overlap(c: Copy, fbegin: int, fend: int) {
    c.fbegin < fend && fbegin < c.fend
  }

  /** Non-empty intervals in address order, no two of them sharing a byte. */
  ghost predicate Sorted(s: seq<Node<Copy>>) {
    && (forall i :: 0 <= i < |s| ==> s[i].item.fbegin < s[i].item.fend)
    && (forall i, j :: 0 <= i < j < |s| ==> s[i].item.fend <= s[j].item.fbegin)
  }

  ghost function Contents(nodes: seq<Node<Copy>>): set<Copy> {
    set n | n in nodes :: n.item
  }

  class Tree {
    var root: Node?<Copy>
    var room: nat
    ghost var shape: RedBlackTree.Tree<Copy>
    ghost var order: seq<Node<Copy>>
    ghost var nodes: set<Node<Copy>>

    ghost predicate Valid()
      reads this, nodes
    {
      Done(shape, root, order, nodes) && Sorted(order)
    }

    /** The recorded copies; `room` more can be allocated. */
    ghost function Recs(): set<Copy>
      reads this
    {
      Contents(order)
    }

    constructor (limit: nat)
      ensures Valid() && Recs() == {} && order == [] && nodes == {} && room == limit
    {
      root, room, shape, order, nodes := null, limit, Leaf, [], {};
      new;
      assert BlackHeight(shape, 0);
    }

    /** No two records share a byte. */
    lemma Disjoint(a: Copy, b: Copy)
      requires Valid() && a in Recs() && b in Recs() && a != b
      ensures a.fend <= b.fbegin || b.fend <= a.fbegin
    {
      var i :| 0 <= i < |order| && order[i].item == a;
      var j :| 0 <= j < |order| && order[j].item == b;
    }

    /** The loop of `copy_ptr` over the tree: the recorded interval that shares a byte with
        [fbegin, fend), else the empty link where that interval belongs. */
    method Search(fbegin: int, fend: int)
      returns (hit: Option<Copy>, above: Node?<Copy>, dir: bool, ghost path: Path<Copy>)
      requires Valid() && fbegin < fend
      ensures Valid()
      ensures hit.Some? ==> hit.value in Recs() && Overlap(hit.value, fbegin, fend)
      ensures hit.None? ==> forall c :: c in Recs() ==> !Overlap(c, fbegin, fend)
      ensures hit.None? ==> Hole(path, above, dir, root, order, nodes, fbegin, fend, Snap(nodes))
    {
      hide Searching;
      hide Hole;
      hide Sorted;
      hide Done;
      hit, above, dir := None, null, false;
      path := Top;
      ghost var t, m := shape, Snap(nodes);
      ghost var h := SearchStart(shape, root, order, nodes, fbegin, fend);
      var x := root;
      while x != null
        invariant Valid()
        invariant Searching(path, t, x, h, m, root, order, nodes, fbegin, fend)
        invariant above == Above(path) && (path.Down? ==> path.dir == dir)
        decreases t
      {
        SearchNode(path, t, x, h, m, root, order, nodes, fbegin, fend);
        above := x;
        if fend <= x.item.fbegin {
          dir := false;
        } else if x.item.fend <= fbegin {
          dir := true;
        } else {
          return Some(x.item), above, dir, path;
        }
        h := SearchStep(path, t, x, dir, h, m, root, order, nodes, fbegin, fend);
        path, t := Step(path, t, dir), Child(t, dir);
        x := x.link.Get(dir);
      }
      SearchEnd(path, t, dir, h, m, root, order, nodes, fbegin, fend);
    }

    /** The new record hangs at the empty link that the search found, and the tree rebalances. */
    method Add(rec: Copy, above: Node?<Copy>, dir: bool, ghost path: Path<Copy>)
      requires Valid() && rec.fbegin < rec.fend && room > 0
      requires Hole(path, above, dir, root, order, nodes, rec.fbegin, rec.fend, Snap(nodes))
      modifies this, nodes`parent, nodes`link, nodes`red
      ensures Valid() && Recs() == old(Recs()) + {rec} && room == old(room) - 1
      ensures fresh(nodes - old(nodes))
    {
      hide Done;
      hide Hole;
      hide PathRep;
      hide PathOk;
      hide PathDistinct;
      hide PathNodes;
      hide Before;
      hide After;
      hide Root;
      hide Sorted;
      ghost var was, m := nodes, Snap(nodes);
      var n := new Node(rec);
      HoleParts(path, above, dir, root, order, was, rec.fbegin, rec.fend, m);
      Hang(n, above, dir, path, was);
      HoleSorted(path, above, dir, root, order, was, rec.fbegin, rec.fend, m, n);
      RootBelow(path, n);
      root, shape := Insert(root, n, path);
      room := room - 1;
      order, nodes := Before(path) + [n] + After(path), was + {n};
      assert Contents(order) == old(Recs()) + {rec};
    }
  }

  lemma HoleParts(p: Path<Copy>, above: Node?<Copy>, dir: bool, root: Node?<Copy>, order: seq<Node<Copy>>,
                  all: set<Node<Copy>>, fbegin: int, fend: int, m: Image<Copy>)
    requires Hole(p, above, dir, root, order, all, fbegin, fend, m)
    ensures PathRep(p, null, above, m) && PathDistinct(p) && PathOk(p, 0) && PathNodes(p) == all
      && Before(p) + After(p) == order
    ensures above == Above(p) && (above != null ==> above in all) && (p.Down? ==> p.dir == dir && root == Root(p, null))
  {
  }

  lemma RootBelow(p: Path<Copy>, n: Node<Copy>)
    ensures p.Down? ==> Root(p, null) == Root(p, n)
  {
  }

  /** The new node's header, and the link from above. */
  method Hang(n: Node<Copy>, above: Node?<Copy>, dir: bool, ghost path: Path<Copy>, ghost was: set<Node<Copy>>)
    requires PathRep(path, null, above, Snap(was)) && PathNodes(path) == was && PathDistinct(path) && n !in was
    requires above == Above(path) && (path.Down? ==> path.dir == dir) && (above != null ==> above in was)
    modifies n`parent, was`link
    ensures n.parent == above && PathRep(path, n, above, Snap(was + {n}))
  {
    hide PathDistinct;
    hide PathNodes;
    hide Rep;
    ghost var m := Snap(was);
    n.parent := above;
    if above != null {
      above.link := above.link.Put(dir, n);
    }
    RelinkRep(path, null, n, above, m, Snap(was + {n}));
  }

  ghost predicate Searching(p: Path<Copy>, t: RedBlackTree.Tree<Copy>, x: Node?<Copy>, h: nat, m: Image<Copy>,
                            root: Node?<Copy>, order: seq<Node<Copy>>, all: set<Node<Copy>>, fbegin: int, fend: int)
  {
    && Split(p, t, x, h, m) && Before(p) + InOrder(t) + After(p) == order
    && PathNodes(p) + Nodes(t) == all && Root(p, x) == root
    && (forall n :: n in Before(p) ==> n.item.fend <= fbegin)
    && (forall n :: n in After(p) ==> fend <= n.item.fbegin)
  }

  /** An empty link between the records that end by `fbegin` and those that start from `fend`. */
  ghost predicate Hole(p: Path<Copy>, above: Node?<Copy>, dir: bool, root: Node?<Copy>, order: seq<Node<Copy>>,
                       all: set<Node<Copy>>, fbegin: int, fend: int, m: Image<Copy>)
  {
    && PathRep(p, null, above, m) && PathDistinct(p) && PathOk(p, 0)
    && above == Above(p) && (p.Down? ==> p.dir == dir && root == Root(p, null))
    && PathNodes(p) == all && Before(p) + After(p) == order
    && (forall n :: n in Before(p) ==> n.item.fend <= fbegin)
    && (forall n :: n in After(p) ==> fend <= n.item.fbegin)
  }

  lemma SearchStart(t: RedBlackTree.Tree<Copy>, root: Node?<Copy>, order: seq<Node<Copy>>, all: set<Node<Copy>>,
                    fbegin: int, fend: int) returns (h: nat)
    requires Done(t, root, order, all)
    ensures Searching(Top, t, root, h, Snap(all), root, order, all, fbegin, fend)
  {
    h :| BlackHeight(t, h);
    assert [] + InOrder(t) + [] == order;
  }

  lemma {:induction false} SearchNode(p: Path<Copy>, t: RedBlackTree.Tree<Copy>, x: Node<Copy>, h: nat, m: Image<Copy>,
                                      root: Node?<Copy>, order: seq<Node<Copy>>, all: set<Node<Copy>>, fbegin: int,
                                        fend: int)
    requires Searching(p, t, x, h, m, root, order, all, fbegin, fend)
    ensures t.Branch? && t.node == x && x in m && x in all && x in order
  {
    assert x in InOrder(t);
  }

  lemma {:induction false} SearchStep(p: Path<Copy>, t: RedBlackTree.Tree<Copy>, x: Node<Copy>, dir: bool, h: nat,
                                      m: Image<Copy>, root: Node?<Copy>, order: seq<Node<Copy>>, all: set<Node<Copy>>,
                                      fbegin: int, fend: int) returns (h': nat)
    requires Searching(p, t, x, h, m, root, order, all, fbegin, fend) && Sorted(order) && fbegin < fend
    requires if dir then x.item.fend <= fbegin else fend <= x.item.fbegin
    requires t.Branch? && t.node == x
    ensures x in m && Searching(Step(p, t, dir), Child(t, dir), m[x].link.Get(dir), h', m, root, order, all, fbegin,
                                fend)
  {
    hide Split;
    h' := Descend(p, t, x, dir, h, m);
    StepOrder(p, t, dir);
    Around(Before(p), InOrder(t.l), x, InOrder(t.r), After(p));
  }

  /** In a sorted sequence, what stands left of a record ends before it, and what stands right starts after it. */
  lemma Around(b: seq<Node<Copy>>, l: seq<Node<Copy>>, x: Node<Copy>, r: seq<Node<Copy>>, a: seq<Node<Copy>>)
    requires Sorted(b + (l + [x] + r) + a)
    ensures x.item.fbegin < x.item.fend
    ensures forall n :: n in l ==> n.item.fend <= x.item.fbegin
    ensures forall n :: n in r ==> x.item.fend <= n.item.fbegin
  {
    var s, k := b + (l + [x] + r) + a, |b| + |l|;
    assert s[k] == x;
    assert forall i :: 0 <= i < |l| ==> s[|b| + i] == l[i];
    assert forall i :: 0 <= i < |r| ==> s[k + 1 + i] == r[i];
  }

  lemma Descend(p: Path<Copy>, t: RedBlackTree.Tree<Copy>, x: Node<Copy>, dir: bool, h: nat, m: Image<Copy>)
    returns (h': nat)
    requires Split(p, t, x, h, m) && t.Branch?
    ensures x in m && Split(Step(p, t, dir), Child(t, dir), m[x].link.Get(dir), h', m)
    ensures Root(Step(p, t, dir), m[x].link.Get(dir)) == Root(p, x)
  {
    h' := ChildHeight(t, h);
    StepDown(p, t, x, dir, h, m);
  }

  lemma {:induction false} SearchEnd(p: Path<Copy>, t: RedBlackTree.Tree<Copy>, dir: bool, h: nat, m: Image<Copy>,
                                     root: Node?<Copy>, order: seq<Node<Copy>>, all: set<Node<Copy>>, fbegin: int,
                                       fend: int)
    requires Searching(p, t, null, h, m, root, order, all, fbegin, fend) && (p.Down? ==> p.dir == dir)
    ensures Hole(p, Above(p), dir, root, order, all, fbegin, fend, m)
    ensures forall c :: c in Contents(order) ==> !Overlap(c, fbegin, fend)
  {
    assert Before(p) + InOrder(t) == Before(p);
  }

  lemma {:induction false} HoleSorted(p: Path<Copy>, above: Node?<Copy>, dir: bool, root: Node?<Copy>,
                                      order: seq<Node<Copy>>, all: set<Node<Copy>>, fbegin: int, fend: int,
                                      m: Image<Copy>, n: Node<Copy>)
    requires Hole(p, above, dir, root, order, all, fbegin, fend, m) && Sorted(order)
    requires n.item.fbegin == fbegin < fend == n.item.fend
    ensures Sorted(Before(p) + [n] + After(p))
  {
    Between(Before(p), n, After(p));
  }

  lemma Between(b: seq<Node<Copy>>, n: Node<Copy>, a: seq<Node<Copy>>)
    requires Sorted(b + a) && n.item.fbegin < n.item.fend
    requires forall x :: x in b ==> x.item.fend <= n.item.fbegin
    requires forall x :: x in a ==> n.item.fend <= x.item.fbegin
    ensures Sorted(b + [n] + a)
  {
    var s, was := b + [n] + a, b + a;
    forall i, j | 0 <= i < j < |s|
      ensures s[i].item.fend <= s[j].item.fbegin
    {
      var i', j' := if i < |b| then i else i - 1, if j < |b| then j else j - 1;
      assert i != |b| ==> s[i] == was[i'];
      assert j != |b| ==> s[j] == was[j'];
    }
    forall i | 0 <= i < |s|
      ensures s[i].item.fbegin < s[i].item.fend
    {
      assert i != |b| ==> s[i] == was[if i < |b| then i else i - 1];
    }
  }
}
