/** The segment table of a message: a linked list in id order and a red-black tree over the same
    segments, as `capn_append_segment` builds them and `lookup_segment` walks them. */
module SegmentTable {
  import opened Ints
  import opened RedBlackTree

  type Word = w: int | 0 <= w < 0x1_0000_0000_0000_0000

  /** The part of `struct capn_segment` after its tree header.  Sizes count 8-byte words. */
  class Body {
    var next: Node?<Body>
    var id: nat
    const data: array<Word>
    var len: nat

    /** A segment as the allocator hands it out: empty, zero-filled, in no message yet. */
    constructor (cap: nat)
      ensures fresh(data) && data.Length == cap && len == 0
      ensures forall i :: 0 <= i < cap ==> data[i] == 0
    {
      data := new Word[cap](_ => 0);
      next, id, len := null, 0, 0;
    }
  }

  /** A pointer to a segment is a pointer to the tree header it starts with. */
  type Segment = Node<Body>

  ghost function SetOf<A>(s: seq<A>): set<A> {
    set x | x in s
  }

  ghost function Bodies(segs: seq<Segment>): set<Body> {
    set s | s in segs :: s.item
  }

  /** Each segment knows its place in the list and the segment after it. */
  ghost predicate Linked(segs: seq<Segment>)
    reads Bodies(segs)`next, Bodies(segs)`id
  {
    forall i :: 0 <= i < |segs| ==>
      segs[i].item.id == i && segs[i].item.next == if i < |segs| - 1 then segs[i + 1] else null
  }

  lemma {:induction false} InOrderNodes<T>(t: Tree<T>)
    ensures SetOf(InOrder(t)) == Nodes(t)
  {
    if t.Branch? {
      InOrderNodes(t.l);
      InOrderNodes(t.r);
      var a, b := InOrder(t.l), InOrder(t.r);
      assert forall x :: x in a + [t.node] + b <==> x in a || x == t.node || x in b;
      assert SetOf(InOrder(t)) == SetOf(a) + {t.node} + SetOf(b);
    }
  }

  class Table {
    var segnum: nat
    var segtree: Node?<Body>
    var seglist: Node?<Body>
    var lastseg: Node?<Body>
    /** The segments in list order. */
    ghost var segs: seq<Segment>
    ghost var tree: Tree<Body>

    ghost predicate ListOk()
      reads this, Bodies(segs)`next, Bodies(segs)`id
    {
      && segnum == |segs| <= UINT32_MAX
      && (forall i, j :: 0 <= i < j < |segs| ==> segs[i] != segs[j] && segs[i].item != segs[j].item)
      && Linked(segs)
      && seglist == (if |segs| == 0 then null else segs[0])
      && lastseg == (if |segs| == 0 then null else segs[|segs| - 1])
    }

    ghost predicate TreeOk()
      reads this, SetOf(segs)
    {
      Done(tree, segtree, segs, SetOf(segs))
    }

    /** The list, the ids and the tree describe the same segments. */
    ghost predicate Valid()
      reads this, SetOf(segs), Bodies(segs)`next, Bodies(segs)`id
    {
      ListOk() && TreeOk()
    }

    constructor ()
      ensures Valid() && segs == []
    {
      segnum, segtree, seglist, lastseg := 0, null, null, null;
      segs, tree := [], Leaf;
      new;
      assert BlackHeight(tree, 0);
    }

    /** `capn_append_segment`: the new segment gets the next id and goes to the end of the list and
        to the right end of the tree, which rebalances.  A full table ignores it. */
    method Append(s: Segment)
      requires Valid() && s !in segs && s.item !in Bodies(segs)
      modifies this, SetOf(segs + [s])`parent, SetOf(segs + [s])`link, SetOf(segs + [s])`red
      modifies Bodies(segs)`next, s.item`id, s.item`next
      ensures Valid()
      ensures segs == if old(segnum) == 4_294_967_295 then old(segs) else old(segs) + [s]
    {
      hide Done;
      if segnum == UINT32_MAX {
        return;
      }
      ghost var was := segs;
      var last := lastseg;
      AppendToList(s);
      assert forall b | b in Bodies(segs) :: allocated(b);
      AppendToTree(last, s, was);
      assert Linked(segs);
      assert ListOk();
    }

    method AppendToList(s: Segment)
      requires ListOk() && s !in segs && s.item !in Bodies(segs) && segnum < UINT32_MAX
      modifies this`segnum, this`seglist, this`lastseg, this`segs, Bodies(segs)`next, s.item`id, s.item`next
      ensures segs == old(segs) + [s] && segnum == old(segnum) + 1
      ensures seglist == (if old(lastseg) == null then s else old(seglist)) && lastseg == s
      ensures Linked(segs)
    {
      s.item.id := segnum;
      segnum := segnum + 1;
      s.item.next := null;
      if lastseg != null {
        lastseg.item.next := s;
      } else {
        seglist := s;
      }
      lastseg := s;
      segs := segs + [s];
      assert forall i :: 0 <= i < |old(segs)| ==> segs[i].item in Bodies(old(segs));
    }

    /** Links `s` below the last segment and rebalances. */
    method AppendToTree(last: Node?<Body>, s: Segment, ghost was: seq<Segment>)
      requires s !in was && Done(tree, segtree, was, SetOf(was))
      requires last == if |was| == 0 then null else was[|was| - 1]
      modifies this`segtree, this`tree, SetOf(was + [s])`parent, SetOf(was + [s])`link, SetOf(was + [s])`red
      ensures Done(tree, segtree, was + [s], SetOf(was + [s]))
    {
      hide Done;
      hide PathRep;
      hide PathOk;
      hide PathDistinct;
      assert SetOf(was + [s]) == SetOf(was) + {s};
      ghost var m := Snap(SetOf(was));
      ghost var path := LastHole(tree, segtree, was);
      if last != null {
        last.link := last.link.Put(true, s);
        s.parent := last;
      } else {
        s.parent := null;
      }
      assert SetOf(was + [s]) == PathNodes(path) + {s};
      RelinkRep(path, null, s, last, m, Snap(SetOf(was) + {s}));
      segtree, tree := Insert(segtree, s, path);
      assert was + [s] + [] == was + [s];
    }

    lemma Next(i: nat)
      requires Valid() && i < |segs|
      ensures segs[i].item.id == i && segs[i].item.next == if i + 1 < |segs| then segs[i + 1] else null
    {
    }

    /** `lookup_segment` without a lookup callback: the hint when it fits, else a walk down the tree. */
    method Lookup(hint: Node?<Body>, id: nat) returns (s: Node?<Body>, ghost visits: nat)
      requires Valid() && (hint != null ==> hint in segs)
      ensures s == if id < |segs| then segs[id] else null
      ensures visits <= 2 * Log2(segnum + 1)
    {
      visits := 0;
      if hint != null && hint.item.id == id {
        return hint, 0;
      }
      if id < segnum {
        s, visits := Walk(id);
      } else {
        s := null;
      }
    }

    /** The walk down the tree, for an id that is there. */
    method Walk(id: nat) returns (s: Node?<Body>, ghost visits: nat)
      requires Valid() && id < |segs|
      ensures s == segs[id] && visits <= 2 * Log2(segnum + 1)
    {
      hide Walking;
      hide Depth;
      hide Done;
      hide Log2;
      visits := 0;
      ghost var t, p, m := tree, Path<Body>.Top, Snap(SetOf(segs));
      ghost var h := WalkStart(tree, segtree, segs, id);
      var x := segtree;
      while x != null
        invariant Walking(p, t, x, h, m, segs, id) && visits + Depth(t) <= 2 * Log2(segnum + 1)
        decreases t
      {
        WalkNode(p, t, x, h, m, segs, id);
        visits := visits + 1;
        if id == x.item.id {
          return x, visits;
        }
        ghost var dir := id > x.item.id;
        h := WalkStep(p, t, x, dir, h, m, segs, id);
        p, t := Step(p, t, dir), Child(t, dir);
        if id < x.item.id {
          x := x.link.left;
        } else {
          x := x.link.right;
        }
      }
      WalkAlive(p, t, x, h, m, segs, id);
      return null, visits;
    }
  }

  ghost function Log2(n: nat): nat
    requires n > 0
  {
    if n == 1 then 0 else 1 + Log2(n / 2)
  }

  lemma {:induction false} Log2Bound(h: nat, n: nat)
    requires Pow2(h) <= n
    ensures n > 0 && h <= Log2(n)
  {
    if h > 0 {
      Log2Bound(h - 1, n / 2);
    }
  }

  /** The id looked for lies in the subtree `t`, at its place in the list. */
  ghost predicate Walking(p: Path<Body>, t: Tree<Body>, x: Node?<Body>, h: nat, m: Image<Body>, segs: seq<Segment>,
                          id: nat) {
    && Split(p, t, x, h, m)
    && Before(p) + InOrder(t) + After(p) == segs
    && |Before(p)| <= id < |Before(p)| + |InOrder(t)|
  }

  lemma WalkStart(tree: Tree<Body>, root: Node?<Body>, segs: seq<Segment>, id: nat) returns (h: nat)
    requires Done(tree, root, segs, SetOf(segs)) && id < |segs|
    ensures Depth(tree) <= 2 * Log2(|segs| + 1)
    ensures Walking(Top, tree, root, h, Snap(SetOf(segs)), segs, id)
  {
    h :| BlackHeight(tree, h);
    DepthBound(tree, h);
    Log2Bound(h, |segs| + 1);
    assert [] + InOrder(tree) + [] == segs;
  }

  /** The walk never runs off the tree. */
  lemma WalkAlive(p: Path<Body>, t: Tree<Body>, x: Node?<Body>, h: nat, m: Image<Body>, segs: seq<Segment>, id: nat)
    requires Walking(p, t, x, h, m, segs, id)
    ensures x != null
  {
  }

  lemma {:induction false} WalkNode(p: Path<Body>, t: Tree<Body>, x: Node<Body>, h: nat, m: Image<Body>,
                                    segs: seq<Segment>, id: nat)
    requires Walking(p, t, x, h, m, segs, id)
    ensures t.Branch? && Depth(t) > 0 && x in m && x in segs
    ensures var k := |Before(p)| + |InOrder(t.l)|; k < |segs| && segs[k] == x
  {
    var k := |Before(p)| + |InOrder(t.l)|;
    assert t.node == x;
    assert (InOrder(t.l) + [x] + InOrder(t.r))[|InOrder(t.l)|] == x;
    assert segs[k] == x;
  }

  lemma {:induction false} WalkStep(p: Path<Body>, t: Tree<Body>, x: Node<Body>, dir: bool, h: nat, m: Image<Body>,
                                    segs: seq<Segment>, id: nat) returns (h': nat)
    requires Walking(p, t, x, h, m, segs, id) && t.Branch?
    requires if dir then id > |Before(p)| + |InOrder(t.l)| else id < |Before(p)| + |InOrder(t.l)|
    ensures x in m && Walking(Step(p, t, dir), Child(t, dir), m[x].link.Get(dir), h', m, segs, id)
    ensures Depth(Child(t, dir)) < Depth(t)
  {
    h' := ChildHeight(t, h);
    StepDown(p, t, x, dir, h, m);
    StepOrder(p, t, dir);
  }

  /** Where the last segment's empty right link sits in the tree. */
  lemma LastHole(tree: Tree<Body>, root: Node?<Body>, was: seq<Segment>) returns (path: Path<Body>)
    requires Done(tree, root, was, SetOf(was))
    ensures var last: Node?<Body> := if |was| == 0 then null else was[|was| - 1];
      && PathRep(path, null, last, Snap(SetOf(was))) && (last != null ==> path.Down? && path.dir && path.node == last)
      && (last == null ==> path.Top?)
    ensures PathDistinct(path) && PathOk(path, 0) && PathNodes(path) == SetOf(was)
    ensures Before(path) == was && After(path) == [] && (path.Down? ==> Root(path, null) == root)
  {
    var h :| BlackHeight(tree, h);
    path := RightmostHole(Top, tree, root, h, Snap(SetOf(was)));
    if path.Top? {
      assert was == [];
    }
  }
}
