/** Walks through a source graph, and what about it a deep copy depends on. */
module SourceWalks {
  import opened SegmentTable
  import opened Options
  import opened Pointers
  import opened ObjectGraph
  import opened CloneGraph
  import opened CopyObject

  /** A slot of `q` resolves to `r`. */
  ghost predicate Follows(src: Mem, q: Ptr, r: Ptr) {
    Backed(src, q) && exists c: nat :: c < Words(q) && IsSlot(q, c) && Bare(SlotPtr(src, q, c)) == r
  }

  /** From `f` through slots, each of what the one before resolves to. */
  ghost predicate Walk(src: Mem, f: Ptr, chain: seq<Ptr>) {
    && |chain| > 0 && chain[0] == Bare(f)
    && forall i :: 0 <= i < |chain| - 1 ==> Follows(src, chain[i], chain[i + 1])
  }

  ghost predicate Reaches(src: Mem, f: Ptr, g: Ptr) {
    exists chain :: Walk(src, f, chain) && chain[|chain| - 1] == g
  }

  function Depth(chain: seq<Ptr>): nat {
    if chain == [] then 0 else Depth(chain[..|chain| - 1]) + Levels(chain[|chain| - 1])
  }

  /** A walk that the stack has room for: at most 30 levels above its end, and a struct with pointers there
      takes one of them. */
  ghost predicate ShallowTo(src: Mem, f: Ptr, g: Ptr) {
    exists chain :: Walk(src, f, chain) && chain[|chain| - 1] == g && StackHolds(chain)
  }

  predicate StackHolds(chain: seq<Ptr>)
    requires chain != []
  {
    var g := chain[|chain| - 1];
    Depth(chain[..|chain| - 1]) + (if g.kind == Struct && g.ptrs > 0 then 1 else 0) <= 30
  }

  /** Everything reachable is reached, under this or another composite mark, by a walk that the stack has
      room for. */
  ghost predicate AllShallow(src: Mem, f: Ptr) {
    forall g :: Reaches(src, f, g) && !Nil(g) ==> exists h :: Names(g, h) && ShallowTo(src, f, h)
  }

  predicate NoRepeats(chain: seq<Ptr>) {
    forall i, j :: 0 <= i < j < |chain| ==> chain[i] != chain[j]
  }

  /** Why a deep copy of `f` gives up, at the end of a walk from `f`: 31 levels of distinct objects inside
      each other, an empty list, an overlap with another object that is reachable or was cloned before, or
      no memory. */
  ghost predicate Blocked(before: View, src: Mem, layout: seq<int>, f: Ptr, mem: Mem, room: nat, chain: seq<Ptr>,
                          why: Reason) {
    && Walk(src, f, chain)
    && var g := chain[|chain| - 1];
       match why
       case TooDeep => Depth(chain) >= 31 && NoRepeats(chain) && !Nil(g)
       case EmptyList => !Nil(g) && Bytes(g) == 0
       case Clash(h) => (Reaches(src, f, h) || HasClone(before, h)) && Tangled(layout, g, h)
       case NoSpace(n) => n <= Words(g) + 2 && NewData(mem, n).NoRoom?
       case NoRecord => room == 0
  }

  lemma WalkOn(src: Mem, f: Ptr, chain: seq<Ptr>, g: Ptr)
    requires Walk(src, f, chain) && Follows(src, chain[|chain| - 1], g)
    ensures Walk(src, f, chain + [g]) && Reaches(src, f, g)
  {
    assert (chain + [g])[|chain + [g]| - 1] == g;
  }

  lemma DepthOn(chain: seq<Ptr>, g: Ptr)
    ensures Depth(chain + [g]) == Depth(chain) + Levels(g)
  {
    assert (chain + [g])[..|chain|] == chain;
  }

  /** The data of two objects, headers left out, share no byte. */
  predicate DataApart(layout: seq<int>, g: Ptr, h: Ptr)
    requires g.seg.Some? && g.pos.Some? && g.seg.value < |layout|
    requires h.seg.Some? && h.pos.Some? && h.seg.value < |layout|
  {
    Address(layout, g) + Bytes(g) <= Address(layout, h) || Address(layout, h) + Bytes(h) <= Address(layout, g)
  }

  /** Whether an object with any content is where the addresses say, and not empty. */
  predicate Present(layout: seq<int>, g: Ptr) {
    g.seg.Some? && g.pos.Some? && g.seg.value < |layout| && Bytes(g) > 0
  }

  /** No reachable list is empty, and reachable objects are the same or have their data apart. */
  ghost predicate Clean(src: Mem, layout: seq<int>, f: Ptr) {
    && (forall g :: Reaches(src, f, g) && !Nil(g) ==> Present(layout, g))
    && (forall g, h ::
          Reaches(src, f, g) && Reaches(src, f, h) && !Nil(g) && !Nil(h) && Present(layout, g) && Present(layout, h) ==>
            PtrEqual(layout, g, h) || DataApart(layout, g, h))
  }

  /** What a walk reaches has a clone, once everything is settled. */
  lemma {:induction false} WalkCloned(v: View, src: Mem, f: Ptr, k: nat, c: nat, chain: seq<Ptr>) returns (j: nat)
    requires Good(v, src, []) && HasCell(v.a, k, c) && Stands(v, f, v.a.cells[k][c]) && (Nil(f) || Target(src, Bare(f)))
    requires Walk(src, f, chain)
    ensures var g := chain[|chain| - 1];
      Nil(g) || (Target(src, Bare(g)) && First(v) <= j < |v.a.objs| && Names(g, Origin(v, j)))
    decreases |chain|
  {
    hide Inv;
    hide Target;
    hide ReadPtr;
    hide Bytes;
    hide IsSlot;
    hide DataWord;
    var g := chain[|chain| - 1];
    j := 0;
    if |chain| == 1 {
      if v.a.cells[k][c].to.Some? {
        j := v.a.cells[k][c].to.value;
      }
      assert Bare(g) == Bare(f);
    } else {
      var before := chain[..|chain| - 1];
      var q := before[|before| - 1];
      assert forall i :: 0 <= i < |before| - 1 ==> Follows(src, before[i], before[i + 1]);
      assert Follows(src, chain[|chain| - 2], chain[|chain| - 2 + 1]);
      var i := WalkCloned(v, src, f, k, c, before);
      j := SlotCloned(v, src, q, i, g);
    }
  }

  /** What a slot of a cloned object resolves to has a clone. */
  lemma SlotCloned(v: View, src: Mem, q: Ptr, i: nat, g: Ptr) returns (j: nat)
    requires Good(v, src, []) && Follows(src, q, g)
    requires Nil(q) || (Target(src, Bare(q)) && First(v) <= i < |v.a.objs| && Names(q, Origin(v, i)))
    ensures Nil(g) || (Target(src, Bare(g)) && First(v) <= j < |v.a.objs| && Names(g, Origin(v, j)))
  {
    hide Inv;
    hide Target;
    hide ReadPtr;
    hide DataWord;
    hide Alike;
    hide Shape;
    j := 0;
    var c: nat :| c < Words(q) && IsSlot(q, c) && Bare(SlotPtr(src, q, c)) == g;
    if !Nil(q) {
      hide Bytes;
      InvLaid(v.a);
      var o, p := Origin(v, i), v.a.objs[i];
      NamesAlike(src, Bare(q), o, p);
      SameSlots(Bare(q), q);
      AlikeShape(src, q, p);
      LaidWords(v.a, i);
      assert HasCell(v.a, i, c) && Settled(v, src, i, c);
      SlotPlace(v.a, i, c);
      ReadSource(src, q.seg.value, q.pos.value + c);
      var cell := v.a.cells[i][c];
      assert SlotPtr(src, o, c) == SlotPtr(src, q, c);
      if cell.to.Some? {
        j := cell.to.value;
      }
      BareTwice(SlotPtr(src, q, c));
    }
  }

  lemma BareTwice(p: Ptr)
    ensures Bare(Bare(p)) == Bare(p) && Nil(Bare(p)) == Nil(p)
  {
  }

  lemma AlikeShape(src: Mem, q: Ptr, p: Ptr)
    requires Target(src, Bare(q)) && Alike(Bare(q), p)
    ensures (forall c: nat :: IsSlot(Bare(q), c) == IsSlot(p, c)) && Words(Bare(q)) == Words(p)
  {
    AlikeSlots(Bare(q), p);
  }

  /** The word 1 in front of the end of its segment is a list without elements. */
  lemma EmptyWord(src: Mem, f: Ptr, g: Ptr)
    requires src == [Seg([1], 1)] && f == Ptr(Struct, false, false, false, 0, 1, 0, Some(0), Some(0))
    requires g == Ptr(List, false, false, false, 0, 0, 0, Some(0), Some(1))
    ensures Sized(src) && Target(src, f) && Follows(src, f, g)
  {
    assert ReadPtr(src, 0, 0) == g;
    assert IsSlot(f, 0) && Words(f) == 1 && Bare(SlotPtr(src, f, 0)) == g;
  }

  lemma EmptyUnclean(src: Mem, layout: seq<int>, f: Ptr, g: Ptr)
    requires Reaches(src, f, g) && !Nil(g) && Bytes(g) == 0
    ensures !Clean(src, layout, f)
  {
  }

  /** A struct whose one pointer is an empty list: no copy of it can succeed. */
  lemma EmptyInside()
    ensures var src := [Seg([1], 1)];
      var f, g := Ptr(Struct, false, false, false, 0, 1, 0, Some(0), Some(0)),
        Ptr(List, false, false, false, 0, 0, 0, Some(0), Some(1));
      && Sized(src) && Target(src, f) && Reaches(src, f, g) && !Clean(src, [0], f)
  {
    hide Target;
    hide Follows;
    hide Clean;
    hide Reaches;
    var src := [Seg([1], 1)];
    var f, g := Ptr(Struct, false, false, false, 0, 1, 0, Some(0), Some(0)),
      Ptr(List, false, false, false, 0, 0, 0, Some(0), Some(1));
    EmptyWord(src, f, g);
    assert Walk(src, f, [f]);
    WalkOn(src, f, [f], g);
    EmptyUnclean(src, [0], f, g);
  }

  // ----- structs inside each other

  function Node(i: nat): Ptr {
    Ptr(Struct, false, false, false, 0, 1, 0, Some(0), Some(i))
  }

  /** What the null word in front of the end reads as. */
  function Last(n: nat): Ptr {
    Ptr(Null, false, false, false, 0, 0, 0, Some(0), Some(n))
  }

  /** `n` structs with one pointer each, to the next one; the last pointer is null. */
  function Nested(n: nat): (src: Mem)
    requires 0 < n <= 1000
    ensures Sized(src)
  {
    [Seg(seq(n, i requires 0 <= i < n => if i + 1 < n then 0x1_0000_0000_0000 else 0), n)]
  }

  lemma NodeSlot(n: nat, i: nat)
    requires 0 < n <= 1000 && i < n
    ensures Target(Nested(n), Node(i))
    ensures ReadPtr(Nested(n), 0, i) == if i + 1 < n then Node(i + 1) else Last(n)
  {
    if i + 1 < n {
      assert Target(Nested(n), Node(i + 1));
      assert Nested(n)[0].words[i] == TagWord(Node(i + 1), 0);
      ReadNear(Nested(n), 0, i, Node(i + 1));
    }
  }

  /** A node leads to the next one and nowhere else. */
  lemma NodeFollows(n: nat, i: nat, r: Ptr)
    requires 0 < n <= 1000 && i < n
    ensures Follows(Nested(n), Node(i), r) <==> r == if i + 1 < n then Node(i + 1) else Last(n)
  {
    NodeSlot(n, i);
    hide ReadPtr;
    hide Nested;
    assert IsSlot(Node(i), 0) && Words(Node(i)) == 1;
    assert SlotPtr(Nested(n), Node(i), 0) == ReadPtr(Nested(n), 0, i);
  }

  lemma {:induction false} NodeWalk(n: nat, chain: seq<Ptr>, i: nat)
    requires 0 < n <= 1000 && Walk(Nested(n), Node(0), chain) && i < |chain|
    ensures i <= n && chain[i] == if i < n then Node(i) else Last(n)
  {
    hide Nested;
    hide Follows;
    if i > 0 {
      NodeWalk(n, chain, i - 1);
      assert Follows(Nested(n), chain[i - 1], chain[i - 1 + 1]);
      if i - 1 < n {
        NodeFollows(n, i - 1, chain[i]);
      } else {
        NullLeads(Nested(n), n, chain[i]);
      }
    }
  }

  lemma NullLeads(src: Mem, n: nat, r: Ptr)
    ensures !Follows(src, Last(n), r)
  {
  }

  lemma {:induction false} NodeDepth(n: nat, chain: seq<Ptr>, i: nat)
    requires 0 < n <= 1000 && Walk(Nested(n), Node(0), chain) && i <= |chain|
    ensures Depth(chain[..i]) == i
  {
    hide Walk;
    hide Nested;
    if i > 0 {
      NodeDepth(n, chain, i - 1);
      NodeWalk(n, chain, i - 1);
      assert chain[..i][..i - 1] == chain[..i - 1] && chain[..i][i - 1] == chain[i - 1];
    }
  }

  lemma {:induction false} NodeReached(n: nat, i: nat)
    requires 0 < n <= 1000 && i < n
    ensures Reaches(Nested(n), Node(0), Node(i))
  {
    hide Nested;
    hide Follows;
    if i == 0 {
      assert Walk(Nested(n), Node(0), [Node(0)]);
    } else {
      NodeReached(n, i - 1);
      var chain :| Walk(Nested(n), Node(0), chain) && chain[|chain| - 1] == Node(i - 1);
      NodeFollows(n, i - 1, Node(i));
      WalkOn(Nested(n), Node(0), chain, Node(i));
    }
  }

  lemma TooLong(chain: seq<Ptr>)
    requires chain != [] && chain[|chain| - 1] == Node(30) && Depth(chain[..|chain| - 1]) >= 30
    ensures !StackHolds(chain)
  {
  }

  lemma NotShallow(src: Mem, f: Ptr, h: Ptr)
    requires forall chain: seq<Ptr> ::
      Walk(src, f, chain) && chain != [] && chain[|chain| - 1] == h ==> !StackHolds(chain)
    ensures !ShallowTo(src, f, h)
  {
  }

  /** Thirty-one and more structs inside each other cannot be copied; up to thirty never are too deep. */
  lemma NestedRefused(n: nat)
    requires 0 < n <= 1000
    ensures Sized(Nested(n)) && Target(Nested(n), Node(0))
    ensures n >= 31 ==> !AllShallow(Nested(n), Node(0))
    ensures n <= 30 ==> forall before: View, layout: seq<int>, mem: Mem, room: nat, chain: seq<Ptr> ::
      !Blocked(before, Nested(n), layout, Node(0), mem, room, chain, TooDeep)
  {
    hide Nested;
    hide Walk;
    hide Reaches;
    NodeSlot(n, 0);
    if n >= 31 {
      NodeReached(n, 30);
      forall h | Names(Node(30), h)
        ensures !ShallowTo(Nested(n), Node(0), h)
      {
        hide StackHolds;
        forall chain: seq<Ptr> | Walk(Nested(n), Node(0), chain) && chain != [] && chain[|chain| - 1] == h
          ensures !StackHolds(chain)
        {
          NodeWalk(n, chain, |chain| - 1);
          NodeDepth(n, chain, |chain| - 1);
          TooLong(chain);
        }
        NotShallow(Nested(n), Node(0), h);
      }
    } else {
      forall chain: seq<Ptr> | Walk(Nested(n), Node(0), chain) && chain != [] && !Nil(chain[|chain| - 1])
        ensures Depth(chain) < 31
      {
        NodeWalk(n, chain, |chain| - 1);
        NodeDepth(n, chain, |chain|);
        assert chain[..|chain|] == chain;
      }
    }
  }
}
