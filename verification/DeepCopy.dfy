/** `capn_setp` with a target of another message: the loop that clones everything reachable from the
    target, with a stack of pointers and a tree of what has been cloned. */
module DeepCopy {
  import opened SegmentTable
  import opened Options
  import opened Pointers
  import opened ObjectGraph
  import opened CloneGraph
  import opened CopyObject
  import opened SourceWalks
  import C = CopyTree
  import H = MessageHeap
  import O = MessageObjects

  const MAX_COPY_DEPTH: nat := 32

  // ----- the stack as a walk through the source

  /** One level of the stack on top of another: an element of the list, or what a slot resolves to. */
  ghost predicate Inside(v: View, src: Mem, fr: Frame, r: Range, fr': Frame, r': Range) {
    && First(v) <= r.obj < |v.a.objs| && First(v) <= r'.obj < |v.a.objs|
    && if fr.to.kind == List then fr'.to.kind == PtrList && r'.obj == r.obj
       else r.obj < r'.obj && Follows(src, Origin(v, r.obj), Origin(v, r'.obj))
            && (fr'.to.kind == List <==> Levels(Origin(v, r'.obj)) == 2)
  }

  /** The stack leads from the target inwards, and everything cloned from object `n` on was reached from
      the target. */
  ghost predicate Tracking(v: View, src: Mem, f: Ptr, n: nat, stack: seq<Frame>, todo: seq<Range>) {
    && |stack| == |todo| && First(v) <= n
    && (|stack| > 0 ==> First(v) <= todo[0].obj < |v.a.objs| && Origin(v, todo[0].obj) == Bare(f)
                        && (stack[0].to.kind == List <==> Levels(Bare(f)) == 2))
    && (forall i :: 0 <= i < |stack| ==> n <= todo[i].obj)
    && (forall i :: 0 <= i < |stack| - 1 ==> Inside(v, src, stack[i], todo[i], stack[i + 1], todo[i + 1]))
    && AllReached(v, src, f, n)
  }

  ghost predicate AllReached(v: View, src: Mem, f: Ptr, n: nat)
    requires First(v) <= n
  {
    forall j: nat {:trigger v.a.objs[j]} :: n <= j < |v.a.objs| ==> Reaches(src, f, Origin(v, j))
  }

  /** How one step of the loop moves the stack. */
  ghost predicate Moves(v: View, v': View, src: Mem, fr: Frame, r: Range, fr': Frame, r': Range, top: Option<Frame>,
                        left: seq<Range>) {
    && First(v) <= r.obj < |v.a.objs| && r'.obj == r.obj && fr'.to.kind == fr.to.kind
    && (v'.origin == v.origin ||
        (|v'.origin| == |v.origin| + 1 && v'.origin[..|v.origin|] == v.origin
         && Follows(src, Origin(v, r.obj), v'.origin[|v.origin|]) && fr.to.kind == PtrList
         && Opens(v'.origin[|v.origin|], top)))
    && (top.Some? ==> |left| == 1 && Inside(v', src, fr', r', top.value, left[0]))
  }

  lemma TrackStart(v: View, v': View, src: Mem, f: Ptr, top: Option<Frame>, left: seq<Range>)
    requires Later(v, v') && First(v) >= 0 && Grown(v, v', f, top, left) && Leaves(v', top, left)
    ensures Tracking(v', src, f, |v.a.objs|, if top.Some? then [top.value] else [], left)
  {
    assert Walk(src, f, [Bare(f)]) && [Bare(f)][|[Bare(f)]| - 1] == Bare(f);
    hide Reaches;
    forall j: nat | |v.a.objs| <= j < |v'.a.objs|
      ensures Reaches(src, f, Origin(v', j))
    {
      assert j == |v.a.objs| && Origin(v', j) == Bare(f);
    }
  }

  lemma TrackPop(v: View, src: Mem, f: Ptr, n: nat, below: seq<Frame>, rest: seq<Range>, fr: Frame, r: Range)
    requires Tracking(v, src, f, n, below + [fr], rest + [r]) && |below| == |rest|
    ensures Tracking(v, src, f, n, below, rest)
  {
    hide Inside;
    hide AllReached;
    var s, t := below + [fr], rest + [r];
    assert |below| > 0 ==> t[0] == rest[0];
    forall i | 0 <= i < |below|
      ensures n <= rest[i].obj
    {
      assert n <= t[i].obj && t[i] == rest[i];
    }
    forall i | 0 <= i < |below| - 1
      ensures Inside(v, src, below[i], rest[i], below[i + 1], rest[i + 1])
    {
      assert Inside(v, src, s[i], t[i], s[i + 1], t[i + 1]);
    }
  }

  lemma InsideLater(v: View, v': View, src: Mem, fr: Frame, r: Range, fr': Frame, r': Range)
    requires Inside(v, src, fr, r, fr', r') && Later(v, v')
    ensures Inside(v', src, fr, r, fr', r')
  {
    hide Follows;
  }

  lemma CloneNew(v: View, v': View, src: Mem, f: Ptr, k: nat, j: nat)
    requires Later(v, v') && First(v) >= 0 && First(v) <= k < |v.a.objs| && |v.a.objs| <= j < |v'.a.objs|
    requires v'.origin == v.origin ||
      (|v'.origin| == |v.origin| + 1 && v'.origin[..|v.origin|] == v.origin
       && Follows(src, Origin(v, k), v'.origin[|v.origin|]))
    requires Reaches(src, f, Origin(v, k))
    ensures Reaches(src, f, Origin(v', j))
  {
    hide Follows;
    var chain :| Walk(src, f, chain) && chain[|chain| - 1] == Origin(v, k);
    WalkOn(src, f, chain, Origin(v', j));
  }

  lemma {:induction false} TrackStep(v: View, v': View, src: Mem, f: Ptr, n: nat, below: seq<Frame>, rest: seq<Range>,
                                     fr: Frame, r: Range, fr': Frame, r': Range, top: Option<Frame>, left: seq<Range>)
    requires Tracking(v, src, f, n, below + [fr], rest + [r]) && |below| == |rest| && Later(v, v') && First(v) >= 0
    requires Moves(v, v', src, fr, r, fr', r', top, left) && Leaves(v', top, left)
    ensures Tracking(v', src, f, n, below + [fr'] + (if top.Some? then [top.value] else []), rest + [r'] + left)
  {
    hide Reaches;
    hide Follows;
    var s, t := below + [fr], rest + [r];
    var s', t' := below + [fr'] + (if top.Some? then [top.value] else []), rest + [r'] + left;
    assert t[0].obj == t'[0].obj;
    assert Origin(v', t[0].obj) == Origin(v, t[0].obj);
    forall i | 0 <= i < |s'| - 1
      ensures Inside(v', src, s'[i], t'[i], s'[i + 1], t'[i + 1])
    {
      if i < |below| {
        InsideLater(v, v', src, s[i], t[i], s[i + 1], t[i + 1]);
      }
    }
    assert t[|below|] == r && s[|below|] == fr;
    assert v.a.objs[r.obj] == v.a.objs[r.obj];
    forall j: nat | n <= j < |v'.a.objs|
      ensures Reaches(src, f, Origin(v', j))
    {
      if j < |v.a.objs| {
        assert v.a.objs[j] == v.a.objs[j] && Origin(v', j) == Origin(v, j);
      } else {
        CloneNew(v, v', src, f, r.obj, j);
      }
    }
    forall i | 0 <= i < |t'|
      ensures n <= t'[i].obj
    {
      assert i < |below| ==> t'[i] == t[i];
    }
  }

  /** The objects on the stack, from the target inwards, one after the other. */
  lemma {:induction false} StackChain(v: View, src: Mem, f: Ptr, n0: nat, stack: seq<Frame>, todo: seq<Range>, n: nat)
    returns (chain: seq<Ptr>, ids: seq<nat>)
    requires Tracking(v, src, f, n0, stack, todo) && FramesOk(v, stack, todo) && Origins(v, src) && 0 < n <= |stack|
    ensures Walk(src, f, chain) && chain[|chain| - 1] == Origin(v, todo[n - 1].obj)
    ensures Depth(chain) == n + if stack[n - 1].to.kind == List then 1 else 0
    ensures |ids| == |chain| && ids[|ids| - 1] == todo[n - 1].obj
      && (forall i, j :: 0 <= i < j < |ids| ==> ids[i] < ids[j])
    ensures forall i :: 0 <= i < |ids| ==> First(v) <= ids[i] < |v.a.objs| && Origin(v, ids[i]) == chain[i]
    decreases n
  {
    hide Target;
    hide Follows;
    hide FrameOk;
    hide Reaches;
    hide Origins;
    hide Levels;
    hide AllReached;
    ListLevels(v, src, stack[n - 1], todo[n - 1]);
    var g := Origin(v, todo[n - 1].obj);
    if n == 1 {
      chain, ids := [g], [todo[0].obj];
      DepthOn([], g);
      assert [] + [g] == [g];
    } else {
      chain, ids := StackChain(v, src, f, n0, stack, todo, n - 1);
      assert Inside(v, src, stack[n - 2], todo[n - 2], stack[n - 2 + 1], todo[n - 2 + 1]);
      if stack[n - 2].to.kind != List {
        WalkOn(src, f, chain, g);
        DepthOn(chain, g);
        chain, ids := chain + [g], ids + [todo[n - 1].obj];
      }
    }
  }

  /** Everything cloned from object `n` on is reached by a walk that the stack has room for. */
  ghost predicate Shallow(v: View, src: Mem, f: Ptr, n: nat)
    requires First(v) <= n
  {
    forall j: nat {:trigger v.a.objs[j]} :: n <= j < |v.a.objs| ==> ShallowTo(src, f, Origin(v, j))
  }

  lemma ShallowStart(v: View, v': View, src: Mem, f: Ptr, top: Option<Frame>, left: seq<Range>)
    requires Later(v, v') && First(v) >= 0 && Grown(v, v', f, top, left)
    ensures First(v') <= |v.a.objs| && Shallow(v', src, f, |v.a.objs|)
  {
    hide ShallowTo;
    var chain := [Bare(f)];
    assert Walk(src, f, chain) && chain[|chain| - 1] == Bare(f) && chain[..0] == [];
    IsShallow(src, f, chain);
    forall j: nat | |v.a.objs| <= j < |v'.a.objs|
      ensures ShallowTo(src, f, Origin(v', j))
    {
      assert j == |v.a.objs| && Origin(v', j) == Bare(f);
    }
  }

  lemma IsShallow(src: Mem, f: Ptr, chain: seq<Ptr>)
    requires Walk(src, f, chain) && StackHolds(chain)
    ensures ShallowTo(src, f, chain[|chain| - 1])
  {
  }

  /** While the stack has room, so have the walks to what is on it. */
  lemma ShallowStep(v: View, v': View, src: Mem, f: Ptr, n: nat, below: seq<Frame>, rest: seq<Range>,
                    fr: Frame, r: Range, fr': Frame, r': Range, top: Option<Frame>, left: seq<Range>)
    requires Tracking(v, src, f, n, below + [fr], rest + [r]) && |below| == |rest| && Later(v, v') && First(v) >= 0
    requires FramesOk(v, below + [fr], rest + [r]) && Origins(v, src)
    requires Moves(v, v', src, fr, r, fr', r', top, left) && Shallow(v, src, f, n)
    requires |below| + 1 + (if top.Some? then 1 else 0) <= 30
    ensures First(v') <= n && Shallow(v', src, f, n)
  {
    hide ShallowTo;
    hide Follows;
    hide Walk;
    hide Inside;
    hide Levels;
    hide FramesOk;
    hide Origins;
    hide Moves;
    forall j: nat | n <= j < |v'.a.objs|
      ensures ShallowTo(src, f, Origin(v', j))
    {
      if j < |v.a.objs| {
        assert v.a.objs[j] == v.a.objs[j] && Origin(v', j) == Origin(v, j);
      } else {
        ShallowNew(v, v', src, f, n, below, rest, fr, r, fr', r', top, left, j);
      }
    }
  }

  lemma ShallowNew(v: View, v': View, src: Mem, f: Ptr, n: nat, below: seq<Frame>, rest: seq<Range>,
                   fr: Frame, r: Range, fr': Frame, r': Range, top: Option<Frame>, left: seq<Range>, j: nat)
    requires Tracking(v, src, f, n, below + [fr], rest + [r]) && |below| == |rest| && Later(v, v') && First(v) >= 0
    requires FramesOk(v, below + [fr], rest + [r]) && Origins(v, src)
    requires Moves(v, v', src, fr, r, fr', r', top, left) && |v.a.objs| <= j < |v'.a.objs|
    requires |below| + 1 + (if top.Some? then 1 else 0) <= 30
    ensures ShallowTo(src, f, Origin(v', j))
  {
    hide ShallowTo;
    hide Follows;
    hide Walk;
    hide Inside;
    hide Levels;
    hide Tracking;
    hide FramesOk;
    hide Origins;
    hide Opens;
    hide Depth;
    var s, t := below + [fr], rest + [r];
    assert s[|below|] == fr && t[|below|] == r;
    var chain, ids := StackChain(v, src, f, n, s, t, |s|);
    assert Follows(src, Origin(v, r.obj), Origin(v', j)) && Opens(Origin(v', j), top);
    ShallowOn(src, f, chain, Origin(v', j), top);
  }

  lemma ShallowOn(src: Mem, f: Ptr, chain: seq<Ptr>, g: Ptr, top: Option<Frame>)
    requires Walk(src, f, chain) && Follows(src, chain[|chain| - 1], g) && Opens(g, top)
    requires Depth(chain) + (if top.Some? then 1 else 0) <= 30
    ensures ShallowTo(src, f, g)
  {
    hide Follows;
    hide Walk;
    hide Depth;
    WalkOn(src, f, chain, g);
    assert (chain + [g])[..|chain|] == chain && (chain + [g])[|chain|] == g;
    IsShallow(src, f, chain + [g]);
  }

  lemma ListLevels(v: View, src: Mem, fr: Frame, r: Range)
    requires FrameOk(v, fr, r) && Origins(v, src)
    ensures First(v) <= r.obj < |v.a.objs| && 1 <= Levels(Origin(v, r.obj)) <= 2
  {
  }

  // ----- the loop

  /** The first cells of the last range are settled: it starts further on, and new ranges follow it. */
  lemma {:induction false} TopAdvances(v: View, src: Mem, rest: seq<Range>, r: Range, r': Range, left: seq<Range>,
                                       more: seq<Range>)
    requires Good(v, src, rest + [r] + left) && Origins(v, src) && r'.obj == r.obj && r'.hi == r.hi && r.lo <= r'.lo
    requires forall c: nat :: r.lo <= c < r'.lo && First(v) <= r.obj < |v.a.objs| && HasCell(v.a, r.obj, c) ==>
               Settled(v, src, r.obj, c) || Covered(more, r.obj, c)
    ensures Good(v, src, rest + [r'] + (left + more))
  {
    hide Inv;
    hide Settled;
    var was, now := rest + [r] + left, rest + [r'] + (left + more);
    forall k: nat, c: nat | First(v) <= k < |v.a.objs| && HasCell(v.a, k, c) && Covered(was, k, c)
      ensures Covered(now, k, c) || Settled(v, src, k, c)
    {
      CoveredJoin(rest + [r], left, k, c);
      CoveredMore(rest, r, k, c);
      CoveredJoin(rest + [r'], left + more, k, c);
      CoveredJoin(left, more, k, c);
      CoveredMore(rest, r', k, c);
    }
    TodoShift(v, src, was, now);
  }

  /** What is left to do on one level. */
  function Weight(fr: Frame): nat {
    if fr.to.len <= 0 then 0
    else if fr.to.kind == List then
      ElementsNonNegative(fr.to);
      fr.to.len * (1 + fr.to.ptrs)
    else fr.to.len
  }

  function Pending(stack: seq<Frame>): nat {
    if stack == [] then 0 else Pending(stack[..|stack| - 1]) + Weight(stack[|stack| - 1])
  }

  /** One slot of a pointer list: nothing for a null, else the clone of what it names. */
  method PointerStep(src: Mem, layout: seq<int>, tree: C.Tree, msg: H.Message, fr: Frame,
                     ghost v: View, ghost rest: seq<Range>, ghost r: Range)
    returns (err: int, fr': Frame, top: Option<Frame>, ghost v': View, ghost left: seq<Range>,
             ghost stop: (Ptr, Reason))
    requires msg.Valid() && Placed(src, layout) && Good(v, src, rest + [r]) && FrameOk(v, fr, r) && v.a.mem == msg.mem
    requires fr.to.kind == PtrList && fr.to.len > 0
    requires tree.Valid() && Recorded(v, layout, tree.Recs())
    modifies tree, tree.nodes`parent, tree.nodes`link, tree.nodes`red
    modifies msg, msg.table, SetOf(msg.table.segs), Bodies(msg.table.segs), H.Buffers(msg.table.segs)
    ensures msg.Valid() && old(msg.table.segs) <= msg.table.segs
    ensures forall g :: g in msg.table.segs ==>
      g in old(msg.table.segs) || (fresh(g) && fresh(g.item) && fresh(g.item.data))
    ensures err == 0 ==> v'.a.mem == msg.mem && Later(v, v') && Kept(v, v', r.obj, r.lo) && r.lo < r.hi
    ensures err == 0 ==> Good(v', src, rest + [Range(r.obj, r.lo + 1, r.hi)] + left)
    ensures err == 0 ==> FrameOk(v', fr', Range(r.obj, r.lo + 1, r.hi)) && Leaves(v', top, left)
    ensures err == 0 ==> fr'.to.kind == PtrList && fr'.to.len == fr.to.len - 1
    ensures err == 0 ==> Moves(v, v', src, fr, r, fr', Range(r.obj, r.lo + 1, r.hi), top, left)
    ensures err != 0 ==>
      Harmless(v, v', msg.mem, r.obj, r.lo) && Halted(v, src, layout, msg.mem, tree.room, r.obj, stop)
    ensures err == 0 ==> tree.Valid() && Recorded(v', layout, tree.Recs()) && fresh(tree.nodes - old(tree.nodes))
    ensures err == 0 ==> Unstarted(src, layout, tree.Recs()) < old(Unstarted(src, layout, tree.Recs()))
                         || (tree.Recs() == old(tree.Recs()) && left == [])
  {
    hide C.Tree.Valid;
    hide Good;
    hide Recorded;
    hide Unstarted;
    hide Placed;
    hide ReadPtr;
    hide Leaves;
    hide Later;
    hide Kept;
    hide Covered;
    hide Settled;
    hide Follows;
    hide Harmless;
    hide Stops;
    hide FrameOk;
    hide H.Message.Valid;
    SlotAt(v, src, msg.mem, fr, r, rest + [r]);
    ghost var k, c := r.obj, r.lo;
    err, fr', top, v', left := 0, fr, None, v, [];
    Nothing(v, k, c);
    var f := ReadPtr(src, fr.from.seg.value, fr.from.pos.value);
    stop := (f, NoRecord);
    if f.kind != Null {
      ghost var why;
      err, top, v', left, why := CopyPtr(src, layout, tree, msg, fr.to.seg.value, fr.to.pos.value, f, v, k, c,
                                         rest + [r]);
      stop := (f, why);
      if err != 0 {
        return;
      }
    } else {
      NullSettled(v, src, rest + [r], k, c);
      assert rest + [r] + [] == rest + [r];
    }
    fr' := Frame(Forward(fr.to, 1).(len := fr.to.len - 1), Forward(fr.from, 1));
    SlotDone(v, v', src, msg.mem, rest, r, fr, fr', f, top, left);
    SlotMoves(v, v', src, fr, r, fr', f, top, left);
  }

  /** A copy gives up at what a slot of object `k` resolves to. */
  ghost predicate Halted(v: View, src: Mem, layout: seq<int>, mem: Mem, room: nat, k: nat, stop: (Ptr, Reason)) {
    && First(v) <= k < |v.a.objs| && Follows(src, Origin(v, k), Bare(stop.0))
    && Stops(v, layout, mem, stop.0, stop.1) && (stop.1 == NoRecord ==> room == 0)
  }

  lemma SlotMoves(v: View, v': View, src: Mem, fr: Frame, r: Range, fr': Frame, f: Ptr, top: Option<Frame>,
                  left: seq<Range>)
    requires First(v) <= r.obj < |v.a.objs| && First(v) >= 0 && Later(v, v') && fr.to.kind == fr'.to.kind == PtrList
    requires Follows(src, Origin(v, r.obj), Bare(f)) && Grown(v, v', f, top, left) && Leaves(v', top, left)
    ensures Moves(v, v', src, fr, r, fr', Range(r.obj, r.lo + 1, r.hi), top, left)
  {
    hide Follows;
    assert Origin(v', r.obj) == Origin(v, r.obj);
  }

  lemma Nothing(v: View, k: nat, c: nat)
    ensures Later(v, v) && Kept(v, v, k, c) && Leaves(v, None, []) && forall f :: Grown(v, v, f, None, [])
  {
  }

  /** The slot that a frame stands at. */
  lemma SlotAt(v: View, src: Mem, mem: Mem, fr: Frame, r: Range, todo: seq<Range>)
    requires Good(v, src, todo) && FrameOk(v, fr, r) && v.a.mem == mem && fr.to.kind == PtrList && fr.to.len > 0
    ensures r.lo < r.hi && Origins(v, src) && Backed(src, Origin(v, r.obj)) && fr.from.seg.value < |src|
    ensures var f := ReadPtr(src, fr.from.seg.value, fr.from.pos.value);
      && f == SlotPtr(src, Origin(v, r.obj), r.lo)
      && (if Nil(f) then !f.composite else Target(src, Bare(f)))
      && SlotFor(v, src, mem, fr.to.seg.value, fr.to.pos.value, r.obj, r.lo, f)
      && Follows(src, Origin(v, r.obj), Bare(f))
    ensures First(v) >= 0 && First(v) <= r.obj < |v.a.objs|
    ensures fr.to.seg.Some? && fr.to.pos.Some? && fr.from.seg.Some? && fr.from.pos.Some?
  {
    hide ReadPtr;
    assert v.a.objs[r.obj] == v.a.objs[r.obj];
    LaidTarget(v.a, r.obj);
    AlikeSlots(Origin(v, r.obj), v.a.objs[r.obj]);
    GoodCell(v, src, todo, r.obj, r.lo);
    assert IsSlot(Origin(v, r.obj), r.lo);
    ReadSource(src, fr.from.seg.value, fr.from.pos.value);
  }

  lemma NullSettled(v: View, src: Mem, todo: seq<Range>, k: nat, c: nat)
    requires Good(v, src, todo) && Origins(v, src) && First(v) <= k < |v.a.objs| && HasCell(v.a, k, c)
      && IsSlot(v.a.objs[k], c)
    requires Backed(src, Origin(v, k)) && Nil(SlotPtr(src, Origin(v, k), c))
    ensures Stands(v, SlotPtr(src, Origin(v, k), c), v.a.cells[k][c])
  {
    SlotPlace(v.a, k, c);
    assert Settled(v, src, k, c) || v.a.cells[k][c].to == None;
  }

  lemma SlotDone(v: View, v': View, src: Mem, mem: Mem, rest: seq<Range>, r: Range, fr: Frame, fr': Frame, f: Ptr,
                 top: Option<Frame>, left: seq<Range>)
    requires FrameOk(v, fr, r) && fr.to.kind == PtrList && fr.to.len > 0 && r.lo < r.hi
    requires Copied(v, v', src, mem, rest + [r], r.obj, r.lo, f, top, left)
    requires Origins(v, src) && f == SlotPtr(src, Origin(v, r.obj), r.lo) && fr.to.pos.Some? && fr.from.pos.Some?
    requires fr' == Frame(Forward(fr.to, 1).(len := fr.to.len - 1), Forward(fr.from, 1))
    ensures Good(v', src, rest + [Range(r.obj, r.lo + 1, r.hi)] + left)
      && FrameOk(v', fr', Range(r.obj, r.lo + 1, r.hi))
    ensures Leaves(v', top, left)
  {
    hide SlotPtr;
    hide Covered;
    hide Inv;
    hide Cloned;
    hide Leaves;
    hide Target;
    hide Alike;
    var r' := Range(r.obj, r.lo + 1, r.hi);
    assert v'.a.objs[r.obj] == v.a.objs[r.obj];
    TopAdvances(v', src, rest, r, r', left, []);
    assert left + [] == left;
  }

  /** `capn_getp` of the first element of a list. */
  function FirstElement(m: Mem, p: Ptr): Ptr {
    if p.len <= 0 || !Backed(m, p) || p.pos.value > |m[p.seg.value].words| then NULL
    else Ptr(Struct, false, true, false, p.datasz, p.ptrs, 0, p.seg, p.pos)
  }

  method ElementOn(msg: H.Message, p: Ptr) returns (e: Ptr)
    requires msg.Valid()
    ensures msg.Valid() && e == FirstElement(msg.mem, p)
  {
    hide H.Message.Valid;
    hide H.Holds;
    msg.SegNum();
    if p.len <= 0 || p.seg.None? || p.pos.None? || p.seg.value >= msg.table.segnum {
      return NULL;
    }
    var g := O.SegmentAt(msg, p.seg.value);
    msg.Place(g);
    if p.pos.value > g.item.len {
      return NULL;
    }
    e := Ptr(Struct, false, true, false, p.datasz, p.ptrs, 0, p.seg, p.pos);
  }

  lemma {:induction false} StepApart(q: int, j: int, m: nat)
    requires q > j
    ensures Times(q, m) >= Times(j, m) + m
    decreases q - j
  {
    hide Times;
    TimesStep(q - 1, m);
    if q - 1 > j {
      StepApart(q - 1, j, m);
    }
  }

  lemma DivisionOf(a: int, m: nat)
    requires m > 0
    ensures a == Times(a / m, m) + a % m && 0 <= a % m < m
  {
  }

  lemma ElementMod(j: int, size: nat, i: nat)
    requires i < size
    ensures (Times(j, size) + i) % size == i
  {
    hide Times;
    var a := Times(j, size) + i;
    DivisionOf(a, size);
    if a / size > j {
      StepApart(a / size, j, size);
    } else if a / size < j {
      StepApart(j, a / size, size);
    }
  }

  lemma TimesStep(n: int, m: int)
    ensures Times(n + 1, m) == Times(n, m) + m
  {
  }

  /** The element that a frame stands at: data cells, then slots. */
  lemma ElementCells(p: Ptr, fr: Frame, r: Range)
    requires ElementsOk(p, fr, r) && fr.to.len > 0 && r.lo <= r.hi && Shape(p)
    ensures var n, d := Size(p), p.datasz / 8;
      && 0 < d < n && r.lo + n <= r.hi
      && (forall c: nat :: r.lo <= c < r.lo + d ==> !IsSlot(p, c)) && Slots(p, r.lo + d, r.lo + n)
      && Times(p.len - (fr.to.len - 1), n) == r.lo + n && Times(fr.to.len - 1, n) == r.hi - (r.lo + n)
      && Times(fr.to.len - 1, n) >= 0 && Bytes(p) == 8 * r.hi
  {
    hide Times;
    var n := Size(p);
    TimesStep(fr.to.len - 1, n);
    TimesStep(p.len - fr.to.len, n);
    TimesNatural(fr.to.len - 1, n);
    forall c: nat | r.lo <= c < r.lo + n
      ensures c % n == c - r.lo
    {
      ElementMod(p.len - fr.to.len, n, c - r.lo);
    }
  }

  lemma TimesNatural(n: int, m: nat)
    requires n >= 0
    ensures Times(n, m) >= 0
  {
  }

  /** Everything the element step needs to know. */
  lemma ElementAt(v: View, src: Mem, mem: Mem, fr: Frame, r: Range, todo: seq<Range>)
    requires Good(v, src, todo) && FrameOk(v, fr, r) && v.a.mem == mem && fr.to.kind == List && fr.to.len > 0
    ensures var p, o := v.a.objs[r.obj], Origin(v, r.obj);
      && ElementsOk(p, fr, r) && Shape(p) && Bytes(o) == Bytes(p) && Origins(v, src)
      && FirstElement(src, fr.from) == Ptr(Struct, false, true, false, p.datasz, p.ptrs, 0, fr.from.seg, fr.from.pos)
      && FirstElement(mem, fr.to) == Ptr(Struct, false, true, false, p.datasz, p.ptrs, 0, fr.to.seg, fr.to.pos)
  {
    hide Inv;
    hide Times;
    InvLaid(v.a);
    assert v.a.objs[r.obj] == v.a.objs[r.obj];
    LaidTarget(v.a, r.obj);
    AlikeSlots(Origin(v, r.obj), v.a.objs[r.obj]);
    ElementCells(v.a.objs[r.obj], fr, r);
  }

  /** `copy_list_member` on one element of a composite list: its data at once, its pointers on the stack. */
  method ElementStep(src: Mem, msg: H.Message, fr: Frame, ghost v: View, ghost rest: seq<Range>, ghost r: Range)
    returns (fr': Frame, top: Frame, ghost v': View, ghost r': Range, ghost inner: Range)
    requires msg.Valid() && Good(v, src, rest + [r]) && FrameOk(v, fr, r) && v.a.mem == msg.mem && fr.to.kind == List
      && fr.to.len > 0
    modifies msg`mem, H.Buffers(msg.table.segs)
    ensures msg.Valid() && v'.a.mem == msg.mem && Later(v, v') && v'.a.objs == v.a.objs && v'.origin == v.origin
      && Only(v, v', r)
    ensures Good(v', src, rest + [r'] + [inner]) && FrameOk(v', fr', r') && FrameOk(v', top, inner)
    ensures fr' == Frame(fr'.to.(kind := List, len := fr.to.len - 1, ptrs := fr.to.ptrs), fr'.from)
    ensures top.to.kind == PtrList && top.to.len == fr.to.ptrs && r'.obj == inner.obj == r.obj
  {
    hide Good;
    hide Bytes;
    hide IsSlot;
    hide Shape;
    hide Times;
    hide Only;
    hide Later;
    hide Slots;
    hide Origins;
    hide H.Message.Valid;
    hide FirstElement;
    ElementAt(v, src, msg.mem, fr, r, rest + [r]);
    ghost var p := v.a.objs[r.obj];
    ElementCells(p, fr, r);
    var fn := FirstElement(src, fr.from);
    var tn := ElementOn(msg, fr.to);
    var n, d := Size(tn), tn.datasz / 8;
    ghost var done := Range(r.obj, r.lo, r.lo + d);
    v' := CopyBytes(src, fn, msg, tn, tn.datasz, v, done, rest + [r]);
    top := Frame(Forward(tn, d).(kind := PtrList, len := tn.ptrs), Forward(fn, d));
    fr' := Frame(Forward(fr.to, n).(len := fr.to.len - 1), Forward(fr.from, n));
    inner, r' := Range(r.obj, r.lo + d, r.lo + n), Range(r.obj, r.lo + n, r.hi);
    ElementDone(v, v', src, rest, r, r', done, inner);
  }

  lemma ElementDone(v: View, v': View, src: Mem, rest: seq<Range>, r: Range, r': Range, done: Range, inner: Range)
    requires Good(v', src, rest + [r]) && Origins(v', src) && SettledAll(v', src, done) && Only(v, v', done)
    requires r.obj == r'.obj == done.obj == inner.obj && r'.hi == r.hi && r.lo == done.lo
    requires done.lo <= done.hi == inner.lo <= inner.hi == r'.lo <= r'.hi
    ensures Good(v', src, rest + [r'] + [inner]) && Only(v, v', r)
  {
    hide Inv;
    hide Settled;
    hide Origins;
    hide Cloned;
    forall c: nat | r.lo <= c < r'.lo && First(v') <= r.obj < |v'.a.objs| && HasCell(v'.a, r.obj, c)
      ensures Settled(v', src, r.obj, c) || Covered([inner], r.obj, c)
    {
      if c < done.hi {
        assert In(done, r.obj, c);
      } else {
        assert In([inner][0], r.obj, c);
      }
    }
    assert rest + [r] + [] == rest + [r];
    TopAdvances(v', src, rest, r, r', [], [inner]);
    assert [] + [inner] == [inner];
  }

  lemma FramesPush(v: View, v': View, below: seq<Frame>, rest: seq<Range>, fr: Frame, r: Range, top: Option<Frame>,
                   left: seq<Range>)
    requires FramesOk(v, below, rest) && Later(v, v') && FrameOk(v', fr, r) && Leaves(v', top, left)
    ensures FramesOk(v', below + [fr] + (if top.Some? then [top.value] else []), rest + [r] + left)
  {
    hide FrameOk;
    hide Later;
    forall i | 0 <= i < |below|
      ensures FrameOk(v', below[i], rest[i])
    {
      FrameLater(v, v', below[i], rest[i]);
    }
  }

  lemma PendingPush(below: seq<Frame>, fr: Frame)
    ensures Pending(below + [fr]) == Pending(below) + Weight(fr)
  {
    assert (below + [fr])[..|below|] == below;
  }

  lemma WeightStep(fr: Frame, fr': Frame)
    requires fr.to.len > 0 && fr'.to.len == fr.to.len - 1 && fr'.to.kind == fr.to.kind
    requires fr.to.kind == List ==> fr'.to.ptrs == fr.to.ptrs
    ensures Weight(fr) == Weight(fr') + if fr.to.kind == List then 1 + fr.to.ptrs else 1
  {
  }

  lemma PopDone(v: View, src: Mem, below: seq<Frame>, rest: seq<Range>, fr: Frame, r: Range)
    requires Good(v, src, rest + [r]) && FrameOk(v, fr, r) && fr.to.len == 0
    ensures Good(v, src, rest)
  {
    hide Good;
    TimesZero(0, Size(v.a.objs[r.obj]));
    NothingLeft(v, src, rest, r);
    assert rest + [] == rest;
  }

  lemma StandsLater(v: View, v': View, q: Ptr, cell: Cell)
    requires Stands(v, q, cell) && Later(v, v')
    ensures Stands(v', q, cell)
  {
  }

  /** What the loop keeps: the clones so far, what the stack still has to do, and the slot it is all for. */
  ghost predicate Looping(v0: View, v: View, src: Mem, layout: seq<int>, recs: set<C.Copy>, mem: Mem, k: nat, c: nat,
                          f: Ptr, stack: seq<Frame>, todo: seq<Range>)
  {
    && v.a.mem == mem && Good(v, src, todo) && Recorded(v, layout, recs) && FramesOk(v, stack, todo)
    && Later(v0, v) && Kept(v0, v, k, c) && k < First(v0) && HasCell(v0.a, k, c) && HasCell(v.a, k, c)
    && Stands(v, f, v.a.cells[k][c]) && |v0.a.cells| == |v0.a.objs|
    && forall i :: 0 <= i < |todo| ==> |v0.a.objs| <= todo[i].obj
  }

  /** One step of the loop on a slot or an element keeps the invariant. */
  lemma LoopStep(v0: View, v: View, v': View, src: Mem, layout: seq<int>, recs: set<C.Copy>, recs': set<C.Copy>,
                 mem: Mem, mem': Mem, k: nat, c: nat, f: Ptr, below: seq<Frame>, rest: seq<Range>, fr: Frame, r: Range,
                 fr': Frame, r': Range, top: Option<Frame>, left: seq<Range>)
    requires Looping(v0, v, src, layout, recs, mem, k, c, f, below + [fr], rest + [r]) && |below| == |rest|
    requires v'.a.mem == mem' && Later(v, v') && Good(v', src, rest + [r'] + left) && Recorded(v', layout, recs')
    requires FrameOk(v', fr', r') && Leaves(v', top, left)
    requires Elsewhere(v, v', r.obj) && r'.obj == r.obj && (left == [] || left[0].obj >= r.obj)
    ensures Looping(v0, v', src, layout, recs', mem', k, c, f, below + [fr'] + (if top.Some? then [top.value] else []),
                    rest + [r'] + left)
  {
    hide Good;
    hide Recorded;
    hide FrameOk;
    hide Leaves;
    assert FrameOk(v, fr, r) by {
      assert (below + [fr])[|below|] == fr && (rest + [r])[|below|] == r;
    }
    FrameObject(v, fr, r);
    assert FramesOk(v, below, rest) by {
      forall i | 0 <= i < |below|
        ensures FrameOk(v, below[i], rest[i])
      {
        assert (below + [fr])[i] == below[i] && (rest + [r])[i] == rest[i];
      }
    }
    FramesPush(v, v', below, rest, fr', r', top, left);
    LeavesOne(v', top, left);
    assert |v0.a.objs| <= (rest + [r])[|rest|].obj && (rest + [r])[|rest|] == r;
    TodoFrom(rest, r, r', left, |v0.a.objs|);
    StandsLater(v, v', f, v.a.cells[k][c]);
  }

  lemma TodoFrom(rest: seq<Range>, r: Range, r': Range, left: seq<Range>, n: nat)
    requires (forall i :: 0 <= i < |rest + [r]| ==> n <= (rest + [r])[i].obj) && r'.obj == r.obj && |left| <= 1
    requires left == [] || left[0].obj >= r.obj
    ensures forall i :: 0 <= i < |rest + [r'] + left| ==> n <= (rest + [r'] + left)[i].obj
  {
    assert (rest + [r])[|rest|] == r;
    assert forall i :: 0 <= i < |rest| ==> (rest + [r])[i] == rest[i];
  }

  lemma LeavesOne(v: View, top: Option<Frame>, left: seq<Range>)
    requires Leaves(v, top, left)
    ensures |left| <= 1
  {
  }

  /** What is new on the stack lies further on. */
  lemma MovesOn(v: View, v': View, src: Mem, fr: Frame, r: Range, fr': Frame, r': Range, top: Option<Frame>,
                left: seq<Range>)
    requires Moves(v, v', src, fr, r, fr', r', top, left) && Leaves(v', top, left)
    ensures r'.obj == r.obj && (left == [] || left[0].obj >= r.obj)
  {
  }

  lemma FrameObject(v: View, fr: Frame, r: Range)
    requires FrameOk(v, fr, r)
    ensures First(v) <= r.obj < |v.a.objs| && fr.to.len >= 0 && (fr.to.kind == List || fr.to.kind == PtrList)
    ensures fr.to.kind == List ==> fr.to.ptrs > 0
  {
  }

  /** A target of another message is never linked: a nil one is written as a null word. */
  lemma ForeignWrite(m: Mem, s: nat, d: nat, f: Ptr)
    requires Sized(m) && InMem(m, s, d) && f.datasz < TWO19 && f.ptrs < TWO16
    ensures WritePtr(m, s, d, f, true) == if Nil(f) then Wrote(Put(m, s, d, 0)) else NeedToCopy
    ensures !Nil(f) ==> f.kind != Null
  {
  }

  /** One step of the loop: a slot or an element at the top of the stack. */
  method StackStep(src: Mem, layout: seq<int>, tree: C.Tree, msg: H.Message, fr: Frame, ghost v: View,
                   ghost rest: seq<Range>, ghost r: Range)
    returns (err: int, fr': Frame, top: Option<Frame>, ghost v': View, ghost r': Range, ghost left: seq<Range>,
             ghost stop: (Ptr, Reason))
    requires msg.Valid() && Placed(src, layout) && Good(v, src, rest + [r]) && FrameOk(v, fr, r) && v.a.mem == msg.mem
      && fr.to.len > 0
    requires tree.Valid() && Recorded(v, layout, tree.Recs())
    modifies tree, tree.nodes`parent, tree.nodes`link, tree.nodes`red
    modifies msg, msg.table, SetOf(msg.table.segs), Bodies(msg.table.segs), H.Buffers(msg.table.segs)
    ensures msg.Valid() && old(msg.table.segs) <= msg.table.segs
    ensures forall g :: g in msg.table.segs ==>
      g in old(msg.table.segs) || (fresh(g) && fresh(g.item) && fresh(g.item.data))
    ensures err == 0 ==> v'.a.mem == msg.mem && Later(v, v') && Good(v', src, rest + [r'] + left)
    ensures err == 0 ==> FrameOk(v', fr', r') && Leaves(v', top, left) && Elsewhere(v, v', r.obj)
    ensures err == 0 ==> Moves(v, v', src, fr, r, fr', r', top, left)
    ensures err != 0 ==>
      Harmless(v, v', msg.mem, r.obj, r.lo) && Halted(v, src, layout, msg.mem, tree.room, r.obj, stop)
    ensures err == 0 ==> tree.Valid() && Recorded(v', layout, tree.Recs()) && fresh(tree.nodes - old(tree.nodes))
    ensures err == 0 ==> Unstarted(src, layout, tree.Recs()) < old(Unstarted(src, layout, tree.Recs()))
                         || (tree.Recs() == old(tree.Recs())
                             && Weight(fr') + (if top.Some? then Weight(top.value) else 0) < Weight(fr))
  {
    hide C.Tree.Valid;
    hide Good;
    hide Recorded;
    hide Unstarted;
    hide Placed;
    hide Later;
    hide Harmless;
    hide Halted;
    hide H.Message.Valid;
    FrameObject(v, fr, r);
    err, fr', top, v', r', left, stop := 0, fr, None, v, r, [], (NULL, NoRecord);
    if fr.to.kind == List {
      ghost var inner;
      var t;
      fr', t, v', r', inner := ElementStep(src, msg, fr, v, rest, r);
      top, left := Some(t), [inner];
      RecordedSame(v, v', layout, tree.Recs());
      WeightStep(fr, fr');
    } else {
      err, fr', top, v', left, stop := PointerStep(src, layout, tree, msg, fr, v, rest, r);
      r' := if err == 0 then Range(r.obj, r.lo + 1, r.hi) else r;
      if err == 0 {
        WeightStep(fr, fr');
      }
    }
  }

  /** The cells of the other objects are as they were. */
  ghost predicate Elsewhere(v: View, v': View, k: nat) {
    forall i: nat, j: nat :: HasCell(v.a, i, j) && i != k ==> HasCell(v'.a, i, j) && v'.a.cells[i][j] == v.a.cells[i][j]
  }

  lemma FirstCopied(v: View, v': View, src: Mem, layout: seq<int>, recs: set<C.Copy>, mem: Mem, k: nat, c: nat, f: Ptr,
                    top: Option<Frame>, left: seq<Range>)
    requires Copied(v, v', src, mem, [], k, c, f, top, left) && Recorded(v', layout, recs) && Inv(v.a)
      && HasCell(v.a, k, c)
    requires k < First(v) && Grown(v, v', f, top, left)
    ensures Looping(v, v', src, layout, recs, mem, k, c, f, if top.Some? then [top.value] else [], left)
  {
    hide Good;
    hide Recorded;
    hide FrameOk;
    hide Inv;
    InvLaid(v.a);
    assert [] + left == left;
  }

  lemma AllCopied(v0: View, v: View, src: Mem, layout: seq<int>, recs: set<C.Copy>, mem: Mem, s: nat, d: nat, k: nat,
                  c: nat, f: Ptr)
    requires Looping(v0, v, src, layout, recs, mem, k, c, f, [], []) && SlotFor(v0, src, v0.a.mem, s, d, k, c, f)
    requires Nil(f) || Target(src, Bare(f))
    ensures v.a.mem == mem && Good(v, src, []) && Later(v0, v) && Kept(v0, v, k, c) && Recorded(v, layout, recs)
    ensures s < |mem| && forall n: nat :: Equal(n, src, f, mem, ReadPtr(mem, s, d))
  {
    hide Good;
    hide Recorded;
    hide Target;
    hide ReadPtr;
    hide Equal;
    GoodParts(v, src, []);
    CellInMem(v.a, k, c);
    assert v.a.objs[k] == v0.a.objs[k];
    forall n: nat
      ensures Equal(n, src, f, mem, ReadPtr(mem, s, d))
    {
      CloneEqual(n, v, src, f, k, c);
    }
  }

  lemma NilCopied(v: View, src: Mem, layout: seq<int>, recs: set<C.Copy>, k: nat, c: nat, f: Ptr)
    requires Good(v, src, []) && k < First(v) && HasCell(v.a, k, c) && k < |v.a.objs| && IsSlot(v.a.objs[k], c)
      && Nil(f)
    requires Recorded(v, layout, recs)
    ensures Backed(v.a.mem, v.a.objs[k]) && InMem(v.a.mem, v.a.objs[k].seg.value, v.a.objs[k].pos.value + c)
    ensures var v' := v.(a := SetWord(v.a, k, c, 0, Link(None, Near)));
      Looping(v, v', src, layout, recs, v'.a.mem, k, c, f, [], [])
  {
    WordCell(v, src, [], k, c, 0, Link(None, Near));
    var v' := v.(a := SetWord(v.a, k, c, 0, Link(None, Near)));
    RecordedSame(v, v', layout, recs);
  }

  lemma SlotFacts(v: View, src: Mem, mem: Mem, s: nat, d: nat, k: nat, c: nat, f: Ptr, layout: seq<int>)
    requires Good(v, src, []) && SlotFor(v, src, mem, s, d, k, c, f)
    ensures HasCell(v.a, k, c) && k < |v.a.objs| && IsSlot(v.a.objs[k], c) && Inv(v.a) && Sized(mem)
    ensures v.a.mem == mem && v.a.objs[k].seg == Some(s) && v.a.objs[k].pos == Some(d - c)
  {
    hide Inv;
    InvLaid(v.a);
  }

  lemma LoopTop(v0: View, v: View, src: Mem, layout: seq<int>, recs: set<C.Copy>, mem: Mem, k: nat, c: nat, f: Ptr,
                stack: seq<Frame>, todo: seq<Range>) returns (rest: seq<Range>, r: Range)
    requires Looping(v0, v, src, layout, recs, mem, k, c, f, stack, todo) && |stack| > 0
    ensures |todo| == |stack| == |rest| + 1 && todo == rest + [r]
      && stack == stack[..|stack| - 1] + [stack[|stack| - 1]]
    ensures Good(v, src, rest + [r]) && FrameOk(v, stack[|stack| - 1], r) && v.a.mem == mem && Recorded(v, layout, recs)
    ensures stack[|stack| - 1].to.len >= 0
  {
    hide Good;
    hide Recorded;
    rest, r := todo[..|todo| - 1], todo[|todo| - 1];
    assert todo == rest + [r];
    FrameObject(v, stack[|stack| - 1], r);
  }

  lemma LoopPop(v0: View, v: View, src: Mem, layout: seq<int>, recs: set<C.Copy>, mem: Mem, k: nat, c: nat, f: Ptr,
                below: seq<Frame>, rest: seq<Range>, fr: Frame, r: Range)
    requires Looping(v0, v, src, layout, recs, mem, k, c, f, below + [fr], rest + [r]) && |below| == |rest|
      && fr.to.len == 0
    ensures Looping(v0, v, src, layout, recs, mem, k, c, f, below, rest)
  {
    hide Good;
    hide Recorded;
    hide FrameOk;
    assert (below + [fr])[|below|] == fr && (rest + [r])[|below|] == r;
    PopDone(v, src, below, rest, fr, r);
    forall i | 0 <= i < |below|
      ensures FrameOk(v, below[i], rest[i])
    {
      assert (below + [fr])[i] == below[i] && (rest + [r])[i] == rest[i];
    }
    forall i | 0 <= i < |rest|
      ensures |v0.a.objs| <= rest[i].obj
    {
      assert (rest + [r])[i] == rest[i];
    }
  }

  lemma LoopEnd(v0: View, v: View, src: Mem, layout: seq<int>, recs: set<C.Copy>, mem: Mem, k: nat, c: nat, f: Ptr,
                stack: seq<Frame>, todo: seq<Range>)
    requires Looping(v0, v, src, layout, recs, mem, k, c, f, stack, todo) && |stack| == 0
    ensures Looping(v0, v, src, layout, recs, mem, k, c, f, [], [])
  {
    assert stack == [] && todo == [];
  }

  /** The loop of `capn_setp` over its pointer stack: depth first, until every clone is finished. */
  method CopyLoop(src: Mem, layout: seq<int>, tree: C.Tree, msg: H.Message, start: seq<Frame>,
                  ghost v0: View, ghost v: View, ghost k: nat, ghost c: nat, ghost f: Ptr, ghost left0: seq<Range>)
    returns (err: int, ghost v': View, ghost chain: seq<Ptr>, ghost why: Reason)
    requires msg.Valid() && Placed(src, layout)
    requires tree.Valid() && Looping(v0, v, src, layout, tree.Recs(), msg.mem, k, c, f, start, left0)
    requires Tracking(v, src, f, |v0.a.objs|, start, left0)
    requires First(v) <= |v0.a.objs| && Shallow(v, src, f, |v0.a.objs|) && |start| <= 1
    modifies tree, tree.nodes`parent, tree.nodes`link, tree.nodes`red
    modifies msg, msg.table, SetOf(msg.table.segs), Bodies(msg.table.segs), H.Buffers(msg.table.segs)
    ensures msg.Valid() && old(msg.table.segs) <= msg.table.segs
    ensures forall g :: g in msg.table.segs ==>
      g in old(msg.table.segs) || (fresh(g) && fresh(g.item) && fresh(g.item.data))
    ensures err == 0 || err == -1
    ensures err == 0 ==> tree.Valid() && Looping(v0, v', src, layout, tree.Recs(), msg.mem, k, c, f, [], [])
    ensures err == 0 ==> First(v') <= |v0.a.objs| && Shallow(v', src, f, |v0.a.objs|)
    ensures err != 0 ==> Harmless(v0, v', msg.mem, k, c) && Blocked(v0, src, layout, f, msg.mem, tree.room, chain, why)
  {
    hide C.Tree.Valid;
    hide Good;
    hide Recorded;
    hide Unstarted;
    hide Looping;
    hide Later;
    hide FrameOk;
    hide Elsewhere;
    hide Leaves;
    hide Placed;
    hide Weight;
    hide Pending;
    hide Tracking;
    hide Moves;
    hide Harmless;
    hide Halted;
    hide Blocked;
    hide Shallow;
    hide H.Message.Valid;
    Layouts(src, layout);
    err, v', chain, why := -1, v, [], TooDeep;
    var stack := start;
    ghost var todo := left0;
    while |stack| > 0
      invariant tree.Valid() && fresh(tree.nodes - old(tree.nodes))
      invariant msg.Valid() && old(msg.table.segs) <= msg.table.segs
      invariant forall g :: g in msg.table.segs ==>
        g in old(msg.table.segs) || (fresh(g) && fresh(g.item) && fresh(g.item.data))
      invariant Looping(v0, v', src, layout, tree.Recs(), msg.mem, k, c, f, stack, todo)
      invariant Tracking(v', src, f, |v0.a.objs|, stack, todo) && |stack| <= 31
      invariant First(v') <= |v0.a.objs| && (|stack| <= 30 ==> Shallow(v', src, f, |v0.a.objs|))
      decreases Unstarted(src, layout, tree.Recs()), Pending(stack), |stack|
    {
      if |stack| + 1 == MAX_COPY_DEPTH {
        chain := DeepStack(v0, v', src, layout, tree, msg.mem, k, c, f, stack, todo);
        return;
      }
      var below, fr := stack[..|stack| - 1], stack[|stack| - 1];
      ghost var rest, r := LoopTop(v0, v', src, layout, tree.Recs(), msg.mem, k, c, f, stack, todo);
      PendingPush(below, fr);
      if fr.to.len == 0 {
        LoopPop(v0, v', src, layout, tree.Recs(), msg.mem, k, c, f, below, rest, fr, r);
        TrackPop(v', src, f, |v0.a.objs|, below, rest, fr, r);
        stack, todo := below, rest;
      } else {
        ghost var v1, before, m1 := v', tree.Recs(), msg.mem;
        var e, fr', top;
        ghost var r', left, stop;
        e, fr', top, v', r', left, stop := StackStep(src, layout, tree, msg, fr, v', rest, r);
        if e != 0 {
          why := stop.1;
          chain := HaltedLoop(v0, v1, v', src, layout, before, m1, msg.mem, tree.room, k, c, f, below + [fr],
                              rest + [r], stop);
          return;
        }
        TrackLoop(v0, v1, v', src, layout, before, m1, k, c, f, below, rest, fr, r, fr', r', top, left);
        MovesOn(v1, v', src, fr, r, fr', r', top, left);
        ShallowLoop(v0, v1, v', src, layout, before, m1, k, c, f, below, rest, fr, r, fr', r', top, left);
        LoopStep(v0, v1, v', src, layout, before, tree.Recs(), m1, msg.mem, k, c, f, below, rest, fr, r, fr', r', top,
                 left);
        PendingNext(below, fr', top);
        stack := below + [fr'] + if top.Some? then [top.value] else [];
        todo := rest + [r'] + left;
      }
    }
    LoopEnd(v0, v', src, layout, tree.Recs(), msg.mem, k, c, f, stack, todo);
    err := 0;
  }

  lemma TrackLoop(v0: View, v: View, v': View, src: Mem, layout: seq<int>, recs: set<C.Copy>, mem: Mem, k: nat, c: nat,
                  f: Ptr, below: seq<Frame>, rest: seq<Range>, fr: Frame, r: Range, fr': Frame, r': Range,
                  top: Option<Frame>, left: seq<Range>)
    requires Looping(v0, v, src, layout, recs, mem, k, c, f, below + [fr], rest + [r]) && |below| == |rest|
      && Later(v, v')
    requires Tracking(v, src, f, |v0.a.objs|, below + [fr], rest + [r])
    requires Moves(v, v', src, fr, r, fr', r', top, left) && Leaves(v', top, left)
    ensures Tracking(v', src, f, |v0.a.objs|, below + [fr'] + (if top.Some? then [top.value] else []),
                     rest + [r'] + left)
  {
    hide Good;
    hide Recorded;
    hide FrameOk;
    GoodParts(v, src, rest + [r]);
    TrackStep(v, v', src, f, |v0.a.objs|, below, rest, fr, r, fr', r', top, left);
  }

  lemma ShallowLoop(v0: View, v: View, v': View, src: Mem, layout: seq<int>, recs: set<C.Copy>, mem: Mem, k: nat,
                    c: nat, f: Ptr, below: seq<Frame>, rest: seq<Range>, fr: Frame, r: Range, fr': Frame, r': Range,
                    top: Option<Frame>, left: seq<Range>)
    requires Looping(v0, v, src, layout, recs, mem, k, c, f, below + [fr], rest + [r]) && |below| == |rest|
      && Later(v, v')
    requires Tracking(v, src, f, |v0.a.objs|, below + [fr], rest + [r]) && Shallow(v, src, f, |v0.a.objs|)
    requires Moves(v, v', src, fr, r, fr', r', top, left)
    ensures First(v') <= |v0.a.objs|
    ensures |below| + 1 + (if top.Some? then 1 else 0) <= 30 ==> Shallow(v', src, f, |v0.a.objs|)
  {
    hide Good;
    hide Recorded;
    hide FrameOk;
    hide Shallow;
    hide Tracking;
    hide Moves;
    GoodParts(v, src, rest + [r]);
    FirstLater(v0, v, v');
    if |below| + 1 + (if top.Some? then 1 else 0) <= 30 {
      ShallowStep(v, v', src, f, |v0.a.objs|, below, rest, fr, r, fr', r', top, left);
    }
  }

  lemma FirstLater(v0: View, v: View, v': View)
    requires Later(v0, v) && Later(v, v')
    ensures First(v') == First(v) == First(v0)
  {
  }

  /** A full stack is a walk of 31 levels through distinct objects. */
  lemma DeepStack(v0: View, v: View, src: Mem, layout: seq<int>, tree: C.Tree, mem: Mem, k: nat, c: nat, f: Ptr,
                  stack: seq<Frame>, todo: seq<Range>) returns (chain: seq<Ptr>)
    requires tree.Valid() && Placed(src, layout) && Looping(v0, v, src, layout, tree.Recs(), mem, k, c, f, stack, todo)
    requires Tracking(v, src, f, |v0.a.objs|, stack, todo) && |stack| + 1 == MAX_COPY_DEPTH
    ensures Harmless(v0, v, mem, k, c) && forall room: nat :: Blocked(v0, src, layout, f, mem, room, chain, TooDeep)
  {
    hide Good;
    hide Recorded;
    hide FrameOk;
    hide Tracking;
    hide C.Tree.Valid;
    hide Walk;
    GoodInv(v, src, todo);
    GoodParts(v, src, todo);
    var ids;
    chain, ids := StackChain(v, src, f, |v0.a.objs|, stack, todo, |stack|);
    forall i, j | 0 <= i < j < |chain|
      ensures chain[i] != chain[j]
    {
      OriginsDiffer(v, src, todo, layout, tree, ids[i], ids[j]);
    }
    OriginKind(v, src, ids[|ids| - 1]);
  }

  lemma OriginKind(v: View, src: Mem, j: nat)
    requires Origins(v, src) && First(v) <= j < |v.a.objs|
    ensures !Nil(Origin(v, j))
  {
    assert v.a.objs[j] == v.a.objs[j];
  }

  lemma GoodInv(v: View, src: Mem, todo: seq<Range>)
    requires Good(v, src, todo)
    ensures Inv(v.a)
  {
  }

  /** A failed step of the loop: the walk to the object on top of the stack, and one slot further. */
  lemma HaltedLoop(v0: View, v: View, v': View, src: Mem, layout: seq<int>, recs: set<C.Copy>, mem: Mem, mem': Mem,
                   room: nat, k: nat, c: nat, f: Ptr, stack: seq<Frame>, todo: seq<Range>, stop: (Ptr, Reason))
    returns (chain: seq<Ptr>)
    requires Looping(v0, v, src, layout, recs, mem, k, c, f, stack, todo) && |stack| > 0
    requires Tracking(v, src, f, |v0.a.objs|, stack, todo)
    requires Harmless(v, v', mem', todo[|stack| - 1].obj, todo[|stack| - 1].lo)
    requires Halted(v, src, layout, mem', room, todo[|stack| - 1].obj, stop)
    ensures Harmless(v0, v', mem', k, c) && Blocked(v0, src, layout, f, mem', room, chain, stop.1)
  {
    hide Good;
    hide Recorded;
    hide FrameOk;
    hide Inv;
    hide Follows;
    hide Walk;
    hide Harmless;
    hide Inside;
    hide NewData;
    hide Bytes;
    GoodParts(v, src, todo);
    var ids;
    chain, ids := StackChain(v, src, f, |v0.a.objs|, stack, todo, |stack|);
    WalkOn(src, f, chain, Bare(stop.0));
    chain := chain + [Bare(stop.0)];
    StopsBare(v, layout, mem', stop.0, stop.1);
    HarmlessSince(v0, v, v', mem', k, c, todo[|stack| - 1].obj, todo[|stack| - 1].lo);
    if stop.1.Clash? {
      ClashFrom(v0, v, src, f, stop.1.other);
    }
  }

  lemma HarmlessSince(v0: View, v: View, v': View, mem: Mem, k: nat, c: nat, i: nat, j: nat)
    requires Later(v0, v) && Kept(v0, v, k, c) && Harmless(v, v', mem, i, j) && |v0.a.objs| <= i
      && |v0.a.cells| == |v0.a.objs|
    ensures Harmless(v0, v', mem, k, c)
  {
    hide Inv;
  }

  /** What has a clone was cloned before, or is reached. */
  lemma ClashFrom(v0: View, v: View, src: Mem, f: Ptr, h: Ptr)
    requires Later(v0, v) && First(v0) >= 0 && HasClone(v, h)
    requires First(v) <= |v0.a.objs| && AllReached(v, src, f, |v0.a.objs|)
    ensures Reaches(src, f, h) || HasClone(v0, h)
  {
    hide Reaches;
    var j: nat :| First(v) <= j < |v.a.objs| && Origin(v, j) == h;
    if j < |v0.a.objs| {
      assert Origin(v0, j) == h;
    } else {
      assert v.a.objs[j] == v.a.objs[j];
    }
  }

  lemma StopsBare(v: View, layout: seq<int>, mem: Mem, f: Ptr, why: Reason)
    requires Stops(v, layout, mem, f, why)
    ensures Stops(v, layout, mem, Bare(f), why)
  {
    BareBytes(f);
    BareSpan(f);
  }

  lemma Layouts(src: Mem, layout: seq<int>)
    requires Placed(src, layout)
    ensures |layout| == |src|
  {
  }

  lemma PendingNext(below: seq<Frame>, fr: Frame, top: Option<Frame>)
    ensures Pending(below + [fr] + if top.Some? then [top.value] else [])
         == Pending(below) + Weight(fr) + if top.Some? then Weight(top.value) else 0
  {
    hide Weight;
    PendingPush(below, fr);
    if top.Some? {
      PendingPush(below + [fr], top.value);
    } else {
      assert below + [fr] + [] == below + [fr];
    }
  }

  /** A far pointer to nowhere. */
  predicate Unplaced(p: Ptr) {
    p.kind == FarPointer && (p.seg.None? || p.pos.None?)
  }

  lemma GoodHarmless(v: View, src: Mem, k: nat, c: nat)
    requires Good(v, src, [])
    ensures Harmless(v, v, v.a.mem, k, c)
  {
  }

  lemma HaltedFirst(v: View, src: Mem, layout: seq<int>, mem: Mem, room: nat, f: Ptr, why: Reason)
    returns (chain: seq<Ptr>)
    requires Stops(v, layout, mem, f, why) && (why == NoRecord ==> room == 0)
    ensures Blocked(v, src, layout, f, mem, room, chain, why)
  {
    hide NewData;
    chain := [Bare(f)];
    StopsBare(v, layout, mem, f, why);
  }

  lemma FirstTracked(v: View, v': View, src: Mem, mem: Mem, k: nat, c: nat, f: Ptr, top: Option<Frame>,
                     left: seq<Range>)
    requires Copied(v, v', src, mem, [], k, c, f, top, left) && Grown(v, v', f, top, left) && First(v) >= 0
    ensures Tracking(v', src, f, |v.a.objs|, if top.Some? then [top.value] else [], left)
  {
    hide Good;
    hide Leaves;
    TrackStart(v, v', src, f, top, left);
  }

  lemma FirstShallow(v: View, v': View, src: Mem, mem: Mem, k: nat, c: nat, f: Ptr, top: Option<Frame>,
                     left: seq<Range>)
    requires Copied(v, v', src, mem, [], k, c, f, top, left) && Grown(v, v', f, top, left) && First(v) >= 0
    ensures First(v') <= |v.a.objs| && Shallow(v', src, f, |v.a.objs|)
  {
    hide Good;
    hide Leaves;
    hide Shallow;
    hide Grown;
    ShallowStart(v, v', src, f, top, left);
  }

  lemma NoneNew(v: View, v': View, src: Mem, f: Ptr)
    requires v'.a.objs == v.a.objs && v'.origin == v.origin
    ensures First(v') <= |v.a.objs| && Shallow(v', src, f, |v.a.objs|)
  {
  }

  /** When nothing was cloned before, what was cloned is all that is reachable. */
  lemma WholeShallow(v0: View, v: View, src: Mem, layout: seq<int>, tree: C.Tree, mem: Mem, k: nat, c: nat, f: Ptr)
    requires Looping(v0, v, src, layout, tree.Recs(), mem, k, c, f, [], []) && tree.Valid() && Placed(src, layout)
    requires (Nil(f) || Target(src, Bare(f))) && First(v0) == |v0.a.objs|
    requires First(v) <= |v0.a.objs| && Shallow(v, src, f, |v0.a.objs|)
    ensures AllShallow(src, f)
  {
    hide Good;
    hide Recorded;
    hide Target;
    hide C.Tree.Valid;
    hide ShallowTo;
    hide Reaches;
    hide Stands;
    hide Bytes;
    forall g | Reaches(src, f, g) && !Nil(g)
      ensures exists h :: Names(g, h) && ShallowTo(src, f, h)
    {
      var j := CloneOf(v, src, layout, f, k, c, g);
      assert v.a.objs[j] == v.a.objs[j];
    }
  }

  /** The target itself, then what it leads to. */
  method CopyFrom(src: Mem, layout: seq<int>, tree: C.Tree, msg: H.Message, s: nat, d: nat, f: Ptr,
                  ghost v: View, ghost k: nat, ghost c: nat)
    returns (err: int, ghost v': View, ghost chain: seq<Ptr>, ghost why: Reason)
    requires msg.Valid() && Placed(src, layout)
    requires Good(v, src, []) && SlotFor(v, src, msg.mem, s, d, k, c, f) && k < First(v)
    requires Inv(v.a) && HasCell(v.a, k, c)
    requires tree.Valid() && Recorded(v, layout, tree.Recs())
    requires f.kind != Null && if Nil(f) then !f.composite else Target(src, Bare(f))
    modifies tree, tree.nodes`parent, tree.nodes`link, tree.nodes`red
    modifies msg, msg.table, SetOf(msg.table.segs), Bodies(msg.table.segs), H.Buffers(msg.table.segs)
    ensures msg.Valid() && old(msg.table.segs) <= msg.table.segs
    ensures forall g :: g in msg.table.segs ==>
      g in old(msg.table.segs) || (fresh(g) && fresh(g.item) && fresh(g.item.data))
    ensures err == 0 || err == -1
    ensures err == 0 ==> tree.Valid() && Looping(v, v', src, layout, tree.Recs(), msg.mem, k, c, f, [], [])
    ensures err == 0 ==> First(v') <= |v.a.objs| && Shallow(v', src, f, |v.a.objs|)
    ensures err != 0 ==> Harmless(v, v', msg.mem, k, c) && Blocked(v, src, layout, f, msg.mem, tree.room, chain, why)
  {
    hide H.Message.Valid;
    hide C.Tree.Valid;
    hide Good;
    hide Recorded;
    hide Unstarted;
    hide Placed;
    hide Looping;
    hide Copied;
    hide Grown;
    hide Tracking;
    hide Shallow;
    hide Target;
    hide Nil;
    hide SlotFor;
    hide Inv;
    hide Harmless;
    hide Stops;
    hide Blocked;
    var e, top;
    ghost var v1, left, limit;
    e, top, v1, left, limit := CopyPtr(src, layout, tree, msg, s, d, f, v, k, c, []);
    if e != 0 {
      err, v', why := -1, v1, limit;
      chain := HaltedFirst(v, src, layout, msg.mem, tree.room, f, limit);
      return;
    }
    FirstCopied(v, v1, src, layout, tree.Recs(), msg.mem, k, c, f, top, left);
    FirstTracked(v, v1, src, msg.mem, k, c, f, top, left);
    FirstShallow(v, v1, src, msg.mem, k, c, f, top, left);
    var stack := if top.Some? then [top.value] else [];
    err, v', chain, why := CopyLoop(src, layout, tree, msg, stack, v, v1, k, c, f, left);
  }

  /** `capn_setp` of a pointer slot, with a target of another message: clone everything reachable from
      the target, unless an earlier call has.  On success the slot has the target's value at every depth;
      nothing else that was in the message has changed; the state is one for the next call. */
  method SetForeign(src: Mem, layout: seq<int>, tree: C.Tree, msg: H.Message, s: nat, d: nat, tgt: Ptr,
                    ghost v: View, ghost k: nat, ghost c: nat)
    returns (err: int, ghost v': View, ghost chain: seq<Ptr>, ghost why: Reason)
    requires msg.Valid() && Placed(src, layout)
    requires Good(v, src, []) && SlotFor(v, src, msg.mem, s, d, k, c, Resolve(src, tgt)) && k < First(v)
    requires tree.Valid() && Recorded(v, layout, tree.Recs())
    requires tgt.datasz < TWO19 && tgt.ptrs < TWO16
    requires if tgt.kind == FarPointer then tgt.seg.Some? ==> tgt.seg.value < |src|
             else Nil(tgt) || Target(src, Bare(tgt))
    modifies tree, tree.nodes`parent, tree.nodes`link, tree.nodes`red
    modifies msg, msg.table, SetOf(msg.table.segs), Bodies(msg.table.segs), H.Buffers(msg.table.segs)
    ensures msg.Valid() && old(msg.table.segs) <= msg.table.segs
    ensures forall g :: g in msg.table.segs ==>
      g in old(msg.table.segs) || (fresh(g) && fresh(g.item) && fresh(g.item.data))
    ensures err == 0 || err == -1
    ensures err == 0 ==> v'.a.mem == msg.mem && Good(v', src, []) && Later(v, v') && Kept(v, v', k, c)
    ensures err == 0 ==> tree.Valid() && Recorded(v', layout, tree.Recs())
    ensures err == 0 ==>
      s < |msg.mem| && forall n: nat :: Equal(n, src, Resolve(src, tgt), msg.mem, ReadPtr(msg.mem, s, d))
    ensures err == 0 ==> Clean(src, layout, Resolve(src, tgt))
    ensures err == 0 ==> First(v') <= |v.a.objs| && Shallow(v', src, Resolve(src, tgt), |v.a.objs|)
    ensures err == 0 && First(v) == |v.a.objs| ==> AllShallow(src, Resolve(src, tgt))
    ensures err != 0 ==> Harmless(v, v', msg.mem, k, c)
    ensures Unplaced(tgt) ==> err != 0
    ensures err != 0 && !Unplaced(tgt) ==>
      !Nil(Resolve(src, tgt)) && Blocked(v, src, layout, Resolve(src, tgt), msg.mem, tree.room, chain, why)
  {
    hide H.Message.Valid;
    hide C.Tree.Valid;
    hide Good;
    hide Recorded;
    hide Unstarted;
    hide Placed;
    hide Looping;
    hide Later;
    hide Kept;
    hide FrameOk;
    hide ReadPtr;
    hide Equal;
    hide Target;
    hide SlotFor;
    hide Copied;
    hide Resolve;
    hide WritePtr;
    hide Nil;
    hide Tracking;
    hide Grown;
    hide Harmless;
    hide Stops;
    hide Blocked;
    hide Clean;
    hide Shallow;
    hide AllShallow;
    err, v', chain, why := -1, v, [], TooDeep;
    SlotFacts(v, src, msg.mem, s, d, k, c, Resolve(src, tgt), layout);
    GoodHarmless(v, src, k, c);
    if Unplaced(tgt) {
      return;
    }
    var f := Resolve(src, tgt);
    Resolved(src, tgt);
    SlotInMem(v, src, msg.mem, s, d, k, c, f, []);
    ForeignWrite(msg.mem, s, d, f);
    var e := O.WriteAt(msg, s, d, f, true);
    if e == 0 {
      NilCopied(v, src, layout, tree.Recs(), k, c, f);
      v' := v.(a := SetWord(v.a, k, c, 0, Link(None, Near)));
      NoneNew(v, v', src, f);
    } else {
      e, v', chain, why := CopyFrom(src, layout, tree, msg, s, d, f, v, k, c);
      if e != 0 {
        return;
      }
    }
    AllDone(v, v', src, layout, tree, msg.mem, s, d, k, c, f);
    err := 0;
  }

  /** The bytes of object `q` lie wholly before or wholly after those of `p`. */
  predicate Separate(layout: seq<int>, p: Ptr, q: Ptr)
    requires p.seg.Some? && p.pos.Some? && p.seg.value < |layout|
    requires q.seg.Some? && q.pos.Some? && q.seg.value < |layout|
  {
    Begin(layout, p) + Span(p) <= Begin(layout, q) || Begin(layout, q) + Span(q) <= Begin(layout, p)
  }

  /** Two clones are never made of overlapping source bytes, let alone of one object. */
  lemma ClonedOnce(v: View, src: Mem, todo: seq<Range>, layout: seq<int>, tree: C.Tree, i: nat, j: nat)
    requires Good(v, src, todo) && tree.Valid() && Recorded(v, layout, tree.Recs()) && Placed(src, layout)
    requires First(v) <= i < |v.a.objs| && First(v) <= j < |v.a.objs| && i != j
    ensures Backed(src, Origin(v, i)) && Backed(src, Origin(v, j)) && |layout| == |src|
    ensures Separate(layout, Origin(v, i), Origin(v, j))
  {
    hide Inv;
    hide Cloned;
    hide Bytes;
    assert v.a.objs[i] == v.a.objs[i] && v.a.objs[j] == v.a.objs[j];
    ObjectsDiffer(v, src, todo, i, j);
    assert HasRecord(v, layout, tree.Recs(), i) && HasRecord(v, layout, tree.Recs(), j);
    var a :| a in tree.Recs() && RecordOf(v, layout, a, i);
    var b :| b in tree.Recs() && RecordOf(v, layout, b, j);
    tree.Disjoint(a, b);
  }

  /** A finished copy shows that the source is clean: nothing reachable is an empty list, and no two
      different reachable objects share data. */
  lemma SourceClean(v: View, src: Mem, layout: seq<int>, tree: C.Tree, f: Ptr, k: nat, c: nat)
    requires Good(v, src, []) && tree.Valid() && Recorded(v, layout, tree.Recs()) && Placed(src, layout)
    requires HasCell(v.a, k, c) && Stands(v, f, v.a.cells[k][c]) && (Nil(f) || Target(src, Bare(f)))
    ensures Clean(src, layout, f)
  {
    hide Good;
    hide Walk;
    hide C.Tree.Valid;
    hide Recorded;
    hide Stands;
    hide Target;
    hide Bytes;
    forall g | Reaches(src, f, g) && !Nil(g)
      ensures Present(layout, g)
    {
      var j := CloneOf(v, src, layout, f, k, c, g);
    }
    forall g, h | Reaches(src, f, g) && Reaches(src, f, h) && !Nil(g) && !Nil(h) && Present(layout, g)
      && Present(layout, h)
      ensures PtrEqual(layout, g, h) || DataApart(layout, g, h)
    {
      var i := CloneOf(v, src, layout, f, k, c, g);
      var j := CloneOf(v, src, layout, f, k, c, h);
      if i != j {
        ClonedOnce(v, src, [], layout, tree, i, j);
        DataSeparate(layout, g, Origin(v, i), h, Origin(v, j));
      }
    }
  }

  /** The clone of what a walk reaches, and what it has in common with its origin. */
  lemma CloneOf(v: View, src: Mem, layout: seq<int>, f: Ptr, k: nat, c: nat, g: Ptr) returns (j: nat)
    requires Good(v, src, []) && Placed(src, layout) && Reaches(src, f, g) && !Nil(g)
    requires HasCell(v.a, k, c) && Stands(v, f, v.a.cells[k][c]) && (Nil(f) || Target(src, Bare(f)))
    ensures First(v) <= j < |v.a.objs| && Names(g, Origin(v, j)) && Present(layout, g)
      && Bytes(g) == Bytes(Origin(v, j))
    ensures Origin(v, j).seg.Some? && Origin(v, j).pos.Some? && Origin(v, j).seg.value < |layout|
  {
    hide Inv;
    hide Cloned;
    hide Stands;
    hide Alike;
    hide Shape;
    var chain :| Walk(src, f, chain) && chain[|chain| - 1] == g;
    j := WalkCloned(v, src, f, k, c, chain);
    assert v.a.objs[j] == v.a.objs[j];
    NamesAlike(src, Bare(g), Origin(v, j), v.a.objs[j]);
    BareBytes(g);
  }

  lemma DataSeparate(layout: seq<int>, g: Ptr, o: Ptr, h: Ptr, q: Ptr)
    requires Present(layout, g) && Present(layout, h) && Names(g, o) && Names(h, q) && Bytes(g) == Bytes(o)
      && Bytes(h) == Bytes(q)
    requires o.seg.Some? && o.pos.Some? && o.seg.value < |layout| && q.seg.Some? && q.pos.Some?
      && q.seg.value < |layout|
    requires Separate(layout, o, q)
    ensures DataApart(layout, g, h)
  {
    hide Bytes;
  }

  /** When a finished copy met two different objects that overlap, headers counted, one of them is a second
      name, composite or not, of an object that was cloned under the first. */
  lemma TangledAliases(v: View, src: Mem, layout: seq<int>, tree: C.Tree, f: Ptr, k: nat, c: nat, g: Ptr, h: Ptr)
    returns (i: nat, j: nat)
    requires Good(v, src, []) && tree.Valid() && Recorded(v, layout, tree.Recs()) && Placed(src, layout)
    requires HasCell(v.a, k, c) && Stands(v, f, v.a.cells[k][c]) && (Nil(f) || Target(src, Bare(f)))
    requires Reaches(src, f, g) && Reaches(src, f, h) && !Nil(g) && !Nil(h) && Tangled(layout, g, h)
    ensures First(v) <= i < |v.a.objs| && Names(g, Origin(v, i)) && First(v) <= j < |v.a.objs| && Names(h, Origin(v, j))
    ensures g.composite != Origin(v, i).composite || h.composite != Origin(v, j).composite
  {
    hide Good;
    hide Walk;
    hide C.Tree.Valid;
    hide Recorded;
    hide Stands;
    hide Target;
    hide Bytes;
    i := CloneOf(v, src, layout, f, k, c, g);
    j := CloneOf(v, src, layout, f, k, c, h);
    if i != j {
      ClonedOnce(v, src, [], layout, tree, i, j);
    }
  }

  lemma AllClean(v0: View, v: View, src: Mem, layout: seq<int>, tree: C.Tree, mem: Mem, k: nat, c: nat, f: Ptr)
    requires Looping(v0, v, src, layout, tree.Recs(), mem, k, c, f, [], []) && tree.Valid() && Placed(src, layout)
    requires Nil(f) || Target(src, Bare(f))
    ensures Clean(src, layout, f)
  {
    hide Good;
    hide Recorded;
    hide Target;
    hide C.Tree.Valid;
    hide Clean;
    SourceClean(v, src, layout, tree, f, k, c);
  }

  /** What a finished copy means. */
  lemma AllDone(v0: View, v: View, src: Mem, layout: seq<int>, tree: C.Tree, mem: Mem, s: nat, d: nat, k: nat, c: nat,
                f: Ptr)
    requires Looping(v0, v, src, layout, tree.Recs(), mem, k, c, f, [], []) && tree.Valid() && Placed(src, layout)
    requires (Nil(f) || Target(src, Bare(f))) && SlotFor(v0, src, v0.a.mem, s, d, k, c, f)
    requires First(v) <= |v0.a.objs| && Shallow(v, src, f, |v0.a.objs|)
    ensures v.a.mem == mem && Good(v, src, []) && Later(v0, v) && Kept(v0, v, k, c) && Recorded(v, layout, tree.Recs())
    ensures s < |mem| && forall n: nat :: Equal(n, src, f, mem, ReadPtr(mem, s, d))
    ensures Clean(src, layout, f)
    ensures First(v0) == |v0.a.objs| ==> AllShallow(src, f)
  {
    hide *;
    AllClean(v0, v, src, layout, tree, mem, k, c, f);
    if First(v0) == |v0.a.objs| {
      WholeShallow(v0, v, src, layout, tree, mem, k, c, f);
    }
    AllCopied(v0, v, src, layout, tree.Recs(), mem, s, d, k, c, f);
  }

  lemma OriginsDiffer(v: View, src: Mem, todo: seq<Range>, layout: seq<int>, tree: C.Tree, i: nat, j: nat)
    requires Good(v, src, todo) && tree.Valid() && Recorded(v, layout, tree.Recs()) && Placed(src, layout)
    requires First(v) <= i < |v.a.objs| && First(v) <= j < |v.a.objs| && i != j
    ensures Origin(v, i) != Origin(v, j)
  {
    hide Inv;
    hide Cloned;
    hide Bytes;
    hide Recorded;
    hide C.Tree.Valid;
    ClonedOnce(v, src, todo, layout, tree, i, j);
    assert v.a.objs[i] == v.a.objs[i];
  }

  lemma ObjectsDiffer(v: View, src: Mem, todo: seq<Range>, i: nat, j: nat)
    requires Good(v, src, todo) && i < |v.a.objs| && j < |v.a.objs| && i != j
    ensures v.a.objs[i] != v.a.objs[j]
  {
    hide Cloned;
    InvLaid(v.a);
    BytesPositive(v.a.objs[i]);
    if i < j {
      assert Apart(v.a.objs[i], v.a.objs[j]);
    } else {
      assert Apart(v.a.objs[j], v.a.objs[i]);
    }
  }
}
