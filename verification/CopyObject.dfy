/** `copy_ptr`: one source object cloned into the destination, or the clone that it already has. */
module CopyObject {
  import opened Ints
  import opened SegmentTable
  import opened Options
  import opened Pointers
  import opened ObjectGraph
  import opened CloneGraph
  import C = CopyTree
  import H = MessageHeap
  import O = MessageObjects
  import T = RedBlackTree

  // ----- copying bytes

  /** `memcpy` of the first `bytes` bytes at `from` into fresh words at `to`: data cells of a clone
      get the words of its origin. */
  method CopyBytes(src: Mem, from: Ptr, msg: H.Message, to: Ptr, bytes: nat,
                   ghost v: View, ghost r: Range, ghost todo: seq<Range>) returns (ghost v': View)
    requires msg.Valid() && Good(v, src, todo) && v.a.mem == msg.mem && First(v) <= r.obj < |v.a.objs|
    requires r.hi == r.lo + (bytes + 7) / 8 && forall c: nat :: r.lo <= c < r.hi ==> !IsSlot(v.a.objs[r.obj], c)
    requires var p, o := v.a.objs[r.obj], Origin(v, r.obj);
      && At(to, p, r.lo) && At(from, o, r.lo) && r.hi <= Words(p)
      && (bytes == Bytes(o) - 8 * r.lo || (bytes % 8 == 0 && bytes <= Bytes(o) - 8 * r.lo))
    modifies msg`mem, H.Buffers(msg.table.segs)
    ensures msg.Valid() && v'.a.mem == msg.mem && Good(v', src, todo) && Only(v, v', r) && Later(v, v')
    ensures v'.a.objs == v.a.objs && v'.origin == v.origin && Origins(v', src) && SettledAll(v', src, r)
  {
    hide H.Message.Valid;
    hide H.Holds;
    hide Good;
    hide Bytes;
    hide IsSlot;
    hide LowBytes;
    hide SettledAll;
    hide Only;
    hide Later;
    hide Origins;
    hide WordAt;
    hide Target;
    hide Put;
    hide Laid;
    v' := v;
    BytesStart(v, src, r);
    GoodParts(v', src, todo);
    LaidTarget(v.a, r.obj);
    TargetBasics(v.a.mem, v.a.objs[r.obj]);
    ghost var o := Origin(v, r.obj);
    var g := O.SegmentAt(msg, to.seg.value);
    var i := 0;
    while i < (bytes + 7) / 8
      invariant 0 <= i <= (bytes + 7) / 8 && v'.a.mem == msg.mem && Good(v', src, todo) && msg.Valid()
      invariant v'.a.objs == v.a.objs && v'.origin == v.origin
      invariant Only(v, v', Range(r.obj, r.lo, r.lo + i)) && Later(v, v')
      invariant Origins(v', src) && SettledAll(v', src, Range(r.obj, r.lo, r.lo + i))
    {
      var w := LowBytes(WordAt(src, from.seg.value, from.pos.value + i), bytes - 8 * i);
      WholeWord(WordAt(src, o.seg.value, o.pos.value + r.lo + i), bytes - 8 * i, Bytes(o) - 8 * (r.lo + i));
      v' := CopyWord(src, msg, g, to.seg.value, to.pos.value + i, w, v, v', r.obj, r.lo, r.lo + i, todo);
      i := i + 1;
    }
  }

  /** One more word of a clone. */
  method CopyWord(src: Mem, msg: H.Message, g: Segment, s: nat, d: nat, w: Word, ghost v0: View, ghost v: View,
                  ghost k: nat, ghost lo: nat, ghost c: nat, ghost todo: seq<Range>) returns (ghost v': View)
    requires msg.Valid() && g in msg.table.segs && g.item.id == s && v.a.mem == msg.mem
    requires Good(v, src, todo) && Origins(v, src) && First(v) <= k < |v.a.objs| && lo <= c < Words(v.a.objs[k])
    requires Only(v0, v, Range(k, lo, c)) && Later(v0, v) && SettledAll(v, src, Range(k, lo, c))
    requires !IsSlot(v.a.objs[k], c) && Origin(v, k).seg.Some? && Origin(v, k).pos.Some?
      && w == DataWord(src, Origin(v, k), c)
    requires v.a.objs[k].seg == Some(s) && v.a.objs[k].pos.Some? && d == v.a.objs[k].pos.value + c
    modifies msg`mem, g.item.data
    ensures msg.Valid() && v'.a.mem == msg.mem
    ensures Good(v', src, todo) && Only(v0, v', Range(k, lo, c + 1)) && Later(v0, v') && v'.a.objs == v.a.objs
    ensures v'.origin == v.origin && Origins(v', src) && SettledAll(v', src, Range(k, lo, c + 1))
  {
    hide H.Message.Valid;
    hide H.Holds;
    hide Good;
    hide SettledAll;
    hide Only;
    hide Later;
    hide Origins;
    hide DataWord;
    hide IsSlot;
    v' := BytesStep(v0, v, src, todo, k, lo, c, w);
    O.StoreAt(msg, g, s, d, w);
  }

  /** A pointer at word `lo` of an object. */
  predicate At(to: Ptr, p: Ptr, lo: nat) {
    p.seg.Some? && p.pos.Some? && to.seg == p.seg && to.pos == Some(p.pos.value + lo)
  }

  lemma WholeWord(w: Word, n: int, n': int)
    requires n == n' || (n >= 8 && n' >= 8)
    ensures LowBytes(w, n) == LowBytes(w, n')
  {
  }

  lemma GoodParts(v: View, src: Mem, todo: seq<Range>)
    requires Good(v, src, todo)
    ensures Laid(v.a) && Origins(v, src) && Sized(src) && Sized(v.a.mem)
  {
  }

  lemma GoodCell(v: View, src: Mem, todo: seq<Range>, k: nat, c: nat)
    requires Good(v, src, todo) && k < |v.a.objs| && c < Words(v.a.objs[k])
    ensures HasCell(v.a, k, c) && Backed(v.a.mem, v.a.objs[k])
    ensures InMem(v.a.mem, v.a.objs[k].seg.value, v.a.objs[k].pos.value + c)
  {
    assert HasCell(v.a, k, c);
    CellInMem(v.a, k, c);
  }

  lemma BytesStart(v: View, src: Mem, r: Range)
    ensures Only(v, v, Range(r.obj, r.lo, r.lo)) && Later(v, v)
    ensures Origins(v, src) ==> SettledAll(v, src, Range(r.obj, r.lo, r.lo))
  {
  }

  /** One more data word of a clone. */
  lemma BytesStep(v0: View, v: View, src: Mem, todo: seq<Range>, k: nat, lo: nat, c: nat, w: Word) returns (v': View)
    requires Good(v, src, todo) && Origins(v, src) && First(v) <= k < |v.a.objs| && lo <= c < Words(v.a.objs[k])
    requires Only(v0, v, Range(k, lo, c)) && Later(v0, v) && SettledAll(v, src, Range(k, lo, c))
    requires !IsSlot(v.a.objs[k], c) && Origin(v, k).seg.Some? && Origin(v, k).pos.Some?
      && w == DataWord(src, Origin(v, k), c)
    ensures Good(v', src, todo) && Only(v0, v', Range(k, lo, c + 1)) && Later(v0, v') && v'.a.objs == v.a.objs
    ensures v'.origin == v.origin && Origins(v', src) && SettledAll(v', src, Range(k, lo, c + 1))
    ensures Backed(v.a.mem, v.a.objs[k]) && InMem(v.a.mem, v.a.objs[k].seg.value, v.a.objs[k].pos.value + c)
    ensures v'.a.mem == Put(v.a.mem, v.a.objs[k].seg.value, v.a.objs[k].pos.value + c, w)
  {
    hide Inv;
    hide Cloned;
    hide Target;
    hide Alike;
    hide SlotPtr;
    hide DataWord;
    hide Bytes;
    hide IsSlot;
    GoodCell(v, src, todo, k, c);
    WordCell(v, src, todo, k, c, w, Data(w));
    v' := v.(a := SetWord(v.a, k, c, w, Data(w)));
    forall i: nat | HasCell(v'.a, k, i) && lo <= i < c + 1
      ensures Settled(v', src, k, i)
    {
      if i < c {
        assert HasCell(v.a, k, i) && In(Range(k, lo, c), k, i);
        SettledSame(v, v', src, k, i);
      }
    }
  }

  // ----- the pointer stack

  /** One level of the stack: `to` is where the next pointer or element goes, `from` where it comes from. */
  datatype Frame = Frame(to: Ptr, from: Ptr)

  predicate Slots(p: Ptr, lo: nat, hi: nat) {
    forall c: nat :: lo <= c < hi ==> IsSlot(p, c)
  }

  /** Words of one element of a composite list. */
  function Size(p: Ptr): nat {
    p.datasz / 8 + p.ptrs
  }

  /** A frame stands at the first cell of its range and counts down to its end. */
  ghost predicate FrameOk(v: View, fr: Frame, r: Range) {
    && First(v) <= r.obj < |v.a.objs| && r.lo <= r.hi
    && var p, o := v.a.objs[r.obj], Origin(v, r.obj);
    && r.hi <= Words(p) && At(fr.to, p, r.lo) && At(fr.from, o, r.lo)
    && if fr.to.kind == PtrList then fr.to.len == r.hi - r.lo && Slots(p, r.lo, r.hi) else ElementsOk(p, fr, r)
  }

  /** What is left of a composite list with both data and pointers. */
  predicate ElementsOk(p: Ptr, fr: Frame, r: Range) {
    && fr.to.kind == List && p.kind == List && p.composite && r.hi == Words(p)
    && fr.to.datasz == fr.from.datasz == p.datasz > 0 && p.datasz % 8 == 0 && fr.to.ptrs == fr.from.ptrs == p.ptrs > 0
    && 0 <= fr.to.len <= p.len && r.lo == Times(p.len - fr.to.len, Size(p)) && r.hi - r.lo == Times(fr.to.len, Size(p))
    && fr.from.kind == List && fr.from.len == p.len
  }

  ghost predicate FramesOk(v: View, stack: seq<Frame>, todo: seq<Range>) {
    |stack| == |todo| && forall i :: 0 <= i < |stack| ==> FrameOk(v, stack[i], todo[i])
  }

  lemma FrameLater(v: View, v': View, fr: Frame, r: Range)
    requires FrameOk(v, fr, r) && Later(v, v')
    ensures FrameOk(v', fr, r)
  {
    hide ElementsOk;
    assert Origin(v', r.obj) == Origin(v, r.obj);
  }

  /** The ranges that `fr` may leave behind a copied object. */
  ghost predicate Leaves(v: View, top: Option<Frame>, left: seq<Range>) {
    match top
    case None => left == []
    case Some(fr) => |left| == 1 && FrameOk(v, fr, left[0])
  }

  lemma SlotKinds(p: Ptr)
    requires Shape(p)
    ensures p.kind == Struct ==> Slots(p, p.datasz / 8, Words(p)) && Words(p) == p.datasz / 8 + p.ptrs
    ensures p.kind == Struct ==> forall c: nat :: c < p.datasz / 8 ==> !IsSlot(p, c)
    ensures p.kind == PtrList ==> Slots(p, 0, Words(p)) && Words(p) == p.len
    ensures p.kind == BitList || (p.kind == List && p.ptrs == 0) ==> forall c: nat :: !IsSlot(p, c)
    ensures p.kind == List && p.datasz == 0 && p.ptrs > 0 ==> Slots(p, 0, Words(p)) && Words(p) == Times(p.len, p.ptrs)
    ensures p.kind == List && p.ptrs == 0 ==> Bytes(p) == Times(p.len, p.datasz)
  {
    hide Times;
    if p.kind == List && p.composite {
      Scale(p.len, p.datasz / 8, 0);
    }
  }

  /** A range whose first cells are settled gives way to the rest of it. */
  lemma {:induction false} RangeDone(v: View, src: Mem, todo: seq<Range>, r: Range, rest: seq<Range>)
    requires Good(v, src, todo + [r]) && Origins(v, src)
    requires forall c: nat :: r.lo <= c < r.hi && First(v) <= r.obj < |v.a.objs| && HasCell(v.a, r.obj, c) ==>
               Covered(rest, r.obj, c) || Settled(v, src, r.obj, c)
    ensures Good(v, src, todo + rest)
  {
    hide Inv;
    hide Settled;
    forall k: nat, c: nat | First(v) <= k < |v.a.objs| && HasCell(v.a, k, c) && Covered(todo + [r], k, c)
      ensures Covered(todo + rest, k, c) || Settled(v, src, k, c)
    {
      CoveredMore(todo, r, k, c);
      CoveredJoin(todo, rest, k, c);
    }
    TodoShift(v, src, todo + [r], todo + rest);
  }

  lemma CoveredJoin(a: seq<Range>, b: seq<Range>, k: nat, c: nat)
    ensures Covered(a + b, k, c) <==> Covered(a, k, c) || Covered(b, k, c)
  {
    if Covered(a, k, c) {
      var i :| 0 <= i < |a| && In(a[i], k, c);
      assert In((a + b)[i], k, c);
    }
    if Covered(b, k, c) {
      var i :| 0 <= i < |b| && In(b[i], k, c);
      assert In((a + b)[|a| + i], k, c);
    }
  }

  // ----- copying one object

  /** A pointer `n` words further on. */
  function Forward(p: Ptr, n: nat): Ptr
    requires p.pos.Some?
  {
    p.(pos := Some(p.pos.value + n))
  }

  /** The fresh clone, its origin, and what they have in common. */
  ghost predicate FreshClone(v: View, src: Mem, t: Ptr, f: Ptr, r: Range) {
    && |v.origin| > 0 && First(v) >= 0 && Words(t) >= 0 && r == Range(|v.a.objs| - 1, 0, Words(t))
    && v.a.objs[r.obj] == t && Origin(v, r.obj) == Bare(f)
    && Shape(t) && Shape(Bare(f)) && Alike(Bare(f), t) && t.seg.Some? && t.pos.Some? && f.seg.Some? && f.pos.Some?
    && Bytes(Bare(f)) == Bytes(t) && Bytes(t) > 0
  }

  lemma FreshFacts(v: View, src: Mem, todo: seq<Range>, t: Ptr, f: Ptr, r: Range)
    requires Good(v, src, todo) && |v.origin| > 0 && r == Range(|v.a.objs| - 1, 0, |v.a.cells[|v.a.objs| - 1]|)
    requires v.a.objs[r.obj] == t && Origin(v, r.obj) == Bare(f)
    ensures FreshClone(v, src, t, f, r)
  {
    hide Inv;
    InvLaid(v.a);
    assert v.a.objs[r.obj] == t;
    LaidTarget(v.a, r.obj);
    AlikeSlots(Bare(f), t);
    LaidWords(v.a, r.obj);
  }

  /** Data cells at the start of a fresh clone are copied and leave its range. */
  method FillBytes(src: Mem, msg: H.Message, t: Ptr, f: Ptr, bytes: nat, ghost v: View, ghost todo: seq<Range>,
                   ghost r: Range)
    returns (ghost v': View)
    requires msg.Valid() && Good(v, src, todo + [r]) && FreshClone(v, src, t, f, r) && v.a.mem == msg.mem
    requires (bytes + 7) / 8 <= r.hi && (bytes == Bytes(t) || (bytes % 8 == 0 && bytes <= Bytes(t)))
    requires forall c: nat :: c < (bytes + 7) / 8 ==> !IsSlot(t, c)
    modifies msg`mem, H.Buffers(msg.table.segs)
    ensures msg.Valid() && v'.a.mem == msg.mem
    ensures Only(v, v', r) && Later(v, v') && v'.a.objs == v.a.objs && v'.origin == v.origin
    ensures Good(v', src, todo + [Range(r.obj, (bytes + 7) / 8, r.hi)])
  {
    hide H.Message.Valid;
    hide Good;
    hide Alike;
    hide Bytes;
    hide IsSlot;
    hide Shape;
    hide Origins;
    hide Settled;
    ghost var done := Range(r.obj, 0, (bytes + 7) / 8);
    v' := CopyBytes(src, f, msg, t, bytes, v, done, todo + [r]);
    GoodParts(v', src, todo + [r]);
    ghost var rest := Range(r.obj, (bytes + 7) / 8, r.hi);
    forall c: nat | r.lo <= c < r.hi && First(v') <= r.obj < |v'.a.objs| && HasCell(v'.a, r.obj, c)
      ensures Covered([rest], r.obj, c) || Settled(v', src, r.obj, c)
    {
      if c < done.hi {
        assert In(done, r.obj, c);
      } else {
        assert In([rest][0], r.obj, c);
      }
    }
    RangeDone(v', src, todo, r, [rest]);
  }

  /** An empty range is no range. */
  lemma NothingLeft(v: View, src: Mem, todo: seq<Range>, r: Range)
    requires Good(v, src, todo + [r]) && r.lo >= r.hi
    ensures Good(v, src, todo + [])
  {
    GoodParts(v, src, todo + [r]);
    RangeDone(v, src, todo, r, []);
  }

  /** What the type switch leaves behind. */
  ghost predicate Filled(v: View, v': View, src: Mem, mem: Mem, todo: seq<Range>, r: Range, top: Option<Frame>,
                         left: seq<Range>) {
    && v'.a.mem == mem && Only(v, v', r) && Later(v, v') && v'.a.objs == v.a.objs && v'.origin == v.origin
    && Good(v', src, todo + left) && Leaves(v', top, left) && (left == [] || left[0].obj == r.obj)
  }

  /** The levels of the stack that an object takes: a list of structs with data and pointers takes one for
      the list and one for an element. */
  function Levels(p: Ptr): nat {
    if p.kind == List && p.datasz > 0 && p.ptrs > 0 then 2 else 1
  }

  /** The level of the stack that a new clone of `f` brings: a struct with pointers always brings one. */
  predicate Opens(f: Ptr, top: Option<Frame>) {
    && (f.kind == Struct && f.ptrs > 0 ==> top.Some?)
    && (top.Some? ==> (top.value.to.kind == List <==> Levels(f) == 2))
  }

  method FillStruct(src: Mem, msg: H.Message, t: Ptr, f: Ptr, ghost v: View, ghost todo: seq<Range>, ghost r: Range)
    returns (top: Option<Frame>, ghost v': View, ghost left: seq<Range>)
    requires msg.Valid() && Good(v, src, todo + [r]) && FreshClone(v, src, t, f, r) && v.a.mem == msg.mem
      && t.kind == Struct
    modifies msg`mem, H.Buffers(msg.table.segs)
    ensures msg.Valid() && Filled(v, v', src, msg.mem, todo, r, top, left) && Opens(f, top)
  {
    hide H.Message.Valid;
    hide Good;
    hide Bytes;
    hide IsSlot;
    hide Shape;
    hide Slots;
    hide Alike;
    hide Only;
    hide Later;
    hide FrameOk;
    SlotKinds(t);
    FreshWords(v, src, t, f, r);
    Unmoved(v, r);
    top, v', left := None, v, [];
    if t.datasz > 0 {
      v' := FillBytes(src, msg, t, f, t.datasz, v, todo, r);
    }
    if t.ptrs > 0 {
      var n := t.datasz / 8;
      top := Some(Frame(Forward(t, n).(kind := PtrList, len := t.ptrs), Forward(f, n)));
      left := [Range(r.obj, n, r.hi)];
      StructFrame(v, v', src, t, f, r);
    } else {
      NothingLeft(v', src, todo, Range(r.obj, t.datasz / 8, r.hi));
    }
  }

  lemma StructFrame(v: View, v': View, src: Mem, t: Ptr, f: Ptr, r: Range)
    requires FreshClone(v, src, t, f, r) && t.kind == Struct && v'.a.objs == v.a.objs && v'.origin == v.origin
    ensures var n := t.datasz / 8;
      && n <= r.hi
      && FrameOk(v', Frame(Forward(t, n).(kind := PtrList, len := t.ptrs), Forward(f, n)), Range(r.obj, n, r.hi))
  {
    SlotKinds(t);
  }

  method FillList(src: Mem, msg: H.Message, t: Ptr, f: Ptr, ghost v: View, ghost todo: seq<Range>, ghost r: Range)
    returns (err: int, top: Option<Frame>, ghost v': View, ghost left: seq<Range>)
    requires msg.Valid() && Good(v, src, todo + [r]) && FreshClone(v, src, t, f, r) && v.a.mem == msg.mem
      && t.kind == List
    modifies msg`mem, H.Buffers(msg.table.segs)
    ensures msg.Valid() && err == 0 && Filled(v, v', src, msg.mem, todo, r, top, left) && Opens(f, top)
  {
    hide H.Message.Valid;
    hide Good;
    hide Bytes;
    hide IsSlot;
    hide Shape;
    hide Slots;
    hide Times;
    hide Alike;
    hide Only;
    hide Later;
    SlotKinds(t);
    FreshWords(v, src, t, f, r);
    FreshFits(v, src, todo + [r], t, f, r);
    Unmoved(v, r);
    err, top, v', left := 0, None, v, [];
    if t.len == 0 {
      NothingLeft(v', src, todo, r);
    } else if t.ptrs > 0 && t.datasz > 0 {
      top, left := Some(Frame(t, f)), [r];
    } else if t.datasz > 0 {
      if Times(t.len, t.datasz) > INT_MAX {
        err := -1;
      } else {
        v' := FillBytes(src, msg, t, f, Times(t.len, t.datasz), v, todo, r);
        NothingLeft(v', src, todo, Range(r.obj, r.hi, r.hi));
      }
    } else if t.ptrs > 0 {
      if Times(t.len, t.ptrs) > INT_MAX {
        err := -1;
      } else {
        top := Some(Frame(t.(kind := PtrList, len := Times(t.len, t.ptrs)), f));
        left := [r];
      }
    }
  }

  /** The type switch of `copy_ptr`: data is copied at once, pointers become a level of the stack. */
  method Fill(src: Mem, msg: H.Message, t: Ptr, f: Ptr, ghost v: View, ghost todo: seq<Range>, ghost r: Range)
    returns (err: int, top: Option<Frame>, ghost v': View, ghost left: seq<Range>)
    requires msg.Valid() && Good(v, src, todo + [r]) && FreshClone(v, src, t, f, r) && v.a.mem == msg.mem
    modifies msg`mem, H.Buffers(msg.table.segs)
    ensures msg.Valid() && err == 0 && Filled(v, v', src, msg.mem, todo, r, top, left) && Opens(f, top)
  {
    hide H.Message.Valid;
    hide Good;
    hide Bytes;
    hide IsSlot;
    hide Shape;
    hide Slots;
    hide Alike;
    hide Only;
    hide Later;
    SlotKinds(t);
    FreshWords(v, src, t, f, r);
    Unmoved(v, r);
    err, top, v', left := 0, None, v, [];
    match t.kind
    case Struct =>
      top, v', left := FillStruct(src, msg, t, f, v, todo, r);
    case BitList =>
      v' := FillBytes(src, msg, t, f, t.datasz, v, todo, r);
      NothingLeft(v', src, todo, Range(r.obj, r.hi, r.hi));
    case List =>
      err, top, v', left := FillList(src, msg, t, f, v, todo, r);
    case PtrList =>
      if t.len > 0 {
        top, left := Some(Frame(t, f)), [r];
      } else {
        NothingLeft(v', src, todo, r);
        }
    case _ =>
      err := -1;
  }

  /** Every size of a clone fits an `int`: its origin lies in one segment. */
  lemma FreshFits(v: View, src: Mem, todo: seq<Range>, t: Ptr, f: Ptr, r: Range)
    requires Good(v, src, todo) && FreshClone(v, src, t, f, r)
    ensures Bytes(t) <= INT_MAX && Words(t) <= INT_MAX
  {
    hide Inv;
    hide Shape;
    hide Alike;
    hide Bytes;
    assert v.a.objs[r.obj] == t;
    TargetFits(src, Origin(v, r.obj));
  }

  lemma TargetFits(m: Mem, p: Ptr)
    requires Sized(m) && Target(m, p)
    ensures 0 <= Bytes(p) <= Span(p) <= INT_MAX - 7 && 8 * Words(p) <= INT_MAX - 7
    ensures p.composite ==> 1 <= p.pos.value <= m[p.seg.value].cap
  {
    BytesPositive(p);
    hide Bytes;
    hide Shape;
  }

  lemma Unmoved(v: View, r: Range)
    ensures Only(v, v, r) && Later(v, v)
  {
  }

  lemma FreshWords(v: View, src: Mem, t: Ptr, f: Ptr, r: Range)
    requires FreshClone(v, src, t, f, r)
    ensures r.hi == Words(t) == (Bytes(t) + 7) / 8 > 0 && t.kind in {Struct, List, PtrList, BitList}
    ensures t.kind == Struct ==> t.datasz % 8 == 0 && t.datasz <= Bytes(t)
    ensures t.kind == BitList ==> t.datasz == Bytes(t)
    ensures t.kind == List ==> t.ptrs > 0 || t.datasz > 0
    ensures t.kind == List && t.ptrs > 0 ==>
      t.composite && f.composite && t.datasz % 8 == 0 && Words(t) == Times(t.len, Size(t))
    ensures t.kind == List && t.len == 0 ==> Words(t) == 0
    ensures t.kind == f.kind && t.len == f.len && t.datasz == f.datasz && t.ptrs == f.ptrs
    ensures Times(0, Size(t)) == 0 && t.len >= 0 && (t.kind == PtrList ==> t.len == Words(t))
  {
    hide Times;
    TimesZero(t.len, t.datasz);
    TimesZero(t.len, Size(t));
  }

  lemma TimesZero(n: int, m: int)
    ensures Times(0, m) == 0 && Times(n, 0) == 0
  {
  }

  // ----- what has been copied already

  ghost predicate RecordOf(v: View, layout: seq<int>, rec: C.Copy, k: nat)
    requires First(v) <= k < |v.a.objs|
  {
    var o := Origin(v, k);
    && Bare(rec.from) == o && rec.to == v.a.objs[k] && o.seg.Some? && o.pos.Some? && o.seg.value < |layout|
    && rec.fbegin == Begin(layout, o) && rec.fend == rec.fbegin + Span(o) && Span(o) > 0
  }

  ghost predicate HasRecord(v: View, layout: seq<int>, recs: set<C.Copy>, k: nat)
    requires First(v) <= k < |v.a.objs|
  {
    exists rec :: rec in recs && RecordOf(v, layout, rec, k)
  }

  /** The records are exactly the clones, each with the bytes of its origin. */
  ghost predicate Recorded(v: View, layout: seq<int>, recs: set<C.Copy>) {
    && First(v) >= 0
    && (forall rec :: rec in recs ==> exists k: nat :: First(v) <= k < |v.a.objs| && RecordOf(v, layout, rec, k))
    && (forall k: nat :: First(v) <= k < |v.a.objs| ==> HasRecord(v, layout, recs, k))
  }

  lemma RecordedSame(v: View, v': View, layout: seq<int>, recs: set<C.Copy>)
    requires Recorded(v, layout, recs) && v'.a.objs == v.a.objs && v'.origin == v.origin
    ensures Recorded(v', layout, recs)
  {
    forall rec | rec in recs
      ensures exists k: nat :: First(v') <= k < |v'.a.objs| && RecordOf(v', layout, rec, k)
    {
      var k: nat :| First(v) <= k < |v.a.objs| && RecordOf(v, layout, rec, k);
      assert RecordOf(v', layout, rec, k);
    }
    forall k: nat | First(v') <= k < |v'.a.objs|
      ensures HasRecord(v', layout, recs, k)
    {
      assert HasRecord(v, layout, recs, k);
      var rec :| rec in recs && RecordOf(v, layout, rec, k);
      assert RecordOf(v', layout, rec, k);
    }
  }

  lemma RecordedMore(v: View, v': View, layout: seq<int>, recs: set<C.Copy>, rec: C.Copy)
    requires Recorded(v, layout, recs) && Later(v, v') && |v'.a.objs| == |v.a.objs| + 1 && |v'.origin| == |v.origin| + 1
    requires RecordOf(v', layout, rec, |v.a.objs|)
    ensures Recorded(v', layout, recs + {rec})
  {
    hide Bytes;
    forall r | r in recs + {rec}
      ensures exists k: nat :: First(v') <= k < |v'.a.objs| && RecordOf(v', layout, r, k)
    {
      if r in recs {
        var k: nat :| First(v) <= k < |v.a.objs| && RecordOf(v, layout, r, k);
        assert RecordOf(v', layout, r, k);
      }
    }
    forall k: nat | First(v') <= k < |v'.a.objs|
      ensures HasRecord(v', layout, recs + {rec}, k)
    {
      if k < |v.a.objs| {
        assert HasRecord(v, layout, recs, k);
        var r :| r in recs && RecordOf(v, layout, r, k);
        assert RecordOf(v', layout, r, k) && r in recs + {rec};
      } else {
        assert rec in recs + {rec};
      }
    }
  }

  predicate NotBegun(recs: set<C.Copy>, at: int) {
    forall rec :: rec in recs ==> rec.fbegin != at
  }

  /** The source words that no record starts at: every new clone takes one away. */
  function Unstarted(src: Mem, layout: seq<int>, recs: set<C.Copy>): set<(nat, nat)>
    requires |layout| == |src|
  {
    set i: nat, k: nat | i < |src| && k < |src[i].words| && NotBegun(recs, layout[i] + 8 * k) :: (i, k)
  }

  lemma OneLess(src: Mem, layout: seq<int>, v: View, recs: set<C.Copy>, f: Ptr, rec: C.Copy)
    requires Placed(src, layout) && Recorded(v, layout, recs) && Target(src, f) && Span(f) > 0
      && rec.fbegin == Begin(layout, f)
    requires forall c :: c in recs ==> !C.Overlap(c, Begin(layout, f), Begin(layout, f) + Span(f))
    ensures Unstarted(src, layout, recs + {rec}) < Unstarted(src, layout, recs)
  {
    hide Shape;
    var a, b := Unstarted(src, layout, recs + {rec}), Unstarted(src, layout, recs);
    BytesPositive(f);
    hide Bytes;
    var at := (f.seg.value, Start(f));
    assert InMem(src, at.0, at.1);
    assert NotBegun(recs, Begin(layout, f)) by {
      forall c | c in recs
        ensures c.fbegin != Begin(layout, f)
      {
        var k: nat :| First(v) <= k < |v.a.objs| && RecordOf(v, layout, c, k);
      }
    }
    assert at in b;
    assert rec in recs + {rec};
    assert at !in a;
    forall p | p in a
      ensures p in b
    {
      assert NotBegun(recs, layout[p.0] + 8 * p.1) by {
        forall c | c in recs
          ensures c.fbegin != layout[p.0] + 8 * p.1
        {
          assert c in recs + {rec};
        }
      }
    }
  }

  // ----- why a copy stops

  /** A limit on nesting, an empty list, an overlap with another object, `n` words that no segment has
      room for, or no room for a record. */
  datatype Reason = TooDeep | EmptyList | Clash(other: Ptr) | NoSpace(n: nat) | NoRecord

  /** Two source objects that share a byte and are not the same object. */
  predicate Tangled(layout: seq<int>, f: Ptr, g: Ptr) {
    && f.seg.Some? && f.pos.Some? && f.seg.value < |layout| && g.seg.Some? && g.pos.Some? && g.seg.value < |layout|
    && Begin(layout, f) < Begin(layout, g) + Span(g) && Begin(layout, g) < Begin(layout, f) + Span(f)
    && !PtrEqual(layout, f, g)
  }

  /** `g` has been cloned. */
  ghost predicate HasClone(v: View, g: Ptr) {
    exists k: nat :: First(v) <= k < |v.a.objs| && Origin(v, k) == g
  }

  /** What keeps `copy_ptr` from cloning `f`. */
  ghost predicate Stops(v: View, layout: seq<int>, mem: Mem, f: Ptr, why: Reason) {
    match why
    case TooDeep => false
    case EmptyList => !Nil(f) && Bytes(f) == 0
    case Clash(g) => HasClone(v, g) && Tangled(layout, f, g)
    case NoSpace(n) => n <= Words(f) + 2 && NewData(mem, n).NoRoom?
    case NoRecord => true
  }

  /** After a failure the message is still well formed, and only the slot and new objects differ. */
  ghost predicate Harmless(v: View, v': View, mem: Mem, k: nat, c: nat) {
    Inv(v'.a) && v'.a.mem == mem && v.a.objs <= v'.a.objs && Kept(v, v', k, c)
  }

  // ----- clones

  /** `new_clone`. */
  function NewClone(m: Mem, s: nat, f: Ptr): Made
    requires s < |m|
  {
    match f.kind
    case Struct => NewStruct(m, s, f.datasz, f.ptrs)
    case PtrList => NewPtrList(m, s, f.len)
    case BitList => NewBitList(m, s, f.len)
    case List => NewList(m, s, f.len, f.datasz, f.ptrs)
    case _ => Made(m, f)
  }

  method MakeClone(msg: H.Message, s: nat, f: Ptr) returns (t: Ptr)
    requires msg.Valid() && s < |msg.mem|
    modifies msg, msg.table, SetOf(msg.table.segs), Bodies(msg.table.segs), H.Buffers(msg.table.segs)
    ensures msg.Valid() && old(msg.table.segs) <= msg.table.segs
    ensures forall g :: g in msg.table.segs ==>
      g in old(msg.table.segs) || (fresh(g) && fresh(g.item) && fresh(g.item.data))
    ensures Made(msg.mem, t) == NewClone(old(msg.mem), s, f)
  {
    hide H.Message.Valid;
    hide NewStruct;
    hide NewList;
    hide NewPtrList;
    hide NewBitList;
    match f.kind
    case Struct => t := O.NewStruct(msg, s, f.datasz, f.ptrs);
    case PtrList => t := O.NewPtrList(msg, s, f.len);
    case BitList => t := O.NewBitList(msg, s, f.len);
    case List => t := O.NewList(msg, s, f.len, f.datasz, f.ptrs);
    case _ => t := f;
  }

  /** `new_clone` and the write of the slot. */
  method LinkClone(msg: H.Message, s: nat, d: nat, f: Ptr) returns (err: int, t: Ptr)
    requires msg.Valid() && s < |msg.mem|
    requires var r := NewClone(msg.mem, s, f);
      && r.ptr.datasz < TWO19 && r.ptr.ptrs < TWO16 && (r.ptr.seg.Some? ==> r.ptr.seg.value < |r.mem|)
      && Sized(r.mem) && InMem(r.mem, s, d)
    modifies msg, msg.table, SetOf(msg.table.segs), Bodies(msg.table.segs), H.Buffers(msg.table.segs)
    ensures msg.Valid() && old(msg.table.segs) <= msg.table.segs
    ensures forall g :: g in msg.table.segs ==>
      g in old(msg.table.segs) || (fresh(g) && fresh(g.item) && fresh(g.item.data))
    ensures t == NewClone(old(msg.mem), s, f).ptr
    ensures match WritePtr(NewClone(old(msg.mem), s, f).mem, s, d, t, false)
            case Wrote(m) => err == 0 && msg.mem == m
            case _ => err != 0 && msg.mem == NewClone(old(msg.mem), s, f).mem
  {
    hide H.Message.Valid;
    hide NewClone;
    hide WritePtr;
    t := MakeClone(msg, s, f);
    err := O.WriteAt(msg, s, d, t, false);
  }

  lemma CloneFresh(m: Mem, s: nat, f: Ptr)
    requires Sized(m) && s < |m| && f.kind in {Struct, List, PtrList, BitList}
    ensures FreshTarget(m, NewClone(m, s, f))
  {
    match f.kind
    case Struct => StructMade(m, s, f.datasz, f.ptrs);
    case PtrList => PtrListMade(m, s, f.len);
    case BitList => BitListMade(m, s, f.len);
    case List => ListMade(m, s, f.len, f.datasz, f.ptrs);
  }

  /** The type and sizes of what `new_object` returns. */
  lemma ObjectShape(m: Mem, p: Ptr, bytes: int)
    requires p.datasz < TWO19 && p.ptrs < TWO16 && p.seg.Some? && p.seg.value < |m| && p.pos.None?
    ensures var r := NewObject(m, p, bytes);
      && r.ptr.datasz < TWO19 && r.ptr.ptrs < TWO16 && (r.ptr.seg.Some? ==> r.ptr.seg.value < |r.mem|)
      && (r.ptr == NULL || r.ptr == p.(seg := r.ptr.seg, pos := r.ptr.pos, hasTag := r.ptr.hasTag))
      && (r.ptr.pos.None? ==> r.mem == m && (r.ptr == NULL || (r.ptr == p && bytes == 0)))
        && (bytes == 0 ==> r.ptr == p)
      && (r.ptr.pos.Some? ==> bytes > 0)
  {
    hide TagWord;
    hide CreateCap;
  }

  /** A clone has the type and sizes of its origin, or there is none: a null pointer, or one without data. */
  lemma CloneShape(m: Mem, s: nat, f: Ptr)
    requires s < |m| && Shape(f)
    ensures var r := NewClone(m, s, f);
      && r.ptr.datasz < TWO19 && r.ptr.ptrs < TWO16 && (r.ptr.seg.Some? ==> r.ptr.seg.value < |r.mem|)
      && !r.ptr.member
      && (r.ptr.pos.Some? ==> Alike(f, r.ptr) && Shape(r.ptr) && Solid(r.ptr) && Bytes(f) > 0)
      && (r.ptr.pos.None? ==> r.ptr.kind == Null || (r.ptr.seg == Some(s) && !Nil(r.ptr)))
      && (Span(f) == 0 ==> r.ptr.pos.None? && r.ptr.kind != Null)
      && (r.ptr.pos.None? ==> r.mem == m)
  {
    hide NewObject;
    hide Times;
    var r := NewClone(m, s, f);
    match f.kind
    case Struct =>
      ObjectShape(m, Ptr(Struct, false, false, false, Align(f.datasz) % TWO19, f.ptrs % TWO16, 0, Some(s), None),
                  Align(f.datasz) + 8 * f.ptrs);
    case PtrList =>
      ObjectShape(m, Ptr(PtrList, false, false, false, 0, 0, f.len, Some(s), None), 8 * f.len);
    case BitList =>
      ObjectShape(m, Ptr(BitList, false, false, false, (f.len + 7) / 8 % TWO19, 0, f.len, Some(s), None),
                  (f.len + 7) / 8 % TWO19);
    case List => ListCloneShape(m, s, f);
  }

  lemma ListCloneShape(m: Mem, s: nat, f: Ptr)
    requires s < |m| && Shape(f) && f.kind == List
    ensures var r := NewList(m, s, f.len, f.datasz, f.ptrs);
      && r.ptr.datasz < TWO19 && r.ptr.ptrs < TWO16 && (r.ptr.seg.Some? ==> r.ptr.seg.value < |r.mem|)
      && !r.ptr.member
      && (r.ptr.pos.Some? ==> Alike(f, r.ptr) && Shape(r.ptr) && Solid(r.ptr) && Bytes(f) > 0)
      && (r.ptr.pos.None? ==> r.ptr.kind == Null || (r.ptr.seg == Some(s) && !Nil(r.ptr)))
      && (Span(f) == 0 ==> r.ptr.pos.None? && r.ptr.kind != Null)
      && (r.ptr.pos.None? ==> r.mem == m)
  {
    if f.ptrs != 0 || f.datasz > 8 {
      CompositeCloneShape(m, s, f);
    } else {
      FlatCloneShape(m, s, f);
    }
  }

  lemma CompositeCloneShape(m: Mem, s: nat, f: Ptr)
    requires s < |m| && Shape(f) && f.kind == List && (f.ptrs != 0 || f.datasz > 8)
    ensures var r := NewList(m, s, f.len, f.datasz, f.ptrs);
      && r.ptr.datasz < TWO19 && r.ptr.ptrs < TWO16 && (r.ptr.seg.Some? ==> r.ptr.seg.value < |r.mem|)
      && !r.ptr.member
      && (r.ptr.pos.Some? ==> Alike(f, r.ptr) && Shape(r.ptr) && Solid(r.ptr) && Bytes(f) > 0)
      && (r.ptr.pos.None? ==> r.ptr.kind == Null || (r.ptr.seg == Some(s) && !Nil(r.ptr)))
      && (Span(f) == 0 ==> r.ptr.pos.None? && r.ptr.kind != Null)
      && (r.ptr.pos.None? ==> r.mem == m)
  {
    hide NewObject;
    hide Times;
    var p := Ptr(List, false, false, false, 0, 0, f.len, Some(s), None);
    TimesPositive(f.len, f.datasz, f.ptrs);
    var q := p.(composite := true, datasz := Align(f.datasz) % TWO19, ptrs := f.ptrs % TWO16);
    ObjectShape(m, q, Times(f.len, q.datasz + 8 * q.ptrs) + 8);
  }

  lemma FlatCloneShape(m: Mem, s: nat, f: Ptr)
    requires s < |m| && Shape(f) && f.kind == List && f.ptrs == 0 && f.datasz <= 8
    ensures var r := NewList(m, s, f.len, f.datasz, f.ptrs);
      && r.ptr.datasz < TWO19 && r.ptr.ptrs < TWO16 && (r.ptr.seg.Some? ==> r.ptr.seg.value < |r.mem|)
      && !r.ptr.member
      && (r.ptr.pos.Some? ==> Alike(f, r.ptr) && Shape(r.ptr) && Solid(r.ptr) && Bytes(f) > 0)
      && (r.ptr.pos.None? ==> r.ptr.kind == Null || (r.ptr.seg == Some(s) && !Nil(r.ptr)))
      && (Span(f) == 0 ==> r.ptr.pos.None? && r.ptr.kind != Null)
      && (r.ptr.pos.None? ==> r.mem == m)
  {
    hide NewObject;
    hide Times;
    var p := Ptr(List, false, false, false, 0, 0, f.len, Some(s), None);
    TimesPositive(f.len, f.datasz, f.ptrs);
    TimesZero(f.len, f.datasz);
    ScaleOne(f.len);
    UnitTimes(f.len);
    ObjectShape(m, p.(datasz := f.datasz), Times(f.len, f.datasz));
  }

  lemma TimesPositive(n: int, d: nat, p: nat)
    ensures n > 0 && d > 0 ==> Times(n, d) > 0
    ensures n > 0 && d % 8 == 0 && (d > 0 || p > 0) ==> Times(n, d / 8 + p) > 0
  {
    if n > 0 && d % 8 == 0 && (d > 0 || p > 0) {
      assert d / 8 + p > 0;
    }
  }

  /** Nothing but one cell of the older objects has changed. */
  ghost predicate Kept(v: View, v': View, k: nat, c: nat) {
    forall i: nat, j: nat :: HasCell(v.a, i, j) && (i, j) != (k, c) ==>
      HasCell(v'.a, i, j) && v'.a.cells[i][j] == v.a.cells[i][j]
  }

  /** What a call on one slot leaves behind. */
  ghost predicate Copied(v: View, v': View, src: Mem, mem: Mem, todo: seq<Range>, k: nat, c: nat, f: Ptr,
                         top: Option<Frame>, left: seq<Range>)
  {
    && v'.a.mem == mem && Good(v', src, todo + left) && Leaves(v', top, left) && Later(v, v') && Kept(v, v', k, c)
    && HasCell(v'.a, k, c) && Stands(v', f, v'.a.cells[k][c])
  }

  /** The slot of a clone, or any slot when the clones have just begun. */
  ghost predicate SlotFor(v: View, src: Mem, mem: Mem, s: nat, d: nat, k: nat, c: nat, f: Ptr) {
    && v.a.mem == mem && HasCell(v.a, k, c) && k < |v.a.objs| && IsSlot(v.a.objs[k], c)
    && v.a.objs[k].seg == Some(s) && v.a.objs[k].pos.Some? && v.a.objs[k].pos.value + c == d
    && (First(v) <= k ==> Backed(src, Origin(v, k)) && f == SlotPtr(src, Origin(v, k), c))
  }

  /** An object without bytes: an empty struct becomes null, an empty list is refused. */
  method CopyEmpty(src: Mem, msg: H.Message, s: nat, d: nat, f: Ptr, ghost v: View, ghost k: nat, ghost c: nat,
                   ghost todo: seq<Range>)
    returns (err: int, ghost v': View)
    requires msg.Valid() && Good(v, src, todo) && SlotFor(v, src, msg.mem, s, d, k, c, f)
    requires (Nil(f) && f.kind == Struct) || (Target(src, Bare(f)) && Span(f) == 0)
    modifies msg, msg.table, SetOf(msg.table.segs), Bodies(msg.table.segs), H.Buffers(msg.table.segs)
    ensures msg.Valid() && old(msg.table.segs) <= msg.table.segs
    ensures forall g :: g in msg.table.segs ==>
      g in old(msg.table.segs) || (fresh(g) && fresh(g.item) && fresh(g.item.data))
    ensures err == 0 ==>
      Copied(v, v', src, msg.mem, todo, k, c, f, None, []) && v'.a.objs == v.a.objs && v'.origin == v.origin
    ensures err != 0 ==> Harmless(v, v', msg.mem, k, c) && !Nil(f) && Bytes(f) == 0
  {
    hide H.Message.Valid;
    hide H.Holds;
    hide NewClone;
    hide Inv;
    hide Target;
    GoodParts(v, src, todo);
    CellInMem(v.a, k, c);
    EmptyClone(src, msg.mem, s, f);
    BareBytes(f);
    if !Nil(f) {
      TargetFits(src, Bare(f));
    }
    v' := v;
    var t;
    err, t := LinkClone(msg, s, d, f);
    if err == 0 {
      WordCell(v, src, todo, k, c, 0, Link(None, Near));
      v' := v.(a := SetWord(v.a, k, c, 0, Link(None, Near)));
      assert todo + [] == todo;
    }
  }

  lemma EmptyClone(src: Mem, m: Mem, s: nat, f: Ptr)
    requires Sized(m) && s < |m| && ((Nil(f) && f.kind == Struct) || (Target(src, Bare(f)) && Span(f) == 0))
    ensures var r := NewClone(m, s, f);
      && r.mem == m
      && r.ptr.datasz < TWO19 && r.ptr.ptrs < TWO16 && (r.ptr.seg.Some? ==> r.ptr.seg.value < |r.mem|)
      && (Nil(f) ==> r.ptr == Ptr(Struct, false, false, false, 0, 0, 0, Some(s), None))
      && (!Nil(f) ==> forall d: nat :: d < |m[s].words| ==> WritePtr(r.mem, s, d, r.ptr, false).Refused?)
  {
    hide Target;
    hide NewClone;
    hide Times;
    hide Shape;
    if Nil(f) && f.kind == Struct {
      NilClone(m, s, f);
    } else {
      TargetShape(src, f);
      CloneFresh(m, s, f);
      CloneShape(m, s, Bare(f));
      CloneOfBare(m, s, f);
    }
  }

  lemma NilClone(m: Mem, s: nat, f: Ptr)
    requires s < |m| && Nil(f) && f.kind == Struct
    ensures NewClone(m, s, f) == Made(m, Ptr(Struct, false, false, false, 0, 0, 0, Some(s), None))
  {
  }

  /** The slot is linked to a clone that was made earlier. */
  method Reuse(src: Mem, layout: seq<int>, msg: H.Message, s: nat, d: nat, f: Ptr, rec: C.Copy,
               ghost v: View, ghost k: nat, ghost c: nat, ghost todo: seq<Range>, ghost recs: set<C.Copy>)
    returns (err: int, ghost v': View, ghost why: Reason)
    requires msg.Valid() && Placed(src, layout) && Good(v, src, todo) && SlotFor(v, src, msg.mem, s, d, k, c, f)
    requires Recorded(v, layout, recs) && rec in recs && Target(src, Bare(f)) && Span(f) > 0
    requires C.Overlap(rec, Begin(layout, f), Begin(layout, f) + Span(f))
    modifies msg, msg.table, SetOf(msg.table.segs), Bodies(msg.table.segs), H.Buffers(msg.table.segs)
    ensures msg.Valid() && old(msg.table.segs) <= msg.table.segs
    ensures forall g :: g in msg.table.segs ==>
      g in old(msg.table.segs) || (fresh(g) && fresh(g.item) && fresh(g.item.data))
    ensures err == 0 ==>
      Copied(v, v', src, msg.mem, todo, k, c, f, None, []) && v'.a.objs == v.a.objs && v'.origin == v.origin
    ensures err != 0 ==> Harmless(v, v', msg.mem, k, c) && Stops(v, layout, msg.mem, f, why) && why != NoRecord
  {
    hide Span;
    hide Begin;
    hide Stops;
    hide Harmless;
    hide Recorded;
    hide Good;
    hide Laid;
    hide H.Message.Valid;
    hide H.Holds;
    hide Inv;
    hide Cloned;
    hide Target;
    hide Bytes;
    hide Shape;
    hide WritePtr;
    hide Placed;
    err, v' := -1, v;
    why := NoSpace(2);
    GoodParts(v, src, todo);
    ghost var j := RecordedClone(v, src, layout, recs, rec);
    BareSpan(f);
    TargetShape(src, f);
    TargetPlaced(src, layout, f);
    BareBytes(f);
    TargetFits(src, Bare(f));
    ReuseStops(v, src, layout, msg.mem, s, d, k, c, f, todo, rec, j);
    if PtrEqual(layout, f, rec.from) {
      ReuseNames(v, src, layout, f, rec, j);
      LinkCell(v, src, todo, k, c, f, j);
      TargetBasics(msg.mem, rec.to);
      err := O.WriteAt(msg, s, d, rec.to, false);
      if err == 0 {
        v' := v.(a := SetLink(v.a, k, c, j, rec.to));
        assert todo + [] == todo;
      }
    } else {
      why := Clash(Bare(rec.from));
    }
  }

  /** Pointers that overlap and compare equal name one object. */
  lemma ReuseNames(v: View, src: Mem, layout: seq<int>, f: Ptr, rec: C.Copy, j: nat)
    requires Placed(src, layout) && Target(src, Bare(f)) && f.seg.value < |layout|
    requires First(v) <= j < |v.a.objs| && RecordOf(v, layout, rec, j) && Target(src, Origin(v, j))
    requires rec.from.seg.Some? && rec.from.pos.Some? && rec.from.seg.value < |layout| && PtrEqual(layout, f, rec.from)
    requires C.Overlap(rec, Begin(layout, f), Begin(layout, f) + Span(f))
    ensures Names(f, Origin(v, j))
  {
    hide Target;
    hide Bytes;
    hide Placed;
    BareSpan(f);
    EqualNames(src, layout, Bare(f), Origin(v, j));
  }

  lemma ReuseStops(v: View, src: Mem, layout: seq<int>, mem: Mem, s: nat, d: nat, k: nat, c: nat, f: Ptr,
                   todo: seq<Range>, rec: C.Copy, j: nat)
    requires Good(v, src, todo) && SlotFor(v, src, mem, s, d, k, c, f) && First(v) <= j < |v.a.objs|
    requires RecordOf(v, layout, rec, j) && Target(mem, rec.to) && f.seg.Some? && f.pos.Some? && f.seg.value < |layout|
    requires C.Overlap(rec, Begin(layout, f), Begin(layout, f) + Span(f)) && Words(f) >= 0
    requires rec.from.seg.Some? && rec.from.pos.Some? && rec.from.seg.value < |layout|
    ensures Harmless(v, v, mem, k, c) && InMem(mem, s, d) && Sized(mem) && rec.to.datasz < TWO19 && rec.to.ptrs < TWO16
    ensures rec.to.seg.Some? && rec.to.seg.value < |mem|
    ensures !PtrEqual(layout, f, rec.from) ==> Stops(v, layout, mem, f, Clash(Bare(rec.from)))
    ensures !WritePtr(mem, s, d, rec.to, false).Wrote? ==> Stops(v, layout, mem, f, NoSpace(2))
  {
    hide Inv;
    hide Cloned;
    hide Bytes;
    hide Shape;
    hide WritePtr;
    hide NewData;
    GoodParts(v, src, todo);
    CellInMem(v.a, k, c);
    TargetBasics(mem, rec.to);
    WroteWhen(mem, s, d, rec.to);
    BareSpan(rec.from);
  }

  lemma RecordedClone(v: View, src: Mem, layout: seq<int>, recs: set<C.Copy>, rec: C.Copy) returns (j: nat)
    requires Recorded(v, layout, recs) && rec in recs && Origins(v, src) && Laid(v.a)
    ensures First(v) <= j < |v.a.objs| && RecordOf(v, layout, rec, j) && Target(src, Origin(v, j))
    ensures Target(v.a.mem, rec.to) && rec.from.seg.Some? && rec.from.pos.Some? && rec.from.seg.value < |layout|
  {
    j :| First(v) <= j < |v.a.objs| && RecordOf(v, layout, rec, j);
    LaidTarget(v.a, j);
    assert v.a.objs[j] == v.a.objs[j];
  }

  lemma BareSpan(f: Ptr)
    ensures Span(Bare(f)) == Span(f) && Words(Bare(f)) == Words(f) && Nil(Bare(f)) == Nil(f)
  {
  }

  /** What `new_clone` returns for a source object. */
  ghost predicate CloneMade(m: Mem, t: Made, f: Ptr, s: nat) {
    && FreshTarget(m, t) && t.ptr.datasz < TWO19 && t.ptr.ptrs < TWO16
      && (t.ptr.seg.Some? ==> t.ptr.seg.value < |t.mem|)
    && (t.ptr.pos.Some? ==> Alike(Bare(f), t.ptr) && Shape(t.ptr) && Solid(t.ptr) && Bytes(f) > 0)
    && (t.ptr.pos.None? ==> t.ptr.kind == Null || (t.ptr.seg == Some(s) && !Nil(t.ptr)))
  }

  lemma CloneIsMade(m: Mem, s: nat, src: Mem, f: Ptr)
    requires Sized(m) && s < |m| && Target(src, Bare(f))
    ensures CloneMade(m, NewClone(m, s, f), f, s)
  {
    hide FreshTarget;
    hide NewClone;
    hide Shape;
    hide Bytes;
    hide Target;
    TargetShape(src, f);
    CloneFresh(m, s, f);
    CloneShape(m, s, Bare(f));
    CloneOfBare(m, s, f);
    BareBytes(f);
  }

  /** The new clone, before anything points at it. */
  lemma CloneAdded(v: View, src: Mem, todo: seq<Range>, s: nat, d: nat, k: nat, c: nat, f: Ptr, t: Made)
    returns (v': View, r: Range)
    requires Good(v, src, todo) && SlotFor(v, src, v.a.mem, s, d, k, c, f) && Target(src, Bare(f)) && s < |v.a.mem|
    requires CloneMade(v.a.mem, t, f, s) && t.ptr.pos.Some?
    ensures v'.a.mem == t.mem && Later(v, v') && v'.a.objs == v.a.objs + [t.ptr] && v'.origin == v.origin + [Bare(f)]
    ensures Good(v', src, todo + [r]) && FreshClone(v', src, t.ptr, f, r) && Kept(v, v', k, c)
    ensures SlotFor(v', src, t.mem, s, d, k, c, f)
  {
    hide Inv;
    hide Cloned;
    hide Target;
    hide Bytes;
    hide Shape;
    hide Alike;
    hide Add;
    hide Solid;
    hide FreshTarget;
    hide IsSlot;
    CloneJoins(v, src, todo, f, t);
    var n := |v.a.objs|;
    v' := View(Add(v.a, t), v.origin + [Bare(f)]);
    r := Range(n, 0, |v'.a.cells[n]|);
    FreshFacts(v', src, todo + [r], t.ptr, f, r);
  }

  /** A new clone of `f`, linked from the slot. */
  lemma CloneLinked(v: View, src: Mem, todo: seq<Range>, s: nat, d: nat, k: nat, c: nat, f: Ptr)
    returns (v': View, r: Range)
    requires Good(v, src, todo) && SlotFor(v, src, v.a.mem, s, d, k, c, f) && Target(src, Bare(f)) && s < |v.a.mem|
    ensures var t := NewClone(v.a.mem, s, f);
      && t.ptr.datasz < TWO19 && t.ptr.ptrs < TWO16 && (t.ptr.seg.Some? ==> t.ptr.seg.value < |t.mem|)
      && Sized(t.mem) && InMem(t.mem, s, d)
      && var w := WritePtr(t.mem, s, d, t.ptr, false);
      && (w.Wrote? && t.ptr.kind != Null ==>
           && v'.a.mem == w.mem && Later(v, v') && v'.a.objs == v.a.objs + [t.ptr] && v'.origin == v.origin + [Bare(f)]
           && Good(v', src, todo + [r]) && FreshClone(v', src, t.ptr, f, r) && Kept(v, v', k, c) && HasCell(v'.a, k, c)
           && Stands(v', f, v'.a.cells[k][c]))
  {
    hide Inv;
    hide Cloned;
    hide Target;
    hide Bytes;
    hide Shape;
    hide WritePtr;
    hide NewClone;
    hide Alike;
    hide Solid;
    hide IsSlot;
    hide Good;
    GoodParts(v, src, todo);
    CellInMem(v.a, k, c);
    TargetShape(src, f);
    CloneIsMade(v.a.mem, s, src, f);
    var t := NewClone(v.a.mem, s, f);
    var w := WritePtr(t.mem, s, d, t.ptr, false);
    v', r := v, Range(0, 0, 0);
    if w.Wrote? && t.ptr.kind != Null {
      NoDataRefused(t.mem, s, d, t.ptr);
      var v1;
      v1, r := CloneAdded(v, src, todo, s, d, k, c, f, t);
      v' := LinkNewest(v, v1, src, todo + [r], s, d, k, c, f, t.ptr, r);
    }
  }

  lemma LinkNewest(v: View, v1: View, src: Mem, todo: seq<Range>, s: nat, d: nat, k: nat, c: nat, f: Ptr, t: Ptr,
                   r: Range)
    returns (v': View)
    requires Good(v1, src, todo) && SlotFor(v1, src, v1.a.mem, s, d, k, c, f) && Later(v, v1) && Kept(v, v1, k, c)
    requires FreshClone(v1, src, t, f, r) && t.datasz < TWO19 && t.ptrs < TWO16
      && (t.seg.Some? ==> t.seg.value < |v1.a.mem|)
    requires Sized(v1.a.mem) && InMem(v1.a.mem, s, d) && WritePtr(v1.a.mem, s, d, t, false).Wrote? && !Nil(f)
    ensures v'.a.mem == WritePtr(v1.a.mem, s, d, t, false).mem && Later(v, v') && v'.a.objs == v1.a.objs
      && v'.origin == v1.origin
    ensures Good(v', src, todo) && FreshClone(v', src, t, f, r) && Kept(v, v', k, c) && HasCell(v'.a, k, c)
    ensures Stands(v', f, v'.a.cells[k][c])
  {
    hide Good;
    hide Bytes;
    hide Shape;
    hide WritePtr;
    hide Alike;
    hide IsSlot;
    hide Target;
    LinkCell(v1, src, todo, k, c, f, r.obj);
    v' := v1.(a := SetLink(v1.a, k, c, r.obj, t));
  }

  lemma TargetShape(m: Mem, f: Ptr)
    requires Target(m, Bare(f))
    ensures f.kind in {Struct, List, PtrList, BitList} && Shape(Bare(f)) && !Nil(f) && f.seg.Some? && f.pos.Some?
  {
  }

  lemma TargetPlaced(src: Mem, layout: seq<int>, f: Ptr)
    requires Placed(src, layout) && Target(src, Bare(f))
    ensures f.seg.value < |layout|
  {
  }

  lemma CloneOfBare(m: Mem, s: nat, f: Ptr)
    requires s < |m| && f.kind in {Struct, List, PtrList, BitList}
    ensures NewClone(m, s, Bare(f)) == NewClone(m, s, f)
  {
    hide NewStruct;
    hide NewList;
    hide NewPtrList;
    hide NewBitList;
  }

  lemma NoDataRefused(m: Mem, s: nat, d: nat, p: Ptr)
    requires Sized(m) && InMem(m, s, d) && p.datasz < TWO19 && p.ptrs < TWO16 && (p.seg.Some? ==> p.seg.value < |m|)
    requires WritePtr(m, s, d, p, false).Wrote? && p.kind != Null && (p.pos.None? ==> p.seg == Some(s) && !Nil(p))
    ensures p.pos.Some?
  {
  }

  /** `new_object` fails only when no segment has room for the object and a tag word. */
  lemma ObjectRoom(m: Mem, p: Ptr, bytes: int)
    requires p.datasz < TWO19 && p.ptrs < TWO16 && p.seg.Some? && p.seg.value < |m| && p.pos.None?
      && 0 < bytes <= INT_MAX - 7
    ensures NewObject(m, p, bytes).ptr.pos.None? ==> NewData(m, (bytes + 7) / 8 + 1).NoRoom?
    ensures var r := NewObject(m, p, bytes).ptr; r.pos.Some? ==> r.seg == p.seg || r.hasTag
  {
    hide TagWord;
  }

  /** There is no clone only when there is no room for it, and a clone can always be linked at once: it
      lies in the slot's segment, or brings its own tag word. */
  lemma CloneRoom(src: Mem, m: Mem, s: nat, f: Ptr) returns (n: nat)
    requires Sized(src) && s < |m| && Target(src, Bare(f)) && Bytes(f) > 0
    ensures NewClone(m, s, f).ptr.pos.None? ==> n <= Words(f) + 2 && NewData(m, n).NoRoom?
    ensures var r := NewClone(m, s, f).ptr; r.pos.Some? ==> r.seg == Some(s) || r.hasTag
  {
    hide NewStruct;
    hide NewList;
    hide NewPtrList;
    hide NewBitList;
    hide NewData;
    hide Bytes;
    hide Shape;
    TargetShape(src, f);
    TargetFits(src, Bare(f));
    BareBytes(f);
    var bytes := Bytes(f);
    if f.kind == List {
      bytes := ListRoom(src, m, s, f);
    } else {
      FlatRoom(src, m, s, f);
    }
    n := (bytes + 7) / 8 + 1;
  }

  lemma FlatRoom(src: Mem, m: Mem, s: nat, f: Ptr)
    requires Sized(src) && s < |m| && Target(src, Bare(f)) && Bytes(f) > 0 && f.kind in {Struct, PtrList, BitList}
    ensures var r := NewClone(m, s, f).ptr;
      && (r.pos.None? ==> NewData(m, (Bytes(f) + 7) / 8 + 1).NoRoom?)
      && (r.pos.Some? ==> r.seg == Some(s) || r.hasTag)
  {
    hide NewObject;
    hide NewClone;
    hide NewData;
    hide Target;
    hide Bytes;
    var p := FlatClone(src, m, s, f);
    ObjectRoom(m, p, Bytes(f));
  }

  lemma FlatClone(src: Mem, m: Mem, s: nat, f: Ptr) returns (p: Ptr)
    requires Sized(src) && s < |m| && Target(src, Bare(f)) && Bytes(f) > 0 && f.kind in {Struct, PtrList, BitList}
    ensures p.datasz < TWO19 && p.ptrs < TWO16 && p.seg == Some(s) && p.pos.None? && Bytes(f) <= INT_MAX - 7
    ensures NewClone(m, s, f) == NewObject(m, p, Bytes(f))
  {
    hide NewObject;
    hide Target;
    TargetShape(src, f);
    TargetFits(src, Bare(f));
    BareBytes(f);
    p := Ptr(f.kind, false, false, false, f.datasz, f.ptrs, f.len, Some(s), None);
    if f.kind == Struct {
      WholeWords(f.datasz);
    }
  }

  lemma WholeWords(n: nat)
    requires n % 8 == 0
    ensures Align(n) == n
  {
  }

  lemma ListRoom(src: Mem, m: Mem, s: nat, f: Ptr) returns (bytes: int)
    requires Sized(src) && s < |m| && Target(src, Bare(f)) && Bytes(f) > 0 && f.kind == List
    ensures 0 < bytes <= Bytes(f) + 8
    ensures var r := NewList(m, s, f.len, f.datasz, f.ptrs).ptr;
      && (r.pos.None? ==> NewData(m, (bytes + 7) / 8 + 1).NoRoom?)
      && (r.pos.Some? ==> r.seg == Some(s) || r.hasTag)
  {
    hide NewObject;
    hide NewData;
    hide Times;
    TargetFits(src, Bare(f));
    var p := Ptr(List, false, false, false, 0, 0, f.len, Some(s), None);
    TimesZero(f.len, f.datasz);
    TimesZero(f.len, Size(f));
    UnitTimes(f.len);
    ScaleOne(f.len);
    Scale(f.len, f.datasz / 8, f.ptrs);
    if f.ptrs != 0 || f.datasz > 8 {
      bytes := Times(f.len, f.datasz + 8 * f.ptrs) + 8;
      var q := p.(composite := true, datasz := f.datasz, ptrs := f.ptrs);
      assert q == p.(composite := true, datasz := Align(f.datasz) % TWO19, ptrs := f.ptrs % TWO16);
      ObjectRoom(m, q, bytes);
    } else {
      bytes := Times(f.len, f.datasz);
      ObjectRoom(m, p.(datasz := f.datasz), bytes);
    }
  }

  /** A clone that was made is linked; one that could not be made leaves a null word in the slot, and one
      of an empty list is refused. */
  lemma CloneWrites(v: View, src: Mem, layout: seq<int>, todo: seq<Range>, s: nat, d: nat, k: nat, c: nat, f: Ptr)
    returns (v': View, why: Reason)
    requires Good(v, src, todo) && SlotFor(v, src, v.a.mem, s, d, k, c, f) && Target(src, Bare(f)) && s < |v.a.mem|
    ensures var t := NewClone(v.a.mem, s, f);
      && t.ptr.datasz < TWO19 && t.ptr.ptrs < TWO16 && (t.ptr.seg.Some? ==> t.ptr.seg.value < |t.mem|)
      && Sized(t.mem) && InMem(t.mem, s, d) && why != NoRecord
      && match WritePtr(t.mem, s, d, t.ptr, false)
         case Wrote(m) => t.ptr.kind == Null ==> Harmless(v, v', m, k, c) && Stops(v, layout, m, f, why)
         case _ => Harmless(v, v, t.mem, k, c) && Stops(v, layout, t.mem, f, why)
  {
    hide Inv;
    hide Cloned;
    hide Target;
    hide Bytes;
    hide Shape;
    hide NewClone;
    hide NewData;
    hide IsSlot;
    GoodParts(v, src, todo);
    CellInMem(v.a, k, c);
    TargetShape(src, f);
    CloneShape(v.a.mem, s, Bare(f));
    CloneOfBare(v.a.mem, s, f);
    CloneIsMade(v.a.mem, s, src, f);
    BareBytes(f);
    v', why := v.(a := SetWord(v.a, k, c, 0, Link(None, Near))), EmptyList;
    SetWordKeeps(v.a, k, c, 0, Link(None, Near));
    TargetFits(src, Bare(f));
    if Bytes(f) > 0 {
      var n := CloneRoom(src, v.a.mem, s, f);
      SameRoom(v.a.mem, s, d, 0, n);
      why := NoSpace(n);
      CloneLinks(v.a.mem, s, d, f);
    }
  }

  lemma CloneLinks(m: Mem, s: nat, d: nat, f: Ptr)
    requires s < |m| && CloneMade(m, NewClone(m, s, f), f, s) && Bytes(f) > 0 && InMem(m, s, d)
    requires var r := NewClone(m, s, f).ptr; r.pos.Some? ==> r.seg == Some(s) || r.hasTag
    ensures var t := NewClone(m, s, f);
      t.ptr.pos.Some? ==> InMem(t.mem, s, d) && WritePtr(t.mem, s, d, t.ptr, false).Wrote?
  {
    hide Bytes;
    hide Shape;
    hide NewClone;
    hide NewData;
    hide Target;
    hide Alike;
    var t := NewClone(m, s, f);
    if t.ptr.pos.Some? {
      TargetBasics(t.mem, t.ptr);
      DirectWritten(t.mem, s, d, t.ptr);
    }
  }

  /** Room is a matter of lengths. */
  lemma SameRoom(m: Mem, s: nat, d: nat, w: Word, n: nat)
    requires InMem(m, s, d)
    ensures NewData(Put(m, s, d, w), n).NoRoom? == NewData(m, n).NoRoom?
  {
    var m' := Put(m, s, d, w);
    assert forall j :: 0 <= j < |m| ==> Room(m'[j], n) == Room(m[j], n);
  }

  /** A new record leaves the message alone. */
  method AddRecord(msg: H.Message, tree: C.Tree, rec: C.Copy, above: T.Node?<C.Copy>, dir: bool,
                   ghost path: T.Path<C.Copy>)
    requires msg.Valid() && tree.Valid() && rec.fbegin < rec.fend && tree.room > 0
    requires C.Hole(path, above, dir, tree.root, tree.order, tree.nodes, rec.fbegin, rec.fend, T.Snap(tree.nodes))
    modifies tree, tree.nodes`parent, tree.nodes`link, tree.nodes`red
    ensures msg.Valid() && msg.mem == old(msg.mem) && msg.table.segs == old(msg.table.segs)
    ensures tree.Valid() && tree.Recs() == old(tree.Recs()) + {rec} && tree.room == old(tree.room) - 1
    ensures fresh(tree.nodes - old(tree.nodes))
  {
    hide H.Message.Valid;
    hide C.Hole;
    hide C.Tree.Valid;
    assert forall b | b in Bodies(msg.table.segs) :: allocated(b);
    assert forall b | b in H.Buffers(msg.table.segs) :: allocated(b);
    assert forall b | b in SetOf(msg.table.segs) :: allocated(b);
    tree.Add(rec, above, dir, path);
  }

  /** At most one clone is new: that of `f`, and what it leaves to do is its own cells. */
  ghost predicate Grown(v: View, v': View, f: Ptr, top: Option<Frame>, left: seq<Range>) {
    if v'.origin == v.origin then top.None? && left == []
    else v'.origin == v.origin + [Bare(f)] && |v'.a.objs| == |v.a.objs| + 1 && (left == [] || left[0].obj == |v.a.objs|)
         && Opens(f, top)
  }

  /** The clone made and linked, or a null pointer instead, or the reason why there is none. */
  method LinkNew(src: Mem, layout: seq<int>, msg: H.Message, s: nat, d: nat, f: Ptr,
                 ghost v: View, ghost k: nat, ghost c: nat, ghost todo: seq<Range>)
    returns (err: int, t: Ptr, ghost v': View, ghost r: Range, ghost why: Reason)
    requires msg.Valid() && Good(v, src, todo) && SlotFor(v, src, msg.mem, s, d, k, c, f)
    requires Target(src, Bare(f)) && s < |msg.mem|
    modifies msg, msg.table, SetOf(msg.table.segs), Bodies(msg.table.segs), H.Buffers(msg.table.segs)
    ensures msg.Valid() && old(msg.table.segs) <= msg.table.segs
    ensures forall g :: g in msg.table.segs ==>
      g in old(msg.table.segs) || (fresh(g) && fresh(g.item) && fresh(g.item.data))
    ensures Harmless(v, v', msg.mem, k, c) && why != NoRecord
    ensures err != 0 || t.kind == Null ==> Stops(v, layout, msg.mem, f, why)
    ensures err == 0 && t.kind != Null ==>
      && v'.a.mem == msg.mem && Later(v, v') && v'.a.objs == v.a.objs + [t] && v'.origin == v.origin + [Bare(f)]
      && Good(v', src, todo + [r]) && FreshClone(v', src, t, f, r) && Kept(v, v', k, c) && HasCell(v'.a, k, c)
      && Stands(v', f, v'.a.cells[k][c])
  {
    hide Names;
    hide Good;
    hide Bytes;
    hide NewClone;
    hide WritePtr;
    hide FreshClone;
    hide IsSlot;
    hide NewData;
    hide H.Message.Valid;
    hide H.Holds;
    hide Harmless;
    hide Target;
    hide Stands;
    hide Later;
    hide Kept;
    hide Origins;
    hide Stops;
    ghost var v1, r1 := CloneLinked(v, src, todo, s, d, k, c, f);
    ghost var v0, limit := CloneWrites(v, src, layout, todo, s, d, k, c, f);
    r, why := r1, limit;
    err, t := LinkClone(msg, s, d, f);
    v' := if err != 0 then v else if t.kind == Null then v0 else v1;
    if err == 0 && t.kind != Null {
      LinkedHarmless(v, v1, src, todo + [r], k, c);
    }
  }

  /** A source object seen for the first time: clone, link, record, fill. */
  method CopyNew(src: Mem, layout: seq<int>, tree: C.Tree, msg: H.Message, s: nat, d: nat, f: Ptr,
                 above: T.Node?<C.Copy>, dir: bool, ghost path: T.Path<C.Copy>,
                 ghost v: View, ghost k: nat, ghost c: nat, ghost todo: seq<Range>)
    returns (err: int, top: Option<Frame>, ghost v': View, ghost left: seq<Range>, ghost why: Reason)
    requires msg.Valid() && Placed(src, layout) && Good(v, src, todo) && SlotFor(v, src, msg.mem, s, d, k, c, f)
    requires tree.Valid() && Recorded(v, layout, tree.Recs()) && Target(src, Bare(f)) && Span(f) > 0
    requires f.seg.Some? && f.pos.Some? && f.seg.value < |layout| && s < |msg.mem|
    requires C.Hole(path, above, dir, tree.root, tree.order, tree.nodes, Begin(layout, f), Begin(layout, f) + Span(f),
                    T.Snap(tree.nodes))
    requires forall rec :: rec in tree.Recs() ==> !C.Overlap(rec, Begin(layout, f), Begin(layout, f) + Span(f))
    modifies tree, tree.nodes`parent, tree.nodes`link, tree.nodes`red
    modifies msg, msg.table, SetOf(msg.table.segs), Bodies(msg.table.segs), H.Buffers(msg.table.segs)
    ensures msg.Valid() && old(msg.table.segs) <= msg.table.segs
    ensures forall g :: g in msg.table.segs ==>
      g in old(msg.table.segs) || (fresh(g) && fresh(g.item) && fresh(g.item.data))
    ensures err == 0 ==> Copied(v, v', src, msg.mem, todo, k, c, f, top, left) && Grown(v, v', f, top, left)
    ensures err == 0 ==> tree.Valid() && Recorded(v', layout, tree.Recs()) && fresh(tree.nodes - old(tree.nodes))
    ensures err == 0 ==> Unstarted(src, layout, tree.Recs()) < old(Unstarted(src, layout, tree.Recs()))
    ensures err != 0 ==>
      Harmless(v, v', msg.mem, k, c) && Stops(v, layout, msg.mem, f, why) && (why == NoRecord ==> tree.room == 0)
  {
    hide Span;
    hide Begin;
    hide Names;
    hide C.Tree.Valid;
    hide C.Hole;
    hide Good;
    hide Bytes;
    hide NewClone;
    hide WritePtr;
    hide FreshClone;
    hide Placed;
    hide Recorded;
    hide Unstarted;
    hide IsSlot;
    hide NewData;
    hide H.Message.Valid;
    hide H.Holds;
    hide Harmless;
    hide Copied;
    hide Grown;
    hide Filled;
    hide Target;
    hide Stands;
    hide Later;
    hide Kept;
    hide C.Overlap;
    hide C.Contents;
    hide Origins;
    err, top, left := -1, None, [];
    GoodParts(v, src, todo);
    var e, t;
    ghost var v1, r;
    e, t, v1, r, why := LinkNew(src, layout, msg, s, d, f, v, k, c, todo);
    v' := v1;
    if e != 0 {
      return;
    }
    if tree.room == 0 {
      why := NoRecord;
      return;
    }
    var rec := C.Copy(f, t, Begin(layout, f), Begin(layout, f) + Span(f));
    AddRecord(msg, tree, rec, above, dir, path);
    if t.kind != Null {
      CloneRecorded(v, v1, src, layout, old(tree.Recs()), f, t, rec, r);
      err, top, v', left := FillNew(src, layout, msg, t, f, v, v1, k, c, todo, r, tree.Recs());
    }
  }

  /** A clone that is linked and recorded gets its contents. */
  method FillNew(src: Mem, layout: seq<int>, msg: H.Message, t: Ptr, f: Ptr, ghost v: View, ghost v1: View,
                 ghost k: nat, ghost c: nat, ghost todo: seq<Range>, ghost r: Range, ghost recs: set<C.Copy>)
    returns (err: int, top: Option<Frame>, ghost v': View, ghost left: seq<Range>)
    requires msg.Valid() && v1.a.mem == msg.mem && Good(v1, src, todo + [r]) && FreshClone(v1, src, t, f, r)
    requires Later(v, v1) && v1.a.objs == v.a.objs + [t] && v1.origin == v.origin + [Bare(f)] && Kept(v, v1, k, c)
    requires HasCell(v.a, k, c) && k < |v.a.objs| && |v.a.cells| == |v.a.objs|
    requires HasCell(v1.a, k, c) && Stands(v1, f, v1.a.cells[k][c]) && Recorded(v1, layout, recs)
    modifies msg`mem, H.Buffers(msg.table.segs)
    ensures msg.Valid() && err == 0 && Copied(v, v', src, msg.mem, todo, k, c, f, top, left)
    ensures Recorded(v', layout, recs) && Grown(v, v', f, top, left)
  {
    hide H.Message.Valid;
    hide Good;
    hide FreshClone;
    hide Filled;
    hide Recorded;
    hide Copied;
    hide Grown;
    hide Stands;
    hide Later;
    hide Kept;
    err, top, v', left := Fill(src, msg, t, f, v1, todo, r);
    FillCopied(v, v1, v', src, layout, todo, k, c, f, t, msg.mem, r, top, left, recs);
  }

  lemma LinkedHarmless(v: View, v1: View, src: Mem, todo: seq<Range>, k: nat, c: nat)
    requires Good(v1, src, todo) && Later(v, v1) && Kept(v, v1, k, c)
    ensures Harmless(v, v1, v1.a.mem, k, c)
  {
  }

  lemma CloneRecorded(v: View, v1: View, src: Mem, layout: seq<int>, recs: set<C.Copy>, f: Ptr, t: Ptr, rec: C.Copy,
                      r: Range)
    requires Placed(src, layout) && Recorded(v, layout, recs) && Target(src, Bare(f)) && Span(f) > 0
    requires f.seg.Some? && f.pos.Some? && f.seg.value < |layout|
    requires Later(v, v1) && v1.a.objs == v.a.objs + [t] && v1.origin == v.origin + [Bare(f)]
      && FreshClone(v1, src, t, f, r)
    requires rec == C.Copy(f, t, Begin(layout, f), Begin(layout, f) + Span(f))
    requires forall c :: c in recs ==> !C.Overlap(c, Begin(layout, f), Begin(layout, f) + Span(f))
    ensures Recorded(v1, layout, recs + {rec}) && Unstarted(src, layout, recs + {rec}) < Unstarted(src, layout, recs)
  {
    hide Unstarted;
    hide Recorded;
    hide Placed;
    hide Target;
    hide Bytes;
    BareSpan(f);
    OneLess(src, layout, v, recs, Bare(f), rec);
    RecordedMore(v, v1, layout, recs, rec);
  }

  lemma NewestRange(v: View, src: Mem, t: Ptr, f: Ptr, r: Range)
    requires FreshClone(v, src, t, f, r)
    ensures r.obj == |v.a.objs| - 1
  {
  }

  lemma FillCopied(v: View, v1: View, v': View, src: Mem, layout: seq<int>, todo: seq<Range>, k: nat, c: nat, f: Ptr,
                   t: Ptr, mem: Mem, r: Range, top: Option<Frame>, left: seq<Range>, recs: set<C.Copy>)
    requires Filled(v1, v', src, mem, todo, r, top, left) && Later(v, v1) && v1.a.objs == v.a.objs + [t]
      && Kept(v, v1, k, c)
    requires FreshClone(v1, src, t, f, r) && HasCell(v.a, k, c) && k < |v.a.objs| && HasCell(v1.a, k, c)
      && Stands(v1, f, v1.a.cells[k][c])
    requires Recorded(v1, layout, recs) && |v.a.cells| == |v.a.objs|
    requires v1.origin == v.origin + [Bare(f)] && Opens(f, top)
    ensures Copied(v, v', src, mem, todo, k, c, f, top, left) && Recorded(v', layout, recs)
      && Grown(v, v', f, top, left)
  {
    hide Good;
    hide Recorded;
    hide FreshClone;
    RecordedSame(v1, v', layout, recs);
    NewestRange(v1, src, t, f, r);
  }

  /** `copy_ptr`: the slot gets the clone of `f`, made now or before; pointers inside a new clone
      are left to the caller's stack. */
  method CopyPtr(src: Mem, layout: seq<int>, tree: C.Tree, msg: H.Message, s: nat, d: nat, f: Ptr,
                 ghost v: View, ghost k: nat, ghost c: nat, ghost todo: seq<Range>)
    returns (err: int, top: Option<Frame>, ghost v': View, ghost left: seq<Range>, ghost why: Reason)
    requires msg.Valid() && Placed(src, layout) && Good(v, src, todo) && SlotFor(v, src, msg.mem, s, d, k, c, f)
    requires tree.Valid() && Recorded(v, layout, tree.Recs())
    requires f.kind != Null && if Nil(f) then !f.composite else Target(src, Bare(f))
    modifies tree, tree.nodes`parent, tree.nodes`link, tree.nodes`red
    modifies msg, msg.table, SetOf(msg.table.segs), Bodies(msg.table.segs), H.Buffers(msg.table.segs)
    ensures msg.Valid() && old(msg.table.segs) <= msg.table.segs
    ensures forall g :: g in msg.table.segs ==>
      g in old(msg.table.segs) || (fresh(g) && fresh(g.item) && fresh(g.item.data))
    ensures err == 0 ==> Copied(v, v', src, msg.mem, todo, k, c, f, top, left) && Grown(v, v', f, top, left)
    ensures err == 0 ==> tree.Valid() && Recorded(v', layout, tree.Recs()) && fresh(tree.nodes - old(tree.nodes))
    ensures err == 0 ==> Unstarted(src, layout, tree.Recs()) < old(Unstarted(src, layout, tree.Recs()))
                         || (tree.Recs() == old(tree.Recs()) && left == [])
    ensures err != 0 ==>
      Harmless(v, v', msg.mem, k, c) && Stops(v, layout, msg.mem, f, why) && (why == NoRecord ==> tree.room == 0)
  {
    hide C.Tree.Valid;
    hide C.Hole;
    hide Good;
    hide Bytes;
    hide Recorded;
    hide Unstarted;
    hide IsSlot;
    hide Copied;
    hide Placed;
    hide Harmless;
    hide H.Message.Valid;
    hide H.Holds;
    hide C.Overlap;
    hide C.Contents;
    hide Begin;
    hide Alike;
    hide Shape;
    hide Target;
    hide Inv;
    err, top, v', left, why := -1, None, v, [], EmptyList;
    SourceSpan(src, layout, f);
    SlotInMem(v, src, msg.mem, s, d, k, c, f, todo);
    var span := Span(f);
    if span > INT_MAX || (f.composite && !(f.pos.Some? && f.seg.Some? && 1 <= f.pos.value <= src[f.seg.value].cap)) {
      return;
    }
    if span == 0 || f.pos.None? {
      err, v' := CopyEmpty(src, msg, s, d, f, v, k, c, todo);
      if err == 0 {
        RecordedSame(v, v', layout, tree.Recs());
      }
      return;
    }
    var fbegin := Begin(layout, f);
    var hit, above, dir, path := tree.Search(fbegin, fbegin + span);
    match hit
    case Some(rec) =>
      err, v', why := Reuse(src, layout, msg, s, d, f, rec, v, k, c, todo, tree.Recs());
      if err == 0 {
        RecordedSame(v, v', layout, tree.Recs());
      }
    case None =>
      err, top, v', left, why := CopyNew(src, layout, tree, msg, s, d, f, above, dir, path, v, k, c, todo);
  }

  lemma SourceSpan(src: Mem, layout: seq<int>, f: Ptr)
    requires Placed(src, layout) && f.kind != Null && if Nil(f) then !f.composite else Target(src, Bare(f))
    ensures 0 <= Span(f) <= INT_MAX && (Nil(f) ==> f.kind == Struct && Span(f) == 0)
    ensures !Nil(f) ==> f.seg.Some? && f.pos.Some? && f.seg.value < |layout| == |src|
    ensures f.composite ==> f.seg.Some? && f.pos.Some? && 1 <= f.pos.value <= src[f.seg.value].cap
  {
    BareSpan(f);
    BareBytes(f);
    if !Nil(f) {
      TargetFits(src, Bare(f));
    }
  }

  lemma SlotInMem(v: View, src: Mem, mem: Mem, s: nat, d: nat, k: nat, c: nat, f: Ptr, todo: seq<Range>)
    requires Good(v, src, todo) && SlotFor(v, src, mem, s, d, k, c, f)
    ensures InMem(mem, s, d)
  {
    CellInMem(v.a, k, c);
  }
}
