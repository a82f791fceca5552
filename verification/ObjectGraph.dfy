/** Runs of allocations, stores and pointer writes in one message.  The words of the arena refine an
    abstract graph of objects whose cells are data or links, for every run. */
module ObjectGraph {
  import opened Ints
  import opened SegmentTable
  import opened Options
  import opened Pointers

  /** How a slot's word leads to its target: directly, through one tag word, through a two-word pad. */
  datatype Via = Near | ByTag(t: nat) | ByPad(g: nat, t: nat)

  datatype Cell = Data(w: Word) | Link(to: Option<nat>, via: Via)

  /** The arena's words, the objects made so far, what each of their cells stands for, and the words
      that hold landing tags and pads. */
  datatype Arena = Arena(mem: Mem, objs: seq<Ptr>, cells: seq<seq<Cell>>, pads: set<(nat, nat)>)

  /** Whether cell `c` of an object is a pointer slot. */
  predicate IsSlot(p: Ptr, c: nat) {
    match p.kind
    case Struct => c >= p.datasz / 8
    case PtrList => true
    case List => p.composite && p.datasz / 8 + p.ptrs > 0 && c % (p.datasz / 8 + p.ptrs) >= p.datasz / 8
    case _ => false
  }

  predicate LinkOk(m: Mem, s: nat, d: nat, p: Ptr, via: Via, pads: set<(nat, nat)>)
    requires Sized(m) && InMem(m, s, d) && Target(m, p)
  {
    TargetBasics(m, p);
    var g, w := p.seg.value, m[s].words[d];
    match via
    case Near => g == s && w == TagWord(p, Start(p) - d - 1)
    case ByTag(t) =>
      && InMem(m, g, t) && w == FarWord(m, false, g, Some(t)) && m[g].words[t] == TagWord(p, Start(p) - t - 1)
      && ((g, t) in pads || (p.hasTag && t == Start(p) - 1))
    case ByPad(g', t) =>
      && InMem(m, g', t + 1) && w == FarWord(m, true, g', Some(t)) && Start(p) < m[g].cap
      && m[g'].words[t] == FarWord(m, false, g, Some(Start(p))) && m[g'].words[t + 1] == TagWord(p, 0)
      && (g', t) in pads && (g', t + 1) in pads
  }

  /** Two objects share no word, tags and headers included. */
  predicate Apart(p: Ptr, q: Ptr)
    requires p.seg.Some? && p.pos.Some? && q.seg.Some? && q.pos.Some?
  {
    p.seg != q.seg || p.pos.value + Words(p) <= Base(q) || q.pos.value + Words(q) <= Base(p)
  }

  /** An object that occupies at least one word. */
  predicate Solid(p: Ptr) {
    p.composite || Bytes(p) > 0
  }

  predicate InSpan(p: Ptr, at: (nat, nat))
    requires p.seg.Some? && p.pos.Some?
  {
    at.0 == p.seg.value && Base(p) <= at.1 < p.pos.value + Words(p)
  }

  ghost predicate Laid(a: Arena) {
    && Sized(a.mem) && |a.cells| == |a.objs|
    && (forall k :: 0 <= k < |a.objs| ==>
          Target(a.mem, a.objs[k]) && Solid(a.objs[k]) && |a.cells[k]| == Words(a.objs[k]))
    && (forall k, l :: 0 <= k < l < |a.objs| ==> Apart(a.objs[k], a.objs[l]))
    && (forall at :: at in a.pads ==> InMem(a.mem, at.0, at.1))
    && (forall at, k :: at in a.pads && 0 <= k < |a.objs| ==> !InSpan(a.objs[k], at))
  }

  predicate HasCell(a: Arena, k: nat, c: nat) {
    k < |a.objs| && k < |a.cells| && c < |a.cells[k]|
  }

  ghost predicate CellOk(a: Arena, k: nat, c: nat)
    requires Laid(a) && HasCell(a, k, c)
  {
    var p := a.objs[k];
    CellInMem(a, k, c);
    var s, d := p.seg.value, p.pos.value + c;
    match a.cells[k][c]
    case Data(w) => !IsSlot(p, c) && a.mem[s].words[d] == w
    case Link(None, _) => IsSlot(p, c) && a.mem[s].words[d] == 0
    case Link(Some(j), via) => IsSlot(p, c) && j < |a.objs| && LinkOk(a.mem, s, d, a.objs[j], via, a.pads)
  }

  ghost predicate Inv(a: Arena) {
    Laid(a) && forall k, c :: HasCell(a, k, c) ==> CellOk(a, k, c)
  }

  lemma BytesPositive(p: Ptr)
    requires Shape(p)
    ensures Bytes(p) >= 0
  {
    hide Times;
    if p.kind == List {
      ElementsNonNegative(p);
    }
  }

  lemma CellInMem(a: Arena, k: nat, c: nat)
    requires Laid(a) && HasCell(a, k, c)
    ensures var p := a.objs[k];
      p.seg.Some? && p.pos.Some? && InMem(a.mem, p.seg.value, p.pos.value + c) && Start(p) >= 0
    ensures InSpan(a.objs[k], (a.objs[k].seg.value, a.objs[k].pos.value + c))
  {
    BytesPositive(a.objs[k]);
  }

  // ----- growth

  /** The words a step adds. */
  function Added(m: Mem, m': Mem): (r: set<(nat, nat)>)
    ensures forall at :: at in r ==> InMem(m', at.0, at.1) && !InMem(m, at.0, at.1)
  {
    set i: nat, k: nat | i < |m'| && OldLen(m, i) <= k < |m'[i].words| :: (i, k)
  }

  lemma SpanInMem(a: Arena, k: nat, at: (nat, nat))
    requires Laid(a) && k < |a.objs| && InSpan(a.objs[k], at)
    ensures InMem(a.mem, at.0, at.1)
  {
    BytesPositive(a.objs[k]);
  }

  /** A landing word or an own tag is not a slot. */
  lemma {:induction false} LinkKept(m: Mem, m': Mem, s: nat, d: nat, s0: nat, d0: nat, p: Ptr, via: Via,
                                    pads: set<(nat, nat)>, pads': set<(nat, nat)>)
    requires Sized(m) && InMem(m, s, d) && Target(m, p) && LinkOk(m, s, d, p, via, pads)
    requires Sized(m') && Extends(m, m', s0, d0) && Target(m', p) && Clear(p, s0, d0)
    requires (s0, d0) !in pads && pads <= pads' && (s, d) != (s0, d0)
    ensures InMem(m', s, d) && LinkOk(m', s, d, p, via, pads')
  {
    hide TagWord;
    hide FarWord;
    TargetBasics(m, p);
    var g := p.seg.value;
    match via
    case Near =>
    case ByTag(t) => FarSame(m, m', false, g, Some(t));
    case ByPad(g', t) =>
      FarSame(m, m', true, g', Some(t));
      FarSame(m, m', false, g, Some(Start(p)));
  }

  /** A word outside an object's own tag and header leaves the object alone. */
  lemma ClearOf(a: Arena, k: nat, s: nat, d: nat)
    requires Laid(a) && k < |a.objs|
    requires !InSpan(a.objs[k], (s, d)) || (a.objs[k].pos.value <= d)
    ensures Clear(a.objs[k], s, d)
  {
    BytesPositive(a.objs[k]);
  }

  /** Writing one cell's word, and adding words, keeps all the other cells. */
  lemma {:induction false} OthersKept(a: Arena, m': Mem, k0: nat, c0: nat, k: nat, c: nat, pads': set<(nat, nat)>)
    requires Inv(a) && HasCell(a, k0, c0) && HasCell(a, k, c) && (k, c) != (k0, c0)
    requires Sized(m') && Extends(a.mem, m', a.objs[k0].seg.value, a.objs[k0].pos.value + c0) && a.pads <= pads'
    requires Laid(a.(mem := m', pads := pads'))
    ensures CellOk(a.(mem := m', pads := pads'), k, c)
  {
    hide LinkOk;
    hide Target;
    var p, p0 := a.objs[k], a.objs[k0];
    CellInMem(a, k, c);
    CellInMem(a, k0, c0);
    var s0, d0 := p0.seg.value, p0.pos.value + c0;
    assert CellOk(a, k, c);
    assert (p.seg.value, p.pos.value + c) != (s0, d0) by {
      SpansApart(a, k, k0, (s0, d0));
    }
    var cell := a.cells[k][c];
    if cell.Link? && cell.to.Some? {
      var j := cell.to.value;
      SpansApart(a, j, k0, (s0, d0));
      ClearOf(a, j, s0, d0);
      LinkKept(a.mem, m', p.seg.value, p.pos.value + c, s0, d0, a.objs[j], cell.via, a.pads, pads');
    }
  }

  lemma SpansApart(a: Arena, k: nat, l: nat, at: (nat, nat))
    requires Laid(a) && k < |a.objs| && l < |a.objs| && InSpan(a.objs[l], at)
    ensures InSpan(a.objs[k], at) ==> k == l
  {
    if k < l {
      assert Apart(a.objs[k], a.objs[l]);
    } else if l < k {
      assert Apart(a.objs[l], a.objs[k]);
    }
  }

  lemma LaidKept(a: Arena, m': Mem, k0: nat, c0: nat, pads': set<(nat, nat)>)
    requires Laid(a) && HasCell(a, k0, c0)
    requires Sized(m') && Extends(a.mem, m', a.objs[k0].seg.value, a.objs[k0].pos.value + c0)
    requires pads' == a.pads || pads' == a.pads + Added(a.mem, m')
    ensures Laid(a.(mem := m', pads := pads'))
  {
    hide Shape;
    hide Bytes;
    hide Apart;
    CellInMem(a, k0, c0);
    var s0, d0 := a.objs[k0].seg.value, a.objs[k0].pos.value + c0;
    forall k | 0 <= k < |a.objs|
      ensures Target(m', a.objs[k])
    {
      SpansApart(a, k, k0, (s0, d0));
      ClearOf(a, k, s0, d0);
      TargetKept(a.mem, m', s0, d0, a.objs[k]);
    }
    forall at, k | at in pads' && 0 <= k < |a.objs|
      ensures !InSpan(a.objs[k], at)
    {
      if InSpan(a.objs[k], at) {
        SpanInMem(a, k, at);
      }
    }
  }

  // ----- the steps

  /** A pointer that a caller can hold for object `j`: as made, or as read back from a slot. */
  ghost predicate Handle(a: Arena, q: Ptr, j: nat)
    requires Laid(a)
  {
    && j < |a.objs| && q == a.objs[j].(hasTag := q.hasTag) && Target(a.mem, q)
    && (q.hasTag ==> a.objs[j].hasTag || (a.objs[j].seg.value, Start(q) - 1) in a.pads)
  }

  /** The encoding `write_ptr` picks for a slot in segment `s`. */
  function Choose(m: Mem, s: nat, q: Ptr): Via
    requires s < |m| && q.seg.Some? && q.pos.Some? && q.seg.value < |m| && Start(q) >= 0
    requires q.hasTag ==> Start(q) >= 1
  {
    var g := q.seg.value;
    if g == s then Near
    else if q.hasTag then ByTag(Start(q) - 1)
    else if Room(m[g], 1) then ByTag(|m[g].words|)
    else if Room(m[s], 2) then ByPad(s, |m[s].words|)
    else if NewData(m, 2).Alloc? then ByPad(NewData(m, 2).seg, NewData(m, 2).pos)
    else Near
  }

  /** `capn_setp` on slot `c` of object `k`, with a target of the same message. */
  function SetLink(a: Arena, k: nat, c: nat, j: nat, q: Ptr): Arena
    requires Sized(a.mem) && HasCell(a, k, c) && a.objs[k].seg.Some? && a.objs[k].pos.Some?
    requires InMem(a.mem, a.objs[k].seg.value, a.objs[k].pos.value + c)
    requires Target(a.mem, q) && Start(q) >= 0
  {
    TargetBasics(a.mem, q);
    var s, d := a.objs[k].seg.value, a.objs[k].pos.value + c;
    match WritePtr(a.mem, s, d, q, false)
    case Wrote(m') =>
      a.(mem := m', pads := a.pads + Added(a.mem, m'),
         cells := a.cells[k := a.cells[k][c := Link(Some(j), Choose(a.mem, s, q))]])
    case _ => a
  }

  lemma HandleBasics(a: Arena, q: Ptr, j: nat)
    requires Laid(a) && Handle(a, q, j)
    ensures Start(q) == Start(a.objs[j]) && q.seg == a.objs[j].seg && q.pos == a.objs[j].pos
    ensures j < |a.objs| && Target(a.mem, q)
    ensures 0 <= Start(q) < |a.mem[q.seg.value].words| && (q.hasTag ==> Start(q) >= 1)
    ensures Sized(a.mem)
    ensures forall off :: TagWord(q, off) == TagWord(a.objs[j], off)
  {
    BytesPositive(q);
  }

  lemma LaidTarget(a: Arena, j: nat)
    requires Laid(a) && j < |a.objs|
    ensures Target(a.mem, a.objs[j])
  {
  }

  /** What the write leaves in memory is the link that was asked for. */
  lemma {:induction false} LinkMade(a: Arena, k: nat, c: nat, j: nat, q: Ptr)
    requires Laid(a) && HasCell(a, k, c) && Handle(a, q, j)
    requires a.objs[k].seg.Some? && a.objs[k].pos.Some? && InMem(a.mem, a.objs[k].seg.value, a.objs[k].pos.value + c)
    requires q.seg.Some? && q.datasz < TWO19 && q.ptrs < TWO16
    requires q.seg.value < |a.mem| && WritePtr(a.mem, a.objs[k].seg.value, a.objs[k].pos.value + c, q, false).Wrote?
    requires Start(q) >= 0 && (q.hasTag ==> Start(q) >= 1)
    ensures var s, d := a.objs[k].seg.value, a.objs[k].pos.value + c;
      var m' := WritePtr(a.mem, s, d, q, false).mem;
      && Sized(m') && InMem(m', s, d) && Target(m', a.objs[j])
      && LinkOk(m', s, d, a.objs[j], Choose(a.mem, s, q), a.pads + Added(a.mem, m'))
  {
    hide TagWord;
    hide FarWord;
    hide Shape;
    hide WritePtr;
    hide Laid;
    hide Sized;
    hide Target;
    hide NewData;
    hide Room;
    hide IsSlot;
    HandleBasics(a, q, j);
    TargetBasics(a.mem, q);
    CellInMem(a, k, c);
    var m, s, d, g := a.mem, a.objs[k].seg.value, a.objs[k].pos.value + c, q.seg.value;
    var m' := WritePtr(m, s, d, q, false).mem;
    WriteExtends(m, s, d, q, false);
    LaidKept(a, m', k, c, a.pads + Added(m, m'));
    LaidTarget(a.(mem := m', pads := a.pads + Added(m, m')), j);
    LinkOkMade(a, s, d, j, q);
  }

  lemma {:induction false} LinkOkMade(a: Arena, s: nat, d: nat, j: nat, q: Ptr)
    requires Sized(a.mem) && InMem(a.mem, s, d) && q.seg.Some? && q.datasz < TWO19 && q.ptrs < TWO16
    requires q.seg.value < |a.mem| && WritePtr(a.mem, s, d, q, false).Wrote?
    requires Laid(a) && Handle(a, q, j) && Start(q) >= 0 && (q.hasTag ==> Start(q) >= 1)
    requires var m' := WritePtr(a.mem, s, d, q, false).mem; Sized(m') && InMem(m', s, d) && Target(m', a.objs[j])
    ensures var m' := WritePtr(a.mem, s, d, q, false).mem;
      LinkOk(m', s, d, a.objs[j], Choose(a.mem, s, q), a.pads + Added(a.mem, m'))
  {
    hide TagWord;
    hide FarWord;
    hide Shape;
    hide WritePtr;
    hide Laid;
    hide Sized;
    hide Target;
    hide NewData;
    hide Room;
    hide IsSlot;
    HandleBasics(a, q, j);
    TargetBasics(a.mem, q);
    var m, g := a.mem, q.seg.value;
    var m' := WritePtr(m, s, d, q, false).mem;
    hide Handle;
    if g == s || q.hasTag {
      DirectWritten(m, s, d, q);
    } else if Room(m[g], 1) {
      TagWritten(m, s, d, q);
      var t := |m[g].words|;
      assert (g, t) in Added(m, m');
      assert m'[g].words[t] == TagWord(a.objs[j], Start(q) - t - 1);
    } else {
      WroteWhen(m, s, d, q);
      var g', t := PadWritten(m, s, d, q);
      assert (g', t) in Added(m, m') && (g', t + 1) in Added(m, m');
    }
  }

  /** A pointer write keeps the invariant: the slot names its new target, all else is as before. */
  lemma {:induction false} SetLinkKeeps(a: Arena, k: nat, c: nat, j: nat, q: Ptr)
    requires Inv(a) && HasCell(a, k, c) && Handle(a, q, j) && IsSlot(a.objs[k], c)
    requires a.objs[k].seg.Some? && a.objs[k].pos.Some? && InMem(a.mem, a.objs[k].seg.value, a.objs[k].pos.value + c)
    requires Target(a.mem, q) && Start(q) >= 0
    ensures Inv(SetLink(a, k, c, j, q))
  {
    hide LinkOk;
    hide Target;
    hide WritePtr;
    hide Choose;
    TargetBasics(a.mem, q);
    HandleBasics(a, q, j);
    var s, d := a.objs[k].seg.value, a.objs[k].pos.value + c;
    var w := WritePtr(a.mem, s, d, q, false);
    if w.Wrote? {
      var pads' := a.pads + Added(a.mem, w.mem);
      var b := a.(mem := w.mem, pads := pads');
      var a' := SetLink(a, k, c, j, q);
      WriteExtends(a.mem, s, d, q, false);
      LaidKept(a, w.mem, k, c, pads');
      LinkMade(a, k, c, j, q);
      assert Laid(a');
      forall k2: nat, c2: nat | HasCell(a', k2, c2)
        ensures CellOk(a', k2, c2)
      {
        if (k2, c2) != (k, c) {
          OthersKept(a, w.mem, k, c, k2, c2, pads');
          assert a'.cells[k2][c2] == a.cells[k2][c2];
        }
      }
    }
  }

  /** A null pointer into a slot, or a word into a data cell. */
  function SetWord(a: Arena, k: nat, c: nat, w: Word, cell: Cell): Arena
    requires HasCell(a, k, c) && a.objs[k].seg.Some? && a.objs[k].pos.Some?
    requires InMem(a.mem, a.objs[k].seg.value, a.objs[k].pos.value + c)
  {
    a.(mem := Put(a.mem, a.objs[k].seg.value, a.objs[k].pos.value + c, w), cells := a.cells[k := a.cells[k][c := cell]])
  }

  lemma {:induction false} SetWordKeeps(a: Arena, k: nat, c: nat, w: Word, cell: Cell)
    requires Inv(a) && HasCell(a, k, c) && a.objs[k].seg.Some? && a.objs[k].pos.Some?
    requires InMem(a.mem, a.objs[k].seg.value, a.objs[k].pos.value + c)
    requires if IsSlot(a.objs[k], c) then w == 0 && cell.Link? && cell.to == None else cell == Data(w)
    ensures Inv(SetWord(a, k, c, w, cell))
  {
    hide LinkOk;
    hide Target;
    var s, d := a.objs[k].seg.value, a.objs[k].pos.value + c;
    var m' := Put(a.mem, s, d, w);
    Itself(a.mem, s, d);
    PutExtends(a.mem, a.mem, s, d, w);
    LaidKept(a, m', k, c, a.pads);
    var a' := SetWord(a, k, c, w, cell);
    assert Laid(a');
    forall k2: nat, c2: nat | HasCell(a', k2, c2)
      ensures CellOk(a', k2, c2)
    {
      if (k2, c2) != (k, c) {
        OthersKept(a, m', k, c, k2, c2, a.pads);
        assert a'.cells[k2][c2] == a.cells[k2][c2];
      }
    }
  }

  function Blank(p: Ptr): seq<Cell>
    requires Words(p) >= 0
  {
    seq(Words(p), c requires 0 <= c => if IsSlot(p, c) then Link(None, Near) else Data(0))
  }

  lemma {:induction false} GrowKeeps(a: Arena, m': Mem)
    requires Inv(a) && Sized(m') && Grows(a.mem, m')
    ensures Inv(a.(mem := m'))
  {
    hide LinkOk;
    hide TagWord;
    hide FarWord;
    hide Apart;
    hide Shape;
    hide Bytes;
    var a' := a.(mem := m');
    forall k | 0 <= k < |a.objs|
      ensures Target(m', a.objs[k])
    {
      assert Target(a.mem, a.objs[k]);
    }
    forall k: nat, c: nat | HasCell(a', k, c)
      ensures CellOk(a', k, c)
    {
      assert CellOk(a, k, c);
      CellInMem(a, k, c);
      var cell := a.cells[k][c];
      if cell.Link? && cell.to.Some? {
        LinkGrown(a.mem, m', a.objs[k].seg.value, a.objs[k].pos.value + c, a.objs[cell.to.value], cell.via, a.pads);
      }
    }
  }

  lemma {:induction false} LinkGrown(m: Mem, m': Mem, s: nat, d: nat, p: Ptr, via: Via, pads: set<(nat, nat)>)
    requires Sized(m) && InMem(m, s, d) && Target(m, p) && LinkOk(m, s, d, p, via, pads)
    requires Sized(m') && Grows(m, m') && Target(m', p)
    ensures InMem(m', s, d) && LinkOk(m', s, d, p, via, pads)
  {
    hide TagWord;
    hide FarWord;
    TargetBasics(m, p);
    match via
    case Near =>
    case ByTag(t) => FarSame(m, m', false, p.seg.value, Some(t));
    case ByPad(g', t) =>
      FarSame(m, m', true, g', Some(t));
      FarSame(m, m', false, p.seg.value, Some(Start(p)));
  }

  /** A constructor's result joins the arena; a failed or oversized request only may use up words. */
  function Add(a: Arena, r: Made): Arena {
    if r.ptr.pos.Some? && Shape(r.ptr) && Solid(r.ptr) then
      BytesPositive(r.ptr);
      Arena(r.mem, a.objs + [r.ptr], a.cells + [Blank(r.ptr)], a.pads)
    else a.(mem := r.mem)
  }

  lemma {:induction false} AddKeeps(a: Arena, r: Made)
    requires Inv(a) && FreshTarget(a.mem, r)
    ensures Inv(Add(a, r))
  {
    hide LinkOk;
    hide TagWord;
    hide FarWord;
    hide Shape;
    hide Bytes;
    GrowKeeps(a, r.mem);
    var b, a' := a.(mem := r.mem), Add(a, r);
    if a' != b {
      AddLaid(a, r);
      hide Laid;
      forall k: nat, c: nat | HasCell(a', k, c)
        ensures CellOk(a', k, c)
      {
        if k < |a.objs| {
          assert CellOk(b, k, c);
        }
      }
    }
  }

  lemma {:induction false} AddLaid(a: Arena, r: Made)
    requires Laid(a) && Laid(a.(mem := r.mem)) && FreshTarget(a.mem, r) && r.ptr.pos.Some? && Shape(r.ptr)
      && Solid(r.ptr)
    ensures Laid(Add(a, r))
  {
    hide TagWord;
    hide Shape;
    hide Bytes;
    var a' := Add(a, r);
    forall k, l | 0 <= k < l < |a'.objs|
      ensures Apart(a'.objs[k], a'.objs[l])
    {
      if l == |a.objs| {
        EndInMem(a, k);
      }
    }
    BytesPositive(r.ptr);
    assert forall at :: at in a'.pads ==> InMem(a'.mem, at.0, at.1);
    forall at, k | at in a'.pads && 0 <= k < |a'.objs|
      ensures !InSpan(a'.objs[k], at)
    {
      assert InMem(a.mem, at.0, at.1);
      if k < |a.objs| {
        assert a'.objs[k] == a.objs[k];
      }
    }
    forall k | 0 <= k < |a'.objs|
      ensures Target(a'.mem, a'.objs[k]) && Solid(a'.objs[k]) && |a'.cells[k]| == Words(a'.objs[k])
    {
    }
  }

  lemma EndInMem(a: Arena, k: nat)
    requires Laid(a) && k < |a.objs|
    ensures var p := a.objs[k];
      p.seg.Some? && p.pos.Some? && p.pos.value + Words(p) <= OldLen(a.mem, p.seg.value)
  {
    BytesPositive(a.objs[k]);
  }

  // ----- reading

  /** What a link word resolves to. */
  lemma {:induction false} LinkResolves(m: Mem, s: nat, d: nat, p: Ptr, via: Via, pads: set<(nat, nat)>)
    requires Sized(m) && InMem(m, s, d) && Target(m, p) && LinkOk(m, s, d, p, via, pads)
    ensures p.seg.Some? && p.pos.Some?
    ensures var q := ReadPtr(m, s, d);
      && q == p.(hasTag := q.hasTag) && Target(m, q)
      && (q.hasTag ==> p.hasTag || (p.seg.value, Start(p) - 1) in pads)
  {
    hide ReadPtr;
    hide TagWord;
    hide FarWord;
    TargetBasics(m, p);
    match via
    case Near => ReadNear(m, s, d, p);
    case ByTag(t) =>
      ReadFar(m, s, d, p, t, Start(p) - t - 1);
      RetagTarget(m, p, t);
    case ByPad(g, t) => ReadDouble(m, s, d, p, g, t);
  }

  /** Resolving a linked slot gives the object it was linked to, in a form that can be linked again. */
  lemma {:induction false} LinkReads(a: Arena, k: nat, c: nat)
    requires Inv(a) && HasCell(a, k, c) && a.cells[k][c].Link?
    ensures a.objs[k].seg.Some? && a.objs[k].pos.Some? && InMem(a.mem, a.objs[k].seg.value, a.objs[k].pos.value + c)
    ensures var q, to := ReadPtr(a.mem, a.objs[k].seg.value, a.objs[k].pos.value + c), a.cells[k][c].to;
      && (to == None ==> q.kind == Null)
      && (to.Some? ==> to.value < |a.objs| && Same(q, a.objs[to.value]) && Handle(a, q, to.value))
  {
    hide ReadPtr;
    hide LinkOk;
    hide Target;
    CellInMem(a, k, c);
    assert CellOk(a, k, c);
    var s, d, to := a.objs[k].seg.value, a.objs[k].pos.value + c, a.cells[k][c].to;
    if to == None {
      ReadZero(a.mem, s, d);
    } else {
      LinkResolves(a.mem, s, d, a.objs[to.value], a.cells[k][c].via, a.pads);
    }
  }

  lemma ReadZero(m: Mem, s: nat, d: nat)
    requires InMem(m, s, d) && m[s].words[d] == 0
    ensures ReadPtr(m, s, d).kind == Null
  {
  }

  lemma RetagTarget(m: Mem, p: Ptr, t: nat)
    requires Sized(m) && Target(m, p) && InMem(m, p.seg.value, t)
      && m[p.seg.value].words[t] == TagWord(p, Start(p) - t - 1)
    ensures Start(p) - t - 1 == 0 ==> Target(m, p.(hasTag := true))
  {
    TargetBasics(m, p);
    hide Shape;
    SameTag(p, p.(hasTag := true));
  }

  // ----- runs

  datatype Op =
    | MakeStruct(seg: nat, datasz: int, ptrs: int)
    | MakeList(seg: nat, len: int, datasz: int, ptrs: int)
    | MakeBitList(seg: nat, len: int)
    | MakePtrList(seg: nat, len: int)
    | Store(obj: nat, cell: nat, word: Word)
    | LinkTo(obj: nat, cell: nat, target: nat)
    | LinkCopy(obj: nat, cell: nat, from: nat, fromCell: nat)
    | Unlink(obj: nat, cell: nat)

  function Make(m: Mem, op: Op): Made
    requires op.MakeStruct? || op.MakeList? || op.MakeBitList? || op.MakePtrList?
    requires op.seg < |m|
  {
    match op
    case MakeStruct(s, datasz, ptrs) => NewStruct(m, s, datasz, ptrs)
    case MakeList(s, n, datasz, ptrs) => NewList(m, s, n, datasz, ptrs)
    case MakeBitList(s, n) => NewBitList(m, s, n)
    case MakePtrList(s, n) => NewPtrList(m, s, n)
  }

  predicate IsMake(op: Op) {
    op.MakeStruct? || op.MakeList? || op.MakeBitList? || op.MakePtrList?
  }

  predicate LinkAt(a: Arena, k: nat, c: nat) {
    HasCell(a, k, c) && a.cells[k][c].Link?
  }

  /** One call on the message.  A call on something that is not there changes nothing. */
  ghost function Step(a: Arena, op: Op): Arena
    requires Inv(a)
  {
    if IsMake(op) then
      if op.seg < |a.mem| then Add(a, Make(a.mem, op)) else a
    else if !HasCell(a, op.obj, op.cell) then a
    else
      var k, c := op.obj, op.cell;
      CellInMem(a, k, c);
      match op
      case Store(_, _, w) => if a.cells[k][c].Data? then SetWord(a, k, c, w, Data(w)) else a
      case Unlink(_, _) => if a.cells[k][c].Link? then SetWord(a, k, c, 0, Link(None, Near)) else a
      case LinkTo(_, _, j) =>
        if a.cells[k][c].Link? && j < |a.objs| then
          LaidTarget(a, j);
          TargetBasics(a.mem, a.objs[j]);
          SetLink(a, k, c, j, a.objs[j])
        else a
      case LinkCopy(_, _, k2, c2) =>
        if a.cells[k][c].Link? && LinkAt(a, k2, c2) then
          LinkReads(a, k2, c2);
          var to := a.cells[k2][c2].to;
          if to == None then SetWord(a, k, c, 0, Link(None, Near))
          else
            var q := ReadPtr(a.mem, a.objs[k2].seg.value, a.objs[k2].pos.value + c2);
            TargetBasics(a.mem, q);
            SetLink(a, k, c, to.value, q)
        else a
  }

  ghost function Run(a: Arena, ops: seq<Op>): Arena
    requires Inv(a)
    decreases |ops|
  {
    if ops == [] then a
    else
      StepKeeps(a, ops[0]);
      Run(Step(a, ops[0]), ops[1..])
  }

  lemma MakeFresh(m: Mem, op: Op)
    requires Sized(m) && IsMake(op) && op.seg < |m|
    ensures FreshTarget(m, Make(m, op))
  {
    match op
    case MakeStruct(s, datasz, ptrs) => StructMade(m, s, datasz, ptrs);
    case MakeList(s, n, datasz, ptrs) => ListMade(m, s, n, datasz, ptrs);
    case MakeBitList(s, n) => BitListMade(m, s, n);
    case MakePtrList(s, n) => PtrListMade(m, s, n);
  }

  lemma SlotPlace(a: Arena, k: nat, c: nat)
    requires Inv(a) && HasCell(a, k, c)
    ensures IsSlot(a.objs[k], c) <==> a.cells[k][c].Link?
    ensures a.cells[k][c].Link? && a.cells[k][c].to.Some? ==> a.cells[k][c].to.value < |a.objs|
  {
    assert CellOk(a, k, c);
  }

  lemma OwnHandle(a: Arena, j: nat)
    requires Inv(a) && j < |a.objs|
    ensures Handle(a, a.objs[j], j)
  {
  }

  /** Every call keeps the invariant. */
  lemma {:induction false} StepKeeps(a: Arena, op: Op)
    requires Inv(a)
    ensures Inv(Step(a, op))
  {
    hide Inv;
    hide Handle;
    hide SetLink;
    hide SetWord;
    hide Add;
    hide ReadPtr;
    InvLaid(a);
    if IsMake(op) {
      if op.seg < |a.mem| {
        MakeFresh(a.mem, op);
        AddKeeps(a, Make(a.mem, op));
      }
    } else if HasCell(a, op.obj, op.cell) {
      var k, c := op.obj, op.cell;
      CellInMem(a, k, c);
      SlotPlace(a, k, c);
      match op
      case Store(_, _, w) =>
        if a.cells[k][c].Data? { SetWordKeeps(a, k, c, w, Data(w)); }
      case Unlink(_, _) =>
        if a.cells[k][c].Link? { SetWordKeeps(a, k, c, 0, Link(None, Near)); }
      case LinkTo(_, _, j) =>
        if a.cells[k][c].Link? && j < |a.objs| { LinkToKeeps(a, k, c, j); }
      case LinkCopy(_, _, k2, c2) =>
        if a.cells[k][c].Link? && LinkAt(a, k2, c2) { LinkCopyKeeps(a, k, c, k2, c2); }
    }
  }

  lemma LinkToKeeps(a: Arena, k: nat, c: nat, j: nat)
    requires Inv(a) && LinkAt(a, k, c) && j < |a.objs|
    ensures Inv(Step(a, LinkTo(k, c, j)))
  {
    hide Inv;
    hide Handle;
    hide SetLink;
    hide ReadPtr;
    InvLaid(a);
    CellInMem(a, k, c);
    SlotPlace(a, k, c);
    OwnHandle(a, j);
    LaidTarget(a, j);
    TargetBasics(a.mem, a.objs[j]);
    SetLinkKeeps(a, k, c, j, a.objs[j]);
  }

  lemma LinkCopyKeeps(a: Arena, k: nat, c: nat, k2: nat, c2: nat)
    requires Inv(a) && LinkAt(a, k, c) && LinkAt(a, k2, c2)
    ensures Inv(Step(a, LinkCopy(k, c, k2, c2)))
  {
    hide Inv;
    hide Handle;
    hide SetLink;
    hide SetWord;
    hide ReadPtr;
    InvLaid(a);
    CellInMem(a, k, c);
    SlotPlace(a, k, c);
    LinkReads(a, k2, c2);
    var to := a.cells[k2][c2].to;
    if to == None {
      SetWordKeeps(a, k, c, 0, Link(None, Near));
    } else {
      var q := ReadPtr(a.mem, a.objs[k2].seg.value, a.objs[k2].pos.value + c2);
      HandleTarget(a, q, to.value);
      TargetBasics(a.mem, q);
      SetLinkKeeps(a, k, c, to.value, q);
    }
  }

  lemma HandleTarget(a: Arena, q: Ptr, j: nat)
    requires Laid(a) && Handle(a, q, j)
    ensures Target(a.mem, q)
  {
  }

  lemma InvLaid(a: Arena)
    requires Inv(a)
    ensures Laid(a) && Sized(a.mem)
  {
  }

  /** `capn_root` on an empty message: one segment, one pointer slot at its start. */
  function Initial(cap: nat): Arena {
    Arena([Seg([0], cap)], [Ptr(PtrList, false, false, false, 0, 0, 1, Some(0), Some(0))], [[Link(None, Near)]], {})
  }

  lemma InitialInv(cap: nat)
    requires 1 <= cap && 8 * cap <= INT_MAX
    ensures Inv(Initial(cap))
  {
    var a := Initial(cap);
    assert Words(a.objs[0]) == 1;
    assert Laid(a);
  }

  /** Every run from a fresh message keeps the invariant. */
  lemma {:induction false} RunKeeps(a: Arena, ops: seq<Op>)
    requires Inv(a)
    ensures Inv(Run(a, ops)) && |Run(a, ops).objs| >= |a.objs|
    ensures forall k :: 0 <= k < |a.objs| ==> Run(a, ops).objs[k] == a.objs[k]
    decreases |ops|
  {
    if ops != [] {
      StepKeeps(a, ops[0]);
      StepObjects(a, ops[0]);
      RunKeeps(Step(a, ops[0]), ops[1..]);
    }
  }

  predicate Writes(op: Op, k: nat, c: nat) {
    !IsMake(op) && op.obj == k && op.cell == c
  }

  /** No call moves or renames an object, and a call changes at most the one cell it names. */
  lemma {:induction false} StepObjects(a: Arena, op: Op)
    requires Inv(a)
    ensures var a' := Step(a, op);
      && |a.objs| <= |a'.objs| && |a.cells| <= |a'.cells| && (forall k :: 0 <= k < |a.objs| ==> a'.objs[k] == a.objs[k])
      && forall k: nat, c: nat :: HasCell(a, k, c) ==>
        HasCell(a', k, c) && (!Writes(op, k, c) ==> a'.cells[k][c] == a.cells[k][c])
  {
    hide Inv;
    hide Laid;
    hide Target;
    hide Make;
    hide Sized;
    hide Handle;
    hide WritePtr;
    hide ReadPtr;
    hide Choose;
    hide IsSlot;
    InvLaid(a);
    if !IsMake(op) && HasCell(a, op.obj, op.cell) {
      CellInMem(a, op.obj, op.cell);
      if op.LinkCopy? && LinkAt(a, op.from, op.fromCell) {
        LinkReads(a, op.from, op.fromCell);
      }
    }
  }

  /** A linked slot resolves to the same object after any further calls that do not write that slot,
      and a data cell keeps its word. */
  lemma {:induction false} CellStable(a: Arena, ops: seq<Op>, k: nat, c: nat)
    requires Inv(a) && HasCell(a, k, c) && (forall i :: 0 <= i < |ops| ==> !Writes(ops[i], k, c))
    ensures a.objs[k].seg.Some? && a.objs[k].pos.Some?
    ensures var b, s, d := Run(a, ops), a.objs[k].seg.value, a.objs[k].pos.value + c;
      && InMem(a.mem, s, d) && InMem(b.mem, s, d)
      && if a.cells[k][c].Data? then b.mem[s].words[d] == a.mem[s].words[d]
         else ReadPtr(a.mem, s, d).kind == ReadPtr(b.mem, s, d).kind == Null
              || Same(ReadPtr(b.mem, s, d), ReadPtr(a.mem, s, d))
  {
    hide ReadPtr;
    hide Step;
    CellsStable(a, ops, k, c);
    RunKeeps(a, ops);
    var b := Run(a, ops);
    CellInMem(a, k, c);
    CellInMem(b, k, c);
    assert CellOk(a, k, c) && CellOk(b, k, c);
    if a.cells[k][c].Link? {
      LinkReads(a, k, c);
      LinkReads(b, k, c);
    }
  }

  lemma {:induction false} CellsStable(a: Arena, ops: seq<Op>, k: nat, c: nat)
    requires Inv(a) && HasCell(a, k, c) && (forall i :: 0 <= i < |ops| ==> !Writes(ops[i], k, c))
    ensures var b := Run(a, ops); HasCell(b, k, c) && b.cells[k][c] == a.cells[k][c]
    decreases |ops|
  {
    hide Step;
    if ops != [] {
      StepKeeps(a, ops[0]);
      StepObjects(a, ops[0]);
      assert !Writes(ops[0], k, c);
      CellsStable(Step(a, ops[0]), ops[1..], k, c);
    }
  }

  /** A link call makes the slot resolve to its target, unless a landing pad was needed and neither
      the slot's segment, nor any other, nor the allocator had two words for it. */
  lemma {:induction false} LinkToReads(a: Arena, k: nat, c: nat, j: nat)
    requires Inv(a) && LinkAt(a, k, c) && j < |a.objs|
    ensures a.objs[k].seg.Some? && a.objs[k].pos.Some? && a.objs[j].seg.Some?
    ensures var a', s, d, g := Step(a, LinkTo(k, c, j)), a.objs[k].seg.value, a.objs[k].pos.value + c,
      a.objs[j].seg.value;
      && s < |a.mem| && g < |a.mem| && s < |a'.mem|
      && if g == s || a.objs[j].hasTag || Room(a.mem[g], 1) || Room(a.mem[s], 2) || NewData(a.mem, 2).Alloc?
         then Same(ReadPtr(a'.mem, s, d), a.objs[j])
         else a' == a
  {
    hide ReadPtr;
    hide WritePtr;
    hide Inv;
    hide Laid;
    hide Sized;
    hide Target;
    hide Handle;
    hide NewData;
    hide Choose;
    InvLaid(a);
    var op := LinkTo(k, c, j);
    CellInMem(a, k, c);
    LaidTarget(a, j);
    TargetBasics(a.mem, a.objs[j]);
    WroteWhen(a.mem, a.objs[k].seg.value, a.objs[k].pos.value + c, a.objs[j]);
    StepKeeps(a, op);
    StepObjects(a, op);
    var s, d := a.objs[k].seg.value, a.objs[k].pos.value + c;
    var w := WritePtr(a.mem, s, d, a.objs[j], false);
    if w.Wrote? {
      assert Step(a, op).cells[k][c].to == Some(j);
      LinkReads(Step(a, op), k, c);
    }
  }
}
