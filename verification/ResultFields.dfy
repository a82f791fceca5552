/** The writer of a serialized PotentialResult with the values in it: which list goes into which field, and that
    a reader of the bytes finds them there. */
module ResultFields {
  import opened Ints
  import opened SegmentTable
  import opened Options
  import opened Pointers
  import opened ObjectGraph
  import R = ResultSize
  import Frame

  // ----- the image of an evaluation

  /** A fixed array and how many of its values count, as far as the array goes. */
  datatype Counted = Counted(count: nat, values: seq<Word>)

  datatype Properties = Properties(hessian: Counted, dipole: Counted, polarizability: Counted)

  /** What an evaluation leaves behind, each part present or not.  Numbers are the words of doubles; the stress
      is in the units of the result. */
  datatype Snapshot = Snapshot(energy: Option<seq<Word>>, charge: Option<seq<Word>>, multi: Option<Counted>,
                               md: Option<Counted>, prop: Option<Properties>, stress: Option<seq<Word>>)

  /** The arrays have the lengths of `CPMDCEmbedImage`. */
  predicate SnapshotOk(x: Snapshot) {
    && (x.energy.Some? ==> |x.energy.value| == 24) && (x.charge.Some? ==> |x.charge.value| == 4)
    && (x.multi.Some? ==> |x.multi.value.values| == 64) && (x.md.Some? ==> |x.md.value.values| == 32)
    && (x.prop.Some? ==>
          && |x.prop.value.hessian.values| == 4096 && |x.prop.value.dipole.values| == 3
          && |x.prop.value.polarizability.values| == 9)
    && (x.stress.Some? ==> |x.stress.value| == 9)
  }

  /** The parts and lengths alone. */
  function Outline(x: Snapshot): R.Image {
    R.Image(x.energy.Some?, x.charge.Some?, if x.multi.Some? then Some(x.multi.value.count) else None,
            if x.md.Some? then Some(x.md.value.count) else None,
            if x.prop.Some? then Some(R.Properties(x.prop.value.hessian.count, x.prop.value.dipole.count,
                                                   x.prop.value.polarizability.count)) else None,
            x.stress.Some?)
  }

  /** The values that count. */
  function Taken(c: Counted): seq<Word> {
    if c.count > |c.values| then c.values else c.values[..c.count]
  }

  /** A double with its sign changed. */
  function Negated(w: Word): Word {
    if w < 0x8000_0000_0000_0000 then w + 0x8000_0000_0000_0000 else w - 0x8000_0000_0000_0000
  }

  function NegatedAll(ws: seq<Word>): seq<Word> {
    seq(|ws|, i requires 0 <= i < |ws| => Negated(ws[i]))
  }

  // ----- the fields

  function Components(x: Snapshot): seq<Word> {
    if x.energy.Some? then x.energy.value else []
  }

  function Charges(x: Snapshot): seq<Word> {
    if x.charge.Some? then x.charge.value else if x.energy.Some? then Zeros(4) else []
  }

  function MultiState(x: Snapshot): seq<Word>
    requires SnapshotOk(x)
  {
    if x.multi.Some? then Taken(x.multi.value)
    else if x.energy.Some? then [x.energy.value[0]] + Zeros(5)
    else []
  }

  function MdRow(x: Snapshot): seq<Word>
    requires SnapshotOk(x)
  {
    if x.md.Some? then Taken(x.md.value)
    else if x.energy.Some? then x.energy.value[..5] + [x.energy.value[8]] + Zeros(6)
    else []
  }

  /** Properties are there when the evaluation left some, or at least an energy. */
  predicate HasProperties(x: Snapshot) {
    x.energy.Some? || x.prop.Some?
  }

  function Dipole(x: Snapshot): seq<Word> {
    if !HasProperties(x) then []
    else if x.prop.Some? && x.prop.value.dipole.count > 0 then Taken(x.prop.value.dipole)
    else Zeros(3)
  }

  function Polarizability(x: Snapshot): seq<Word> {
    if !HasProperties(x) then []
    else if x.prop.Some? && x.prop.value.polarizability.count > 0 then Taken(x.prop.value.polarizability)
    else Zeros(9)
  }

  /** The gradient: the hessian slot of the properties, else the negated forces as far as they are at most 4096. */
  function Gradient(forces: seq<Word>, x: Snapshot): seq<Word> {
    if !HasProperties(x) then []
    else if x.prop.Some? && x.prop.value.hessian.count > 0 then Taken(x.prop.value.hessian)
    else if |forces| <= 4096 then NegatedAll(forces)
    else []
  }

  function Stress(x: Snapshot): seq<Word> {
    if x.stress.Some? then x.stress.value else []
  }

  /** The first `n` values, or all of an array of `cap` when there are fewer. */
  ghost predicate FirstOf(ws: seq<Word>, c: Counted, cap: nat) {
    |ws| == (if c.count <= cap then c.count else cap) <= |c.values| && ws == c.values[..|ws|]
  }

  /** What is in the fields: the arrays of the evaluation as far as they count; without some of them, what an
      evaluation with an energy has in their place. */
  lemma FieldsAre(forces: seq<Word>, x: Snapshot)
    requires SnapshotOk(x)
    ensures x.energy.Some? ==> Components(x) == x.energy.value
    ensures x.energy.None? ==> Components(x) == []
    ensures x.charge.Some? ==> Charges(x) == x.charge.value
    ensures x.charge.None? ==> Charges(x) == if x.energy.Some? then [0, 0, 0, 0] else []
    ensures x.multi.Some? ==> FirstOf(MultiState(x), x.multi.value, 64)
    ensures x.multi.None? && x.energy.Some? ==> MultiState(x) == [x.energy.value[0], 0, 0, 0, 0, 0]
    ensures x.multi.None? && x.energy.None? ==> MultiState(x) == []
    ensures x.md.Some? ==> FirstOf(MdRow(x), x.md.value, 32)
    ensures x.md.None? && x.energy.Some? ==> var e := x.energy.value;
      MdRow(x) == [e[0], e[1], e[2], e[3], e[4], e[8], 0, 0, 0, 0, 0, 0]
    ensures x.md.None? && x.energy.None? ==> MdRow(x) == []
    ensures x.stress == (if Stress(x) == [] then None else Some(Stress(x)))
  {
  }

  lemma PropertiesAre(forces: seq<Word>, x: Snapshot)
    requires SnapshotOk(x)
    ensures x.energy.None? && x.prop.None? ==> Dipole(x) == Polarizability(x) == Gradient(forces, x) == []
    ensures x.prop.Some? && x.prop.value.dipole.count > 0 ==> FirstOf(Dipole(x), x.prop.value.dipole, 3)
    ensures x.prop.Some? && x.prop.value.polarizability.count > 0 ==>
      FirstOf(Polarizability(x), x.prop.value.polarizability, 9)
    ensures x.prop.Some? && x.prop.value.hessian.count > 0 ==> FirstOf(Gradient(forces, x), x.prop.value.hessian, 4096)
    ensures x.energy.Some? || x.prop.Some? ==>
      && ((x.prop.Some? && x.prop.value.dipole.count > 0) || Dipole(x) == [0, 0, 0])
      && ((x.prop.Some? && x.prop.value.polarizability.count > 0) || Polarizability(x) == [0, 0, 0, 0, 0, 0, 0, 0, 0])
    ensures (x.energy.Some? || x.prop.Some?) && !(x.prop.Some? && x.prop.value.hessian.count > 0) ==>
      if |forces| > 4096 then Gradient(forces, x) == []
      else
        && |Gradient(forces, x)| == |forces|
        && forall i :: 0 <= i < |forces| ==> Opposite(forces[i], Gradient(forces, x)[i])
  {
  }

  /** Doubles that differ in the sign bit alone. */
  predicate Opposite(a: Word, b: Word) {
    a - b == 0x8000_0000_0000_0000 || b - a == 0x8000_0000_0000_0000
  }

  /** The lists behind the forces in the order in which they are allocated. */
  function Lists(forces: seq<Word>, x: Snapshot): (ls: seq<seq<Word>>)
    requires SnapshotOk(x)
    ensures |ls| == 8
  {
    [Components(x), Charges(x), MultiState(x), MdRow(x), Dipole(x), Polarizability(x), Gradient(forces, x), Stress(x)]
  }

  lemma ListLengths(forces: seq<Word>, x: Snapshot)
    requires SnapshotOk(x)
    ensures |R.Lengths(|forces|, Outline(x))| == 8
    ensures forall i :: 0 <= i < 8 ==> |Lists(forces, x)[i]| == R.Lengths(|forces|, Outline(x))[i] <= 4096
  {
    FirstLengths(forces, x);
    LastLengths(forces, x);
    hide Lists;
    hide R.Lengths;
    hide Outline;
    var ls, ns := Lists(forces, x), R.Lengths(|forces|, Outline(x));
    assert |ls[0]| == ns[0] && |ls[1]| == ns[1] && |ls[2]| == ns[2] && |ls[3]| == ns[3];
    assert |ls[4]| == ns[4] && |ls[5]| == ns[5] && |ls[6]| == ns[6] && |ls[7]| == ns[7];
  }

  lemma FirstLengths(forces: seq<Word>, x: Snapshot)
    requires SnapshotOk(x)
    ensures var ns := R.Lengths(|forces|, Outline(x));
      && |ns| == 8
      && |Lists(forces, x)[0]| == ns[0] <= 4096 && |Lists(forces, x)[1]| == ns[1] <= 4096
      && |Lists(forces, x)[2]| == ns[2] <= 4096 && |Lists(forces, x)[3]| == ns[3] <= 4096
  {
    hide Dipole;
    hide Polarizability;
    hide Gradient;
    hide Stress;
  }

  lemma LastLengths(forces: seq<Word>, x: Snapshot)
    requires SnapshotOk(x)
    ensures var ns := R.Lengths(|forces|, Outline(x));
      && |ns| == 8
      && |Lists(forces, x)[4]| == ns[4] <= 4096 && |Lists(forces, x)[5]| == ns[5] <= 4096
      && |Lists(forces, x)[6]| == ns[6] <= 4096 && |Lists(forces, x)[7]| == ns[7] <= 4096
  {
    hide Components;
    hide Charges;
    hide MultiState;
    hide MdRow;
  }

  // ----- building the message

  /** Nothing that was there is changed. */
  ghost predicate Later(a: Arena, b: Arena) {
    && |a.objs| <= |b.objs| && |a.cells| == |a.objs| && |b.cells| == |b.objs|
    && (forall k :: 0 <= k < |a.objs| ==> b.objs[k] == a.objs[k] && b.cells[k] == a.cells[k])
  }

  /** Object `j` is a list of these values, in the first segment or with a tag of its own. */
  ghost predicate IsList(a: Arena, j: nat, values: seq<Word>) {
    && j < |a.objs| && j < |a.cells|
    && var p := a.objs[j];
    && p.kind == List && !p.composite && p.datasz == 8 && p.ptrs == 0 && p.len == |values|
    && p.seg.Some? && (p.seg == Some(0) || p.hasTag)
    && |a.cells[j]| == |values| && forall k :: 0 <= k < |values| ==> a.cells[j][k] == Data(values[k])
  }

  predicate SameShape(m: Mem, m': Mem) {
    |m| == |m'| && forall i :: 0 <= i < |m| ==> m[i].cap == m'[i].cap && |m[i].words| == |m'[i].words|
  }

  lemma {:induction false} ShapeHeld(m: Mem, m': Mem)
    requires SameShape(m, m')
    ensures R.Held(m) == R.Held(m')
  {
    if m != [] {
      ShapeHeld(m[1..], m'[1..]);
    }
  }

  lemma {:induction false} ShapeRoom(m: Mem, m': Mem, n: nat, from: nat)
    requires SameShape(m, m') && from <= |m|
    ensures FirstRoom(m, n, from) == FirstRoom(m', n, from)
    decreases |m| - from
  {
    if from < |m| && !Room(m[from], n) {
      ShapeRoom(m, m', n, from + 1);
    }
  }

  lemma ShapeData(m: Mem, m': Mem, n: nat)
    requires SameShape(m, m')
    ensures match NewData(m, n)
            case NoRoom => NewData(m', n).NoRoom?
            case Alloc(x, s, d) =>
              && NewData(m', n).Alloc? && SameShape(x, NewData(m', n).mem)
              && NewData(m', n).seg == s && NewData(m', n).pos == d
  {
    hide CreateCap;
    ShapeRoom(m, m', n, 0);
  }

  lemma ShapePush(m: Mem, m': Mem, s: nat, ws: seq<Word>)
    requires SameShape(m, m') && s < |m|
    ensures SameShape(Push(m, s, ws), Push(m', s, ws))
  {
  }

  lemma ShapePut(m: Mem, m': Mem, s: nat, d: nat, w: Word, w': Word)
    requires SameShape(m, m') && InMem(m, s, d)
    ensures InMem(m', s, d) && SameShape(Put(m, s, d, w), Put(m', s, d, w'))
  {
  }

  /** An object is made in the same place whatever the words are. */
  lemma ShapeObject(m: Mem, m': Mem, p: Ptr, bytes: int)
    requires SameShape(m, m') && p.datasz < TWO19 && p.ptrs < TWO16 && p.seg.Some? && p.seg.value < |m| && p.pos.None?
    ensures SameShape(NewObject(m, p, bytes).mem, NewObject(m', p, bytes).mem)
    ensures NewObject(m, p, bytes).ptr == NewObject(m', p, bytes).ptr
  {
    hide TagWord;
    hide NewData;
    hide SameShape;
    if 0 < bytes <= INT_MAX - 7 {
      var s, n := p.seg.value, (bytes + 7) / 8;
      ShapeAt(m, m', s);
      if Room(m[s], n) {
        ShapePush(m, m', s, Zeros(n));
      } else {
        ShapeData(m, m', n + 1);
        match NewData(m, n + 1)
        case NoRoom =>
        case Alloc(x, g, d) =>
          R.NewDataCost(m, n + 1);
          ShapePut(x, NewData(m', n + 1).mem, g, d, TagWord(p, 0), TagWord(p, 0));
      }
    }
  }

  lemma ShapeAt(m: Mem, m': Mem, s: nat)
    requires SameShape(m, m') && s < |m|
    ensures s < |m'| && m[s].cap == m'[s].cap && |m[s].words| == |m'[s].words|
  {
  }

  lemma ShapeList(m: Mem, m': Mem, n: nat)
    requires SameShape(m, m') && m != []
    ensures SameShape(R.NewList64(m, n).mem, R.NewList64(m', n).mem) && R.NewList64(m, n).ptr == R.NewList64(m', n).ptr
  {
    hide NewObject;
    if n > 0 && Times(n, 8) <= INT_MAX {
      ShapeObject(m, m', Ptr(List, false, false, false, 8, 0, n, Some(0), None), Times(n, 8));
    }
  }

  /** Links lead straight to their objects or through their own tag words. */
  ghost predicate Plain(a: Arena) {
    forall k: nat, c: nat :: HasCell(a, k, c) && a.cells[k][c].Link? ==> !a.cells[k][c].via.ByPad?
  }

  /** A list of 64-bit values, made by one call of the graph. */
  lemma ListAdded(a: Arena, n: nat)
    requires Inv(a) && a.mem != [] && 0 < n && R.NewList64(a.mem, n).ptr.pos.Some?
    ensures var op, p := MakeList(0, n, 8, 0), R.NewList64(a.mem, n).ptr;
      var b := Step(a, op);
      && Inv(b) && b.mem == R.NewList64(a.mem, n).mem && b.objs == a.objs + [p] && |a.cells| == |a.objs|
      && b.cells == a.cells + [seq(n, i => Data(0))]
      && p.kind == List && !p.composite && !p.member && p.datasz == 8 && p.ptrs == 0 && p.len == n
      && p.seg.Some? && (p.seg == Some(0) || p.hasTag)
  {
    hide TagWord;
    hide NewData;
    hide Inv;
    var op, r := MakeList(0, n, 8, 0), R.NewList64(a.mem, n);
    StepKeeps(a, op);
    InvLaid(a);
    assert Times(n, 8) == 8 * n;
    assert r.ptr.kind == List && r.ptr.len == n && r.ptr.datasz == 8;
    assert Words(r.ptr) == n;
    assert Blank(r.ptr) == seq(n, i => Data(0));
  }

  lemma StoreDone(a: Arena, j: nat, c: nat, w: Word)
    requires Inv(a) && HasCell(a, j, c) && a.cells[j][c].Data?
    ensures a.objs[j].seg.Some? && a.objs[j].pos.Some? && InMem(a.mem, a.objs[j].seg.value, a.objs[j].pos.value + c)
    ensures var b := Step(a, Store(j, c, w));
      && Inv(b) && b.mem == Put(a.mem, a.objs[j].seg.value, a.objs[j].pos.value + c, w) && b.objs == a.objs
      && b.cells == a.cells[j := a.cells[j][c := Data(w)]]
  {
    hide Inv;
    StepKeeps(a, Store(j, c, w));
    InvLaid(a);
    CellInMem(a, j, c);
  }

  lemma ShapeTrans(x: Mem, y: Mem, z: Mem)
    requires SameShape(x, y) && SameShape(y, z)
    ensures SameShape(x, z)
  {
  }

  lemma ShapeSelf(m: Mem)
    ensures SameShape(m, m)
  {
  }

  lemma ShapePutSelf(m: Mem, s: nat, d: nat, w: Word)
    requires InMem(m, s, d)
    ensures SameShape(m, Put(m, s, d, w))
  {
  }

  /** `capn_new_list64` and the loop that fills it. */
  method MakeFilled(m: Mem, values: seq<Word>, ghost a: Arena) returns (m': Mem, p: Ptr, ghost b: Arena)
    requires Inv(a) && Plain(a) && a.mem == m && m != [] && values != [] && R.NewList64(m, |values|).ptr.pos.Some?
    ensures Inv(b) && Plain(b) && b.mem == m' && Later(a, b) && |b.objs| == |a.objs| + 1
    ensures IsList(b, |a.objs|, values) && b.objs[|a.objs|] == p && !p.member
    ensures SameShape(R.NewList64(m, |values|).mem, m')
  {
    hide Inv;
    hide R.NewList64;
    hide Put;
    hide SameShape;
    ListAdded(a, |values|);
    var r := R.NewList64(m, |values|);
    m', p, b := r.mem, r.ptr, Step(a, MakeList(0, |values|, 8, 0));
    ghost var j := |a.objs|;
    ShapeSelf(m');
    var k := 0;
    while k < |values|
      invariant 0 <= k <= |values| && Inv(b) && b.mem == m' && b.objs == a.objs + [p] && |b.cells| == j + 1
      invariant b.cells[..j] == a.cells && |b.cells[j]| == |values|
      invariant forall i :: 0 <= i < |values| ==> b.cells[j][i] == Data(if i < k then values[i] else 0)
      invariant SameShape(r.mem, m')
    {
      StoreDone(b, j, k, values[k]);
      ShapePutSelf(m', p.seg.value, p.pos.value + k, values[k]);
      ShapeTrans(r.mem, m', Put(m', p.seg.value, p.pos.value + k, values[k]));
      m' := Put(m', p.seg.value, p.pos.value + k, values[k]);
      b := Step(b, Store(j, k, values[k]));
      k := k + 1;
    }
    assert forall i :: 0 <= i < j ==> b.cells[i] == b.cells[..j][i];
    FilledPlain(a, b, |values|);
  }

  lemma FilledPlain(a: Arena, b: Arena, n: nat)
    requires Plain(a) && Later(a, b) && |b.objs| == |a.objs| + 1
    requires forall i :: 0 <= i < |b.cells[|a.objs|]| ==> b.cells[|a.objs|][i].Data?
    ensures Plain(b)
  {
    forall k: nat, c: nat | HasCell(b, k, c) && b.cells[k][c].Link?
      ensures !b.cells[k][c].via.ByPad?
    {
      if k < |a.objs| {
        assert HasCell(a, k, c);
      }
    }
  }

  /** A list pointer as the writer holds it: null where there is none. */
  ghost predicate Held(a: Arena, js: seq<Option<nat>>, ps: seq<Ptr>, ls: seq<seq<Word>>) {
    && |js| == |ps| <= |ls|
    && forall i :: 0 <= i < |js| ==>
         if js[i].None? then ls[i] == [] && ps[i] == NULL
         else ls[i] != [] && IsList(a, js[i].value, ls[i]) && ps[i] == a.objs[js[i].value] && !ps[i].member
  }

  lemma ListLater(a: Arena, b: Arena, j: nat, values: seq<Word>)
    requires IsList(a, j, values) && Later(a, b)
    ensures IsList(b, j, values) && b.objs[j] == a.objs[j]
  {
  }

  lemma HeldLater(a: Arena, b: Arena, js: seq<Option<nat>>, ps: seq<Ptr>, ls: seq<seq<Word>>)
    requires Held(a, js, ps, ls) && Later(a, b)
    ensures Held(b, js, ps, ls)
  {
    forall i | 0 <= i < |js| && js[i].Some?
      ensures IsList(b, js[i].value, ls[i]) && ps[i] == b.objs[js[i].value]
    {
      ListLater(a, b, js[i].value, ls[i]);
    }
  }

  lemma HeldMore(a: Arena, js: seq<Option<nat>>, ps: seq<Ptr>, ls: seq<seq<Word>>, j: Option<nat>, p: Ptr)
    requires Held(a, js, ps, ls) && |js| < |ls|
    requires if j.None? then ls[|js|] == [] && p == NULL
             else ls[|js|] != [] && IsList(a, j.value, ls[|js|]) && p == a.objs[j.value] && !p.member
    ensures Held(a, js + [j], ps + [p], ls)
  {
    hide IsList;
  }

  lemma LaterTrans(a: Arena, b: Arena, c: Arena)
    requires Later(a, b) && Later(b, c)
    ensures Later(a, c)
  {
  }

  lemma LaterSelf(a: Arena)
    requires |a.cells| == |a.objs|
    ensures Later(a, a)
  {
  }

  function LengthsOf(ls: seq<seq<Word>>): (ns: seq<nat>)
    ensures |ns| == |ls| && forall i :: 0 <= i < |ls| ==> ns[i] == |ls[i]|
  {
    seq(|ls|, i requires 0 <= i < |ls| => |ls[i]|)
  }

  /** The allocations behind the forces, each filled before the next one. */
  method MakeLists(m: Mem, ls: seq<seq<Word>>, ghost a: Arena, ghost zeros: Mem)
    returns (m': Mem, ps: seq<Ptr>, ghost js: seq<Option<nat>>, ghost b: Arena)
    requires Inv(a) && Plain(a) && a.mem == m && m != [] && SameShape(zeros, m)
    requires |m| + |ls| < UINT32_MAX && forall i :: 0 <= i < |ls| ==> |ls[i]| <= 4096
    ensures Inv(b) && Plain(b) && b.mem == m' && Later(a, b) && |js| == |ps| == |ls| && Held(b, js, ps, ls)
    ensures zeros != [] && SameShape(R.Allocated(zeros, LengthsOf(ls)), m')
  {
    hide Inv;
    hide R.NewList64;
    hide SameShape;
    hide Held;
    hide Plain;
    hide IsList;
    hide R.Allocated;
    m', ps, js, b := m, [], [], a;
    InvCells(a);
    LaterSelf(a);
    ShapeSome(zeros, m);
    HeldNone(a, ls);
    ghost var z, ns := zeros, LengthsOf(ls);
    assert ns[0..] == ns;
    var i := 0;
    while i < |ls|
      invariant 0 <= i <= |ls| && |js| == |ps| == i && Inv(b) && Plain(b) && b.mem == m' && Later(a, b)
      invariant Held(b, js, ps, ls) && m' != [] && z != [] && SameShape(z, m') && |m'| <= |m| + i
      invariant R.Allocated(zeros, ns) == R.Allocated(z, ns[i..])
    {
      AllocatedStep(z, ns, i);
      if |ls[i]| == 0 {
        HeldMore(b, js, ps, ls, None, NULL);
        ps, js := ps + [NULL], js + [None];
      } else {
        R.RoomForList(m', |ls[i]|);
        R.ListCost(m', |ls[i]|);
        ShapeList(z, m', |ls[i]|);
        var p;
        ghost var c;
        ghost var was := m';
        m', p, c := MakeFilled(m', ls[i], b);
        ShapeTrans(R.NewList64(z, |ls[i]|).mem, R.NewList64(was, |ls[i]|).mem, m');
        ShapeSize(R.NewList64(was, |ls[i]|).mem, m');
        HeldLater(b, c, js, ps, ls);
        LaterTrans(a, b, c);
        HeldMore(c, js, ps, ls, Some(|b.objs|), p);
        z := R.NewList64(z, |ls[i]|).mem;
        ps, js, b := ps + [p], js + [Some(|b.objs|)], c;
        ShapeSome(z, m');
      }
      i := i + 1;
    }
    assert ns[i..] == [];
    AllocatedNone(z);
  }

  lemma InvCells(a: Arena)
    requires Inv(a)
    ensures |a.cells| == |a.objs|
  {
  }

  lemma HeldNone(a: Arena, ls: seq<seq<Word>>)
    ensures Held(a, [], [], ls)
  {
  }

  lemma ShapeSome(z: Mem, m: Mem)
    requires SameShape(z, m)
    ensures z == [] <==> m == []
  {
  }

  lemma ShapeSize(z: Mem, m: Mem)
    requires SameShape(z, m)
    ensures |z| == |m|
  {
  }

  lemma AllocatedStep(z: Mem, ns: seq<nat>, i: nat)
    requires z != [] && i < |ns|
    ensures R.NewList64(z, ns[i]).mem != []
    ensures R.Allocated(z, ns[i..])
         == if ns[i] == 0 then R.Allocated(z, ns[i + 1..]) else R.Allocated(R.NewList64(z, ns[i]).mem, ns[i + 1..])
  {
    hide R.NewList64;
    R.ListCost(z, ns[i]);
    assert ns[i..][1..] == ns[i + 1..] && ns[i..][0] == ns[i];
  }

  lemma AllocatedNone(z: Mem)
    requires z != []
    ensures R.Allocated(z, []) == z
  {
  }

  // ----- the result struct

  /** The pointer fields of `PotentialResult` that the writer sets, in the order of `Lists`, the forces in
      front. */
  const SLOTS: seq<nat> := [0, 13, 14, 15, 16, 2, 8, 9, 7]

  /** The message with its root slot and a `PotentialResult`: seven words of data, 17 pointers. */
  ghost predicate Fresh(a: Arena) {
    && Inv(a) && Plain(a) && |a.cells| == |a.objs| == 2 && a.mem != []
    && a.objs[0] == Ptr(PtrList, false, false, false, 0, 0, 1, Some(0), Some(0))
    && IsResult(a.objs[1]) && a.cells[0] == [Link(None, Near)]
    && a.cells[1] == seq(7, i => Data(0)) + seq(17, i => Link(None, Near))
  }

  predicate IsResult(p: Ptr) {
    p == Ptr(Struct, false, false, false, 56, 17, 0, Some(0), Some(1))
  }

  lemma StructIs(m: Mem)
    requires m == [Seg([0], 502)]
    ensures NewStruct(m, 0, 56, 17)
         == Made([Seg(Zeros(25), 502)], Ptr(Struct, false, false, false, 56, 17, 0, Some(0), Some(1)))
  {
    hide NewData;
    hide TagWord;
    assert Room(m[0], 24) && [0] + Zeros(24) == Zeros(25);
  }

  lemma BaseMade() returns (a: Arena)
    ensures Fresh(a) && a.mem == [Seg(Zeros(25), 502)] && R.Base(56, 17).Some?
    ensures R.Base(56, 17).value.mem == a.mem && R.Base(56, 17).value.ptr == a.objs[1]
  {
    hide NewData;
    hide NewStruct;
    hide Inv;
    R.FirstSegment();
    var z := Initial(502);
    InitialInv(502);
    assert Zeros(1) == [0];
    StructIs(z.mem);
    var op := MakeStruct(0, 56, 17);
    StepKeeps(z, op);
    a := Step(z, op);
    var p := Ptr(Struct, false, false, false, 56, 17, 0, Some(0), Some(1));
    assert Words(p) == 24;
    assert Blank(p) == seq(7, i => Data(0)) + seq(17, i => Link(None, Near));
  }

  /** A slot of the result is linked to a list: the struct and the list stay where they are. */
  lemma LinkDone(a: Arena, c: nat, j: nat, values: seq<Word>)
    requires Inv(a) && Plain(a) && IsList(a, j, values) && |a.objs| >= 2 && IsResult(a.objs[1])
    requires HasCell(a, 1, c) && a.cells[1][c].Link?
    ensures a.mem != [] && InMem(a.mem, 0, 1 + c) && Sized(a.mem)
    ensures var p, b := a.objs[j], Step(a, LinkTo(1, c, j));
      && p.datasz < TWO19 && p.ptrs < TWO16 && p.seg.Some? && p.seg.value < |a.mem|
      && WritePtr(a.mem, 0, 1 + c, p, false) == Wrote(b.mem) && SameShape(a.mem, b.mem)
      && Inv(b) && Plain(b) && b.objs == a.objs && |b.cells| == |a.cells|
      && (exists via :: b.cells == a.cells[1 := a.cells[1][c := Link(Some(j), via)]])
  {
    hide ReadPtr;
    hide TagWord;
    hide FarWord;
    hide Handle;
    InvLaid(a);
    InvCells(a);
    CellInMem(a, 1, c);
    LaidTarget(a, j);
    TargetBasics(a.mem, a.objs[j]);
    WroteWhen(a.mem, 0, 1 + c, a.objs[j]);
    StepKeeps(a, LinkTo(1, c, j));
    LinkPlain(a, c, j);
    DirectShape(a.mem, 1 + c, a.objs[j]);
  }

  lemma LinkPlain(a: Arena, c: nat, j: nat)
    requires Inv(a) && Plain(a) && HasCell(a, 1, c) && a.cells[1][c].Link? && j < |a.objs|
    requires a.objs[1].seg == Some(0) && (a.objs[j].seg == Some(0) || a.objs[j].hasTag)
    ensures Plain(Step(a, LinkTo(1, c, j)))
  {
    hide ReadPtr;
    hide WritePtr;
    hide Handle;
    hide Inv;
    InvLaid(a);
    CellInMem(a, 1, c);
    LaidTarget(a, j);
    TargetBasics(a.mem, a.objs[j]);
    var b := Step(a, LinkTo(1, c, j));
    forall k: nat, i: nat | HasCell(b, k, i) && b.cells[k][i].Link?
      ensures !b.cells[k][i].via.ByPad?
    {
      if (k, i) != (1, c) {
        assert HasCell(a, k, i) && b.cells[k][i] == a.cells[k][i];
      }
    }
  }

  lemma DirectShape(m: Mem, d: nat, p: Ptr)
    requires Sized(m) && InMem(m, 0, d) && Target(m, p) && (p.seg == Some(0) || p.hasTag)
    requires WritePtr(m, 0, d, p, false).Wrote?
    ensures SameShape(m, WritePtr(m, 0, d, p, false).mem)
  {
    hide TagWord;
    hide FarWord;
    TargetBasics(m, p);
  }

  /** The list that pointer field `slot` is to name, among the first `n`. */
  function Wanted(js: seq<Option<nat>>, n: nat, slot: nat): Option<nat>
    requires n <= |js| <= |SLOTS|
  {
    if n == 0 then None else if SLOTS[n - 1] == slot then js[n - 1] else Wanted(js, n - 1, slot)
  }

  /** The cells of the result once the first `n` pointer fields are set. */
  ghost predicate Wired(cells: seq<Cell>, js: seq<Option<nat>>, n: nat)
    requires n <= |js| <= |SLOTS|
  {
    && |cells| == 24 && (forall c :: 0 <= c < 7 ==> cells[c] == Data(0))
    && forall c :: 7 <= c < 24 ==> cells[c].Link? && cells[c].to == Wanted(js, n, c - 7)
  }

  lemma WiredMore(cells: seq<Cell>, js: seq<Option<nat>>, n: nat, via: Via)
    requires n < |js| <= |SLOTS| && Wired(cells, js, n)
    ensures Wired(cells[7 + SLOTS[n] := Link(js[n], via)], js, n + 1)
  {
    var after := cells[7 + SLOTS[n] := Link(js[n], via)];
    forall c | 7 <= c < 24
      ensures after[c].Link? && after[c].to == Wanted(js, n + 1, c - 7)
    {
      if c != 7 + SLOTS[n] {
        assert after[c] == cells[c];
      }
    }
  }

  /** The message while the fields are being set: only the cells of the result differ. */
  ghost predicate Setting(a: Arena, b: Arena) {
    && b.objs == a.objs && |b.cells| == |a.cells| == |a.objs| >= 2 && IsResult(a.objs[1])
    && forall k :: 0 <= k < |a.cells| && k != 1 ==> b.cells[k] == a.cells[k]
  }

  lemma SettingList(a: Arena, b: Arena, j: nat, values: seq<Word>)
    requires Setting(a, b) && IsList(a, j, values)
    ensures IsList(b, j, values)
  {
  }

  lemma UnlinkDone(a: Arena, c: nat)
    requires Inv(a) && Plain(a) && |a.objs| >= 2 && IsResult(a.objs[1]) && HasCell(a, 1, c) && a.cells[1][c].Link?
    ensures a.mem != [] && InMem(a.mem, 0, 1 + c)
    ensures var b := Step(a, Unlink(1, c));
      && Inv(b) && Plain(b) && b.mem == Put(a.mem, 0, 1 + c, 0) && b.objs == a.objs
      && b.cells == a.cells[1 := a.cells[1][c := Link(None, Near)]] && SameShape(a.mem, b.mem)
  {
    hide Inv;
    StepKeeps(a, Unlink(1, c));
    InvLaid(a);
    CellInMem(a, 1, c);
    ShapePutSelf(a.mem, 0, 1 + c, 0);
    var b := Step(a, Unlink(1, c));
    forall k: nat, i: nat | HasCell(b, k, i) && b.cells[k][i].Link?
      ensures !b.cells[k][i].via.ByPad?
    {
      if (k, i) != (1, c) {
        assert HasCell(a, k, i) && b.cells[k][i] == a.cells[k][i];
      }
    }
  }

  /** `write_PotentialResult` for the pointer fields: each slot gets its list, or a null word. */
  method LinkSlots(m: Mem, ps: seq<Ptr>, ghost js: seq<Option<nat>>, ghost ls: seq<seq<Word>>, ghost a: Arena)
    returns (m': Mem, ghost b: Arena)
    requires Inv(a) && Plain(a) && a.mem == m && Held(a, js, ps, ls) && |ps| == |ls| == 9
    requires |a.objs| >= 2 && |a.cells| == |a.objs| && IsResult(a.objs[1]) && Wired(a.cells[1], js, 0)
    requires m != [] && Sized(m) && |m[0].words| >= 25
    ensures Inv(b) && Plain(b) && b.mem == m' && Setting(a, b) && Wired(b.cells[1], js, 9) && SameShape(m, m')
  {
    hide Inv;
    hide Plain;
    hide IsList;
    hide WritePtr;
    hide SameShape;
    hide Put;
    m', b := m, a;
    ShapeSelf(m);
    var i := 0;
    while i < 9
      invariant 0 <= i <= 9 && Inv(b) && Plain(b) && b.mem == m' && Setting(a, b) && Wired(b.cells[1], js, i)
      invariant SameShape(m, m')
    {
      var c := 7 + SLOTS[i];
      assert b.cells[1][c].Link?;
      ghost var cells := b.cells[1];
      if ps[i] == NULL {
        NullHeld(a, js, ps, ls, i);
        UnlinkDone(b, c);
        ShapeTrans(m, m', Put(m', 0, 1 + c, 0));
        m' := Put(m', 0, 1 + c, 0);
        b := Step(b, Unlink(1, c));
        WiredMore(cells, js, i, Near);
      } else {
        ListHeld(a, js, ps, ls, i);
        ghost var j := js[i].value;
        SettingList(a, b, j, ls[i]);
        LinkDone(b, c, j, ls[i]);
        ghost var was := m';
        match WritePtr(m', 0, 1 + c, ps[i], false) {
          case Wrote(w) => m' := w;
          case _ =>
        }
        ShapeTrans(m, was, m');
        ghost var next := Step(b, LinkTo(1, c, j));
        ghost var via :| next.cells == b.cells[1 := b.cells[1][c := Link(Some(j), via)]];
        WiredMore(cells, js, i, via);
        b := next;
      }
      i := i + 1;
    }
  }

  lemma NullHeld(a: Arena, js: seq<Option<nat>>, ps: seq<Ptr>, ls: seq<seq<Word>>, i: nat)
    requires Held(a, js, ps, ls) && i < |js| && ps[i] == NULL
    ensures js[i].None?
  {
  }

  lemma ListHeld(a: Arena, js: seq<Option<nat>>, ps: seq<Ptr>, ls: seq<seq<Word>>, i: nat)
    requires Held(a, js, ps, ls) && i < |js| && ps[i] != NULL
    ensures js[i].Some? && IsList(a, js[i].value, ls[i]) && ps[i] == a.objs[js[i].value] && !ps[i].member
  {
  }

  // ----- what a reader finds

  /** The pointer slot at word `d` of the first segment reads as a list of these values, or as null when there are
      none. */
  ghost predicate Finds(m: Mem, d: nat, values: seq<Word>)
    requires m != []
  {
    var q := ReadPtr(m, 0, d);
    if values == [] then q.kind == Null
    else
      && q.kind == List && !q.composite && q.datasz == 8 && q.ptrs == 0 && q.len == |values|
      && q.seg.Some? && q.pos.Some? && q.seg.value < |m| && q.pos.value + |values| <= |m[q.seg.value].words|
      && forall k :: 0 <= k < |values| ==> m[q.seg.value].words[q.pos.value + k] == values[k]
  }

  /** Which parts are valid, one bit each; the last bit stands for a field that is true by default and is
      cleared. */
  function Flags(x: Snapshot): Word {
    var bit := (b: bool) => if b then 1 else 0;
    bit(x.energy.Some?) + 2 * bit(x.energy.Some? || x.charge.Some?) + 4 * bit(x.energy.Some? || x.multi.Some?)
    + 8 * bit(x.energy.Some? || x.md.Some?) + 16
  }

  /** The flags of the valid parts, from the lowest bit up: components, charges, states, trajectory row. */
  lemma FlagsAre(x: Snapshot)
    ensures Flags(x) % 2 == 1 <==> x.energy.Some?
    ensures Flags(x) / 2 % 2 == 1 <==> x.energy.Some? || x.charge.Some?
    ensures Flags(x) / 4 % 2 == 1 <==> x.energy.Some? || x.multi.Some?
    ensures Flags(x) / 8 % 2 == 1 <==> x.energy.Some? || x.md.Some?
    ensures Flags(x) / 16 == 1
  {
  }

  /** The message is the result: its root is a `PotentialResult` in the first segment, with the energy in its
      first word, the flags in its seventh, and every list in its own field; the other fields are unset. */
  ghost predicate HoldsResult(m: Mem, energy: Word, forces: seq<Word>, x: Snapshot)
    requires SnapshotOk(x)
  {
    && m != [] && |m[0].words| >= 25
    && (var q := ReadPtr(m, 0, 0);
        q.kind == Struct && q.datasz == 56 && q.ptrs == 17 && q.seg == Some(0) && q.pos == Some(1))
    && m[0].words[1] == energy && m[0].words[7] == Flags(x) && (forall i :: 2 <= i < 7 ==> m[0].words[i] == 0)
    && Finds(m, 8, forces)
    && Finds(m, 10, Dipole(x)) && Finds(m, 15, Stress(x)) && Finds(m, 16, Polarizability(x))
    && Finds(m, 17, Gradient(forces, x)) && Finds(m, 21, Components(x)) && Finds(m, 22, Charges(x))
    && Finds(m, 23, MultiState(x)) && Finds(m, 24, MdRow(x))
    && forall d :: d in {9, 11, 12, 13, 14, 18, 19, 20} ==> Finds(m, d, [])
  }

  /** The same words under other capacities: what a reader of the bytes has. */
  predicate SameWords(m: Mem, m': Mem) {
    |m| == |m'| && forall i :: 0 <= i < |m| ==> m[i].words == m'[i].words
  }

  lemma ReloadedLaid(a: Arena, m: Mem)
    requires Inv(a) && SameWords(a.mem, m) && Sized(m)
    ensures Laid(a.(mem := m))
  {
    hide TagWord;
  }

  /** A message whose links need no landing pad means the same under other capacities. */
  lemma Reloaded(a: Arena, m: Mem)
    requires Inv(a) && Plain(a) && SameWords(a.mem, m) && Sized(m)
    ensures Inv(a.(mem := m))
  {
    hide TagWord;
    hide FarWord;
    hide Laid;
    hide Target;
    ReloadedLaid(a, m);
    InvLaid(a);
    var b := a.(mem := m);
    forall k: nat, c: nat | HasCell(b, k, c)
      ensures CellOk(b, k, c)
    {
      assert CellOk(a, k, c);
      CellInMem(a, k, c);
      var cell := a.cells[k][c];
      if cell.Link? && cell.to.Some? {
        LaidTarget(a, cell.to.value);
        LaidTarget(b, cell.to.value);
        ReloadedLink(a.mem, m, a.objs[k].seg.value, a.objs[k].pos.value + c, a.objs[cell.to.value], cell.via, a.pads);
      }
    }
  }

  lemma ReloadedLink(m: Mem, m': Mem, s: nat, d: nat, p: Ptr, via: Via, pads: set<(nat, nat)>)
    requires Sized(m) && Sized(m') && SameWords(m, m') && InMem(m, s, d) && Target(m, p) && Target(m', p)
    requires LinkOk(m, s, d, p, via, pads) && !via.ByPad?
    ensures LinkOk(m', s, d, p, via, pads)
  {
    hide TagWord;
    hide Target;
    TargetBasics(m, p);
    TargetBasics(m', p);
  }

  lemma SlotFinds(a: Arena, c: nat, to: Option<nat>, values: seq<Word>)
    requires Inv(a) && |a.objs| >= 2 && IsResult(a.objs[1]) && HasCell(a, 1, c) && a.cells[1][c].Link?
    requires a.cells[1][c].to == to && if to.None? then values == [] else values != [] && IsList(a, to.value, values)
    ensures a.mem != [] && Finds(a.mem, 1 + c, values)
  {
    hide ReadPtr;
    hide Handle;
    InvLaid(a);
    CellInMem(a, 1, c);
    LinkReads(a, 1, c);
    if to.Some? {
      var j := to.value;
      LaidTarget(a, j);
      forall k | 0 <= k < |values|
        ensures InMem(a.mem, a.objs[j].seg.value, a.objs[j].pos.value + k)
        ensures a.mem[a.objs[j].seg.value].words[a.objs[j].pos.value + k] == values[k]
      {
        assert HasCell(a, j, k) && CellOk(a, j, k);
        CellInMem(a, j, k);
      }
      LastIn(a, j, values);
    }
  }

  lemma LastIn(a: Arena, j: nat, values: seq<Word>)
    requires Inv(a) && IsList(a, j, values) && values != []
    ensures a.objs[j].seg.Some? && a.objs[j].pos.Some? && a.objs[j].seg.value < |a.mem|
    ensures a.objs[j].pos.value + |values| <= |a.mem[a.objs[j].seg.value].words|
  {
    InvLaid(a);
    assert HasCell(a, j, |values| - 1);
    CellInMem(a, j, |values| - 1);
  }

  /** The finished message, with its fields wired to the lists. */
  ghost predicate Finished(a: Arena, energy: Word, forces: seq<Word>, x: Snapshot, js: seq<Option<nat>>, ps: seq<Ptr>)
    requires SnapshotOk(x)
  {
    && Inv(a) && Plain(a) && |a.cells| == |a.objs| >= 2
    && a.objs[0] == Ptr(PtrList, false, false, false, 0, 0, 1, Some(0), Some(0)) && IsResult(a.objs[1])
    && |a.cells[0]| == 1 && a.cells[0][0].Link? && a.cells[0][0].to == Some(1)
    && |js| == 9 && Held(a, js, ps, [forces] + Lists(forces, x))
    && |a.cells[1]| == 24 && a.cells[1][0] == Data(energy) && a.cells[1][6] == Data(Flags(x))
    && (forall c :: 1 <= c < 6 ==> a.cells[1][c] == Data(0))
    && forall c :: 7 <= c < 24 ==> a.cells[1][c].Link? && a.cells[1][c].to == Wanted(js, 9, c - 7)
  }

  lemma FinishedFinds(a: Arena, energy: Word, forces: seq<Word>, x: Snapshot, js: seq<Option<nat>>, ps: seq<Ptr>,
                      i: nat)
    requires SnapshotOk(x) && Finished(a, energy, forces, x, js, ps) && i < 9
    ensures a.mem != [] && Finds(a.mem, 8 + SLOTS[i], ([forces] + Lists(forces, x))[i])
  {
    hide Inv;
    hide Finds;
    hide IsList;
    var c := 7 + SLOTS[i];
    WantedIs(js, 9, i);
    SlotFinds(a, c, js[i], ([forces] + Lists(forces, x))[i]);
  }

  lemma {:induction false} WantedIs(js: seq<Option<nat>>, n: nat, i: nat)
    requires i < n <= |js| == 9
    ensures Wanted(js, n, SLOTS[i]) == js[i]
    decreases n
  {
    if i < n - 1 {
      assert SLOTS[n - 1] != SLOTS[i];
      WantedIs(js, n - 1, i);
    }
  }

  lemma {:induction false} WantedNone(js: seq<Option<nat>>, n: nat, slot: nat)
    requires n <= |js| == 9 && slot !in SLOTS
    ensures Wanted(js, n, slot) == None
    decreases n
  {
    if n > 0 {
      assert SLOTS[n - 1] in SLOTS;
      WantedNone(js, n - 1, slot);
    }
  }

  lemma FinishedUnset(a: Arena, energy: Word, forces: seq<Word>, x: Snapshot, js: seq<Option<nat>>, ps: seq<Ptr>,
                      d: nat)
    requires SnapshotOk(x) && Finished(a, energy, forces, x, js, ps) && d in {9, 11, 12, 13, 14, 18, 19, 20}
    ensures a.mem != [] && Finds(a.mem, d, [])
  {
    hide Inv;
    hide Finds;
    hide IsList;
    WantedNone(js, 9, d - 8);
    SlotFinds(a, d - 1, None, []);
  }

  lemma FinishedHolds(a: Arena, energy: Word, forces: seq<Word>, x: Snapshot, js: seq<Option<nat>>, ps: seq<Ptr>)
    requires SnapshotOk(x) && Finished(a, energy, forces, x, js, ps)
    ensures HoldsResult(a.mem, energy, forces, x)
  {
    hide Finds;
    hide ReadPtr;
    hide Handle;
    hide Finished;
    hide Lists;
    FinishedRoot(a, energy, forces, x, js, ps);
    FinishedFinds(a, energy, forces, x, js, ps, 0);
    FinishedFinds(a, energy, forces, x, js, ps, 1);
    FinishedFinds(a, energy, forces, x, js, ps, 2);
    FinishedFinds(a, energy, forces, x, js, ps, 3);
    FinishedFinds(a, energy, forces, x, js, ps, 4);
    FinishedFinds(a, energy, forces, x, js, ps, 5);
    FinishedFinds(a, energy, forces, x, js, ps, 6);
    FinishedFinds(a, energy, forces, x, js, ps, 7);
    FinishedFinds(a, energy, forces, x, js, ps, 8);
    ListsAre(forces, x);
    forall d | d in {9, 11, 12, 13, 14, 18, 19, 20}
      ensures Finds(a.mem, d, [])
    {
      FinishedUnset(a, energy, forces, x, js, ps, d);
    }
  }

  lemma ListsAre(forces: seq<Word>, x: Snapshot)
    requires SnapshotOk(x)
    ensures var all := [forces] + Lists(forces, x);
      && all[0] == forces && all[1] == Components(x) && all[2] == Charges(x) && all[3] == MultiState(x)
      && all[4] == MdRow(x) && all[5] == Dipole(x) && all[6] == Polarizability(x) && all[7] == Gradient(forces, x)
      && all[8] == Stress(x)
  {
  }

  lemma FinishedRoot(a: Arena, energy: Word, forces: seq<Word>, x: Snapshot, js: seq<Option<nat>>, ps: seq<Ptr>)
    requires SnapshotOk(x) && Finished(a, energy, forces, x, js, ps)
    ensures a.mem != [] && |a.mem[0].words| >= 25
    ensures var q := ReadPtr(a.mem, 0, 0);
      q.kind == Struct && q.datasz == 56 && q.ptrs == 17 && q.seg == Some(0) && q.pos == Some(1)
    ensures a.mem[0].words[1] == energy && a.mem[0].words[7] == Flags(x)
    ensures forall i :: 2 <= i < 7 ==> a.mem[0].words[i] == 0
  {
    hide ReadPtr;
    hide Handle;
    InvLaid(a);
    LinkReads(a, 0, 0);
    CellInMem(a, 1, 23);
    forall c: nat | c < 7
      ensures InMem(a.mem, 0, 1 + c) && a.cells[1][c].Data? && a.mem[0].words[1 + c] == a.cells[1][c].w
    {
      CellInMem(a, 1, c);
      assert CellOk(a, 1, c);
    }
    forall i | 2 <= i < 7
      ensures a.mem[0].words[i] == 0
    {
      var c: nat := i - 1;
      assert a.mem[0].words[1 + c] == a.cells[1][c].w;
    }
  }

  // ----- the writer

  /** Data word `c` of the result. */
  lemma FieldDone(a: Arena, c: nat, w: Word)
    requires Inv(a) && Plain(a) && |a.objs| >= 2 && IsResult(a.objs[1]) && HasCell(a, 1, c) && a.cells[1][c].Data?
    ensures a.mem != [] && InMem(a.mem, 0, 1 + c)
    ensures var b := Step(a, Store(1, c, w));
      && Inv(b) && Plain(b) && b.mem == Put(a.mem, 0, 1 + c, w) && b.objs == a.objs
      && b.cells == a.cells[1 := a.cells[1][c := Data(w)]] && SameShape(a.mem, b.mem)
  {
    hide Inv;
    StoreDone(a, 1, c, w);
    ShapePutSelf(a.mem, 0, 1 + c, w);
    var b := Step(a, Store(1, c, w));
    forall k: nat, i: nat | HasCell(b, k, i) && b.cells[k][i].Link?
      ensures !b.cells[k][i].via.ByPad?
    {
      if (k, i) != (1, c) {
        assert HasCell(a, k, i) && b.cells[k][i] == a.cells[k][i];
      }
    }
  }

  /** `capn_setp(capn_root(&arena), 0, result.p)`: the result lies in the segment of the root slot. */
  lemma RootDone(a: Arena)
    requires Inv(a) && Plain(a) && |a.cells| == |a.objs| >= 2 && IsResult(a.objs[1])
    requires a.objs[0] == Ptr(PtrList, false, false, false, 0, 0, 1, Some(0), Some(0))
    requires |a.cells[0]| == 1 && a.cells[0][0].Link?
    ensures a.mem != [] && InMem(a.mem, 0, 0) && Sized(a.mem)
    ensures var b := Step(a, LinkTo(0, 0, 1));
      && WritePtr(a.mem, 0, 0, a.objs[1], false) == Wrote(b.mem) && SameShape(a.mem, b.mem)
      && Inv(b) && Plain(b) && b.objs == a.objs && b.cells == a.cells[0 := [Link(Some(1), Near)]]
  {
    hide ReadPtr;
    hide TagWord;
    hide FarWord;
    hide Handle;
    InvLaid(a);
    CellInMem(a, 0, 0);
    LaidTarget(a, 1);
    TargetBasics(a.mem, a.objs[1]);
    WroteWhen(a.mem, 0, 0, a.objs[1]);
    StepKeeps(a, LinkTo(0, 0, 1));
    DirectShape(a.mem, 0, a.objs[1]);
    var b := Step(a, LinkTo(0, 0, 1));
    assert b.cells[0] == [Link(Some(1), Near)];
    forall k: nat, i: nat | HasCell(b, k, i) && b.cells[k][i].Link?
      ensures !b.cells[k][i].via.ByPad?
    {
      if k != 0 {
        assert HasCell(a, k, i) && b.cells[k][i] == a.cells[k][i];
      }
    }
  }

  /** The forces and the lists behind them. */
  method MakeAll(forces: seq<Word>, x: Snapshot)
    returns (ok: bool, m: Mem, ps: seq<Ptr>, ghost js: seq<Option<nat>>, ghost a: Arena)
    requires SnapshotOk(x) && |forces| <= INT_MAX
    ensures ok <==> R.Arena(56, 17, |forces|, Outline(x)).Some?
    ensures ok ==>
      && Inv(a) && Plain(a) && a.mem == m && |a.cells| == |a.objs| >= 2 && IsResult(a.objs[1])
      && a.objs[0] == Ptr(PtrList, false, false, false, 0, 0, 1, Some(0), Some(0))
      && a.cells[0] == [Link(None, Near)] && a.cells[1] == seq(7, i => Data(0)) + seq(17, i => Link(None, Near))
      && |js| == |ps| == 9 && Held(a, js, ps, [forces] + Lists(forces, x))
      && SameShape(R.Arena(56, 17, |forces|, Outline(x)).value, m)
  {
    hide Inv;
    hide Plain;
    hide IsList;
    hide R.NewList64;
    hide R.Allocated;
    hide Lists;
    hide SameShape;
    ghost var base := BaseMade();
    m, ps, js, a, ok := R.Base(56, 17).value.mem, [NULL], [None], base, false;
    ghost var zeros := m;
    ShapeSelf(m);
    LaterSelf(base);
    if |forces| > 0 {
      ListNull(m, |forces|);
      if R.NewList64(m, |forces|).ptr.kind == Null {
        return;
      }
      R.ListCost(m, |forces|);
      var p;
      zeros := R.NewList64(m, |forces|).mem;
      m, p, a := MakeFilled(m, forces, base);
      ps, js := [p], [Some(2)];
      ShapeSize(zeros, m);
    } else {
      R.NoList(m);
    }
    ghost var base1 := a;
    var qs;
    ghost var ks;
    ListLengths(forces, x);
    m, qs, ks, a := MakeLists(m, Lists(forces, x), base1, zeros);
    assert LengthsOf(Lists(forces, x)) == R.Lengths(|forces|, Outline(x));
    LaterTrans(base, base1, a);
    FirstHeld(base1, a, forces, Lists(forces, x), js, ps, ks, qs);
    ps, js, ok := ps + qs, js + ks, true;
  }

  lemma ListNull(m: Mem, n: nat)
    requires m != [] && 0 < n <= INT_MAX
    ensures R.NewList64(m, n).ptr.kind == Null <==> R.NewList64(m, n).ptr.pos.None?
  {
    hide NewObject;
    assert Times(n, 8) == 8 * n;
    if 8 * n <= INT_MAX {
      R.NullUnplaced(m, Ptr(List, false, false, false, 8, 0, n, Some(0), None), 8 * n);
    }
  }

  lemma FirstHeld(a: Arena, b: Arena, forces: seq<Word>, ls: seq<seq<Word>>, js: seq<Option<nat>>, ps: seq<Ptr>,
                  ks: seq<Option<nat>>, qs: seq<Ptr>)
    requires Later(a, b) && Held(b, ks, qs, ls) && |ks| == |ls| && |js| == |ps| == 1
    requires if forces == [] then js == [None] && ps == [NULL]
             else js == [Some(2)] && IsList(a, 2, forces) && ps == [a.objs[2]] && !ps[0].member
    ensures Held(b, js + ks, ps + qs, [forces] + ls)
  {
    if forces != [] {
      ListLater(a, b, 2, forces);
    }
    hide IsList;
    var all, js', ps' := [forces] + ls, js + ks, ps + qs;
    forall i | 0 <= i < |js'|
      ensures if js'[i].None? then all[i] == [] && ps'[i] == NULL
              else all[i] != [] && IsList(b, js'[i].value, all[i]) && js'[i].value < |b.objs|
                   && ps'[i] == b.objs[js'[i].value] && !ps'[i].member
    {
      if i > 0 {
        assert js'[i] == ks[i - 1] && ps'[i] == qs[i - 1] && all[i] == ls[i - 1];
        InObjs(b, ks, qs, ls, i - 1);
      }
    }
    HeldIs(b, js', ps', all);
  }

  lemma InObjs(a: Arena, js: seq<Option<nat>>, ps: seq<Ptr>, ls: seq<seq<Word>>, i: nat)
    requires Held(a, js, ps, ls) && i < |js|
    ensures js[i].Some? ==> js[i].value < |a.objs|
  {
  }

  lemma HeldIs(a: Arena, js: seq<Option<nat>>, ps: seq<Ptr>, ls: seq<seq<Word>>)
    requires |js| == |ps| <= |ls|
    requires forall i :: 0 <= i < |js| ==>
      if js[i].None? then ls[i] == [] && ps[i] == NULL
      else ls[i] != [] && IsList(a, js[i].value, ls[i]) && js[i].value < |a.objs|
           && ps[i] == a.objs[js[i].value] && !ps[i].member
    ensures Held(a, js, ps, ls)
  {
    hide IsList;
  }

  /** The message of a result. */
  method Build(energy: Word, forces: seq<Word>, x: Snapshot) returns (r: Option<Mem>, ghost a: Arena)
    requires SnapshotOk(x) && |forces| <= INT_MAX
    ensures r.Some? <==> R.Arena(56, 17, |forces|, Outline(x)).Some?
    ensures r.Some? ==> SameShape(R.Arena(56, 17, |forces|, Outline(x)).value, r.value)
    ensures r.Some? ==> Sized(r.value) && a.mem == r.value && Inv(a) && Plain(a)
    ensures r.Some? ==> exists js, ps :: Finished(a, energy, forces, x, js, ps)
  {
    hide Inv;
    hide Plain;
    hide IsList;
    hide R.Arena;
    hide Lists;
    hide SameShape;
    hide WritePtr;
    hide Put;
    var ok, m, ps;
    ghost var js;
    ok, m, ps, js, a := MakeAll(forces, x);
    if !ok {
      return None, a;
    }
    ghost var was := m;
    ghost var zeros := R.Arena(56, 17, |forces|, Outline(x)).value;
    InvLaid(a);
    CellInMem(a, 1, 23);
    ghost var b;
    WiredNone(js);
    m, b := LinkSlots(m, ps, js, [forces] + Lists(forces, x), a);
    HeldSetting(a, b, js, ps, [forces] + Lists(forces, x));
    FieldDone(b, 0, energy);
    ShapeTrans(zeros, was, m);
    was := m;
    m := Put(m, 0, 1, energy);
    ShapeTrans(zeros, was, m);
    b := Step(b, Store(1, 0, energy));
    FieldDone(b, 6, Flags(x));
    was := m;
    m := Put(m, 0, 7, Flags(x));
    ShapeTrans(zeros, was, m);
    b := Step(b, Store(1, 6, Flags(x)));
    RootDone(b);
    was := m;
    match WritePtr(m, 0, 0, Ptr(Struct, false, false, false, 56, 17, 0, Some(0), Some(1)), false) {
      case Wrote(w) => m := w;
      case _ =>
    }
    ShapeTrans(zeros, was, m);
    ghost var c := Step(b, LinkTo(0, 0, 1));
    HeldSetting(a, c, js, ps, [forces] + Lists(forces, x));
    InvLaid(c);
    r, a := Some(m), c;
    assert Finished(c, energy, forces, x, js, ps);
  }

  lemma WiredNone(js: seq<Option<nat>>)
    requires |js| == 9
    ensures Wired(seq(7, i => Data(0)) + seq(17, i => Link(None, Near)), js, 0)
  {
  }

  lemma HeldSetting(a: Arena, b: Arena, js: seq<Option<nat>>, ps: seq<Ptr>, ls: seq<seq<Word>>)
    requires Held(a, js, ps, ls) && b.objs == a.objs && |b.cells| == |a.cells| == |a.objs| >= 2
    requires a.objs[0].kind != List && a.objs[1].kind != List
    requires forall k :: 2 <= k < |a.cells| ==> b.cells[k] == a.cells[k]
    ensures Held(b, js, ps, ls)
  {
    forall i | 0 <= i < |js| && js[i].Some?
      ensures IsList(b, js[i].value, ls[i])
    {
    }
  }

  /** `cpmdc_potential_result_write`: the size of the frame, or -1.  A reader of the frame, whatever stands behind
      it in the buffer, finds the result. */
  method WriteResult(energy: Word, forces: seq<Word>, x: Snapshot, p: array<Frame.Byte>) returns (r: int)
    requires SnapshotOk(x)
    modifies p
    ensures r == R.WrittenSize(56, 17, |forces|, Outline(x), p.Length)
    ensures r >= 0 && r == R.SerializedSize(R.Arena(56, 17, |forces|, Outline(x)).value) ==>
      && Frame.Read(p[..]).Some? && HoldsResult(Frame.Read(p[..]).value, energy, forces, x)
      && p[r..] == old(p[r..])
  {
    hide R.Arena;
    hide Inv;
    hide Plain;
    hide Finished;
    hide HoldsResult;
    hide Frame.Read;
    hide Frame.Written;
    hide SameShape;
    hide R.SerializedSize;
    hide Frame.Framed;
    hide Outline;
    if |forces| > INT_MAX || p.Length < R.FlatSize(|forces|) {
      return -1;
    }
    var built;
    ghost var a;
    built, a := Build(energy, forces, x);
    match built
    case None =>
      return -1;
    case Some(m) =>
      ghost var js: seq<Option<nat>>, ps: seq<Ptr> :| Finished(a, energy, forces, x, js, ps);
      FinishedRoot(a, energy, forces, x, js, ps);
      SizeIs(R.Arena(56, 17, |forces|, Outline(x)).value, m);
      r := Frame.WriteMem(m, p);
      WrittenIs(m, p.Length);
      if r >= 0 && R.SerializedSize(m) <= p.Length && r == R.SerializedSize(m) {
        FrameHolds(a, m, energy, forces, x, js, ps, p[..], r);
      }
      if r < 0 {
        r := -1;
      }
  }

  lemma FrameHolds(a: Arena, m: Mem, energy: Word, forces: seq<Word>, x: Snapshot, js: seq<Option<nat>>, ps: seq<Ptr>,
                   b: seq<Frame.Byte>, n: int)
    requires SnapshotOk(x) && Finished(a, energy, forces, x, js, ps) && a.mem == m && |forces| <= INT_MAX
    requires R.Arena(56, 17, |forces|, Outline(x)).Some? && SameShape(R.Arena(56, 17, |forces|, Outline(x)).value, m)
    requires m != [] && 0 <= n <= |b| && n == R.SerializedSize(m) <= INT_MAX && b[..n] == Frame.Framed(m)
    ensures Frame.Read(b).Some? && HoldsResult(Frame.Read(b).value, energy, forces, x)
  {
    hide R.Arena;
    hide Finished;
    hide HoldsResult;
    hide Frame.Read;
    hide SameShape;
    hide R.SerializedSize;
    hide Frame.Framed;
    FewSegments(|forces|, x, m);
    ReaderHolds(a, m, energy, forces, x, js, ps, |b|, b[n..]);
    assert b == b[..n] + b[n..];
  }

  lemma SizeIs(z: Mem, m: Mem)
    requires SameShape(z, m)
    ensures R.SerializedSize(m) == R.SerializedSize(z)
  {
    ShapeHeld(z, m);
  }

  lemma FewSegments(n: nat, x: Snapshot, m: Mem)
    requires n <= INT_MAX && R.Arena(56, 17, n, Outline(x)).Some?
    requires SameShape(R.Arena(56, 17, n, Outline(x)).value, m)
    ensures 1 <= |m| <= 10
  {
    hide R.Arena;
    R.BoundExact(56, 17, n, Outline(x));
  }

  /** What `capn_write_mem` does with a message that has words. */
  lemma WrittenIs(m: Mem, room: nat)
    requires Sized(m) && m != [] && |m[0].words| > 0
    ensures Frame.Written(m, room) == if room < R.SerializedSize(m) then None else Some(Frame.Framed(m))
    ensures |Frame.Framed(m)| == R.SerializedSize(m) && Frame.Rooted(m) == Some(m)
  {
    R.HeldTotal(m);
  }

  /** The frame is read back as the same words, in which the result is found. */
  lemma ReaderHolds(a: Arena, m: Mem, energy: Word, forces: seq<Word>, x: Snapshot, js: seq<Option<nat>>, ps: seq<Ptr>,
                    room: nat, tail: seq<Frame.Byte>)
    requires SnapshotOk(x) && Finished(a, energy, forces, x, js, ps) && a.mem == m && 1 <= |m| <= 10
    requires R.SerializedSize(m) <= INT_MAX
    ensures Frame.Read(Frame.Framed(m) + tail).Some?
    ensures HoldsResult(Frame.Read(Frame.Framed(m) + tail).value, energy, forces, x)
  {
    hide HoldsResult;
    hide Frame.Framed;
    hide Frame.Read;
    InvLaid(a);
    R.HeldTotal(m);
    Frame.ReadFramed(m, tail);
    var full := Frame.Full(m);
    FullSized(m);
    Reloaded(a, full);
    var b := a.(mem := full);
    FinishedAgain(a, b, energy, forces, x, js, ps);
    FinishedHolds(b, energy, forces, x, js, ps);
  }

  lemma FullSized(m: Mem)
    requires Sized(m)
    ensures Sized(Frame.Full(m)) && SameWords(m, Frame.Full(m))
  {
  }

  lemma FinishedAgain(a: Arena, b: Arena, energy: Word, forces: seq<Word>, x: Snapshot, js: seq<Option<nat>>,
                      ps: seq<Ptr>)
    requires SnapshotOk(x) && Finished(a, energy, forces, x, js, ps) && Inv(b)
    requires b.objs == a.objs && b.cells == a.cells
    ensures Finished(b, energy, forces, x, js, ps)
  {
    hide Inv;
    forall k: nat, c: nat | HasCell(b, k, c) && b.cells[k][c].Link?
      ensures !b.cells[k][c].via.ByPad?
    {
      assert HasCell(a, k, c);
    }
    HeldSame(a, b, js, ps, [forces] + Lists(forces, x));
  }

  lemma HeldSame(a: Arena, b: Arena, js: seq<Option<nat>>, ps: seq<Ptr>, ls: seq<seq<Word>>)
    requires Held(a, js, ps, ls) && b.objs == a.objs && b.cells == a.cells
    ensures Held(b, js, ps, ls)
  {
  }
}
