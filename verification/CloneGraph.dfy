/** What a deep copy knows while it is under way: which destination objects are clones of which source
    objects, which cells are still to be copied, and why finished clones have the same value. */
module CloneGraph {
  import opened SegmentTable
  import opened Options
  import opened Pointers
  import opened ObjectGraph
  import L = LittleEndian

  // ----- values

  /** A pointer without the marks of how it was obtained. */
  function Bare(p: Ptr): Ptr {
    p.(hasTag := false, member := false)
  }

  /** Null, or a struct without content, which is written as null. */
  predicate Nil(p: Ptr) {
    p.kind == Null || (p.kind == Struct && p.datasz == 0 && p.ptrs == 0)
  }

  /** The same type and sizes.  A composite list of 8-byte elements counts as a plain one. */
  predicate Alike(q: Ptr, r: Ptr) {
    && q.kind == r.kind && q.len == r.len && q.datasz == r.datasz && q.ptrs == r.ptrs
    && (q.composite == r.composite || (q.ptrs == 0 && q.datasz == 8))
  }

  lemma Remainder(w: int, p: int)
    requires w >= 0 && p > 0
    ensures 0 <= w % p <= w && w % p % p == w % p
  {
  }

  /** The first `n` bytes of a little-endian word, zeros behind them. */
  function LowBytes(w: Word, n: int): Word {
    if n >= 8 then w else if n <= 0 then 0 else
      hide L.Pow256;
      Remainder(w, L.Pow256(n));
      w % L.Pow256(n)
  }

  lemma LowBytesTwice(w: Word, n: int)
    ensures LowBytes(LowBytes(w, n), n) == LowBytes(w, n)
  {
    hide L.Pow256;
    if 0 < n < 8 {
      Remainder(w, L.Pow256(n));
    }
  }

  /** Word `c` of an object, as far as it belongs to the object. */
  function DataWord(m: Mem, p: Ptr, c: nat): Word
    requires p.seg.Some? && p.pos.Some?
  {
    LowBytes(WordAt(m, p.seg.value, p.pos.value + c), Bytes(p) - 8 * c)
  }

  predicate Backed(m: Mem, p: Ptr) {
    p.seg.Some? && p.pos.Some? && p.seg.value < |m|
  }

  /** What slot `c` of an object resolves to. */
  function SlotPtr(m: Mem, p: Ptr, c: nat): Ptr
    requires Backed(m, p)
  {
    ReadPtr(m, p.seg.value, p.pos.value + c)
  }

  /** Two pointers have the same value down to depth `n`. */
  ghost predicate Equal(n: nat, m: Mem, q: Ptr, m': Mem, r: Ptr) {
    if Nil(q) || Nil(r) then Nil(q) && Nil(r)
    else
      && Alike(q, r) && Backed(m, q) && Backed(m', r)
      && forall c: nat {:trigger IsSlot(q, c)} :: c < Words(q) ==>
           && IsSlot(q, c) == IsSlot(r, c)
           && if IsSlot(q, c) then n == 0 || Equal(n - 1, m, SlotPtr(m, q, c), m', SlotPtr(m', r, c))
              else DataWord(m, q, c) == DataWord(m', r, c)
  }

  // ----- the source

  /** What `read_ptr` gives back is nil or names an object inside its segment. */
  lemma ReadSource(m: Mem, s: nat, d: nat)
    requires s < |m|
    ensures var q := ReadPtr(m, s, d);
      && (q.seg.Some? ==> q.seg.value < |m|)
      && if Nil(q) then q.datasz == 0 && q.ptrs == 0 && !q.composite else Target(m, Bare(q))
  {
    hide ReadStruct;
    hide ReadList;
    hide Target;
    if d < |m[s].words| {
      var h := Chase(m, s, d);
      if h.seg.Some? && h.seg.value < |m| && h.at.0 == h.seg.value && 0 <= h.at.1 <= |m[h.seg.value].words| {
        var g := h.seg.value;
        var pos := h.at.1 + Signed(Field(h.val)) + 1;
        if 0 <= pos <= |m[g].words| {
          if h.val % 4 == 0 {
            StructSource(m, g, pos, h.val, h.tagged);
          } else if h.val % 4 == 1 {
            ListSource(m, g, pos, h.val, h.tagged);
          }
        }
      }
    }
  }

  lemma StructSource(m: Mem, g: nat, pos: nat, val: Word, tagged: bool)
    requires g < |m| && pos <= |m[g].words|
    ensures var q := ReadStruct(BytesLeft(m, g, pos), g, pos, val, tagged);
      && (q.seg.Some? ==> q.seg.value < |m|)
      && if Nil(q) then q.datasz == 0 && q.ptrs == 0 && !q.composite else Target(m, Bare(q))
  {
  }

  lemma ListSource(m: Mem, g: nat, pos: nat, val: Word, tagged: bool)
    requires g < |m| && pos <= |m[g].words|
    ensures var q := ReadList(BytesLeft(m, g, pos), WordAt(m, g, pos), g, pos, val, tagged);
      && (q.seg.Some? ==> q.seg.value < |m|)
      && if Nil(q) then q.datasz == 0 && q.ptrs == 0 && !q.composite else Target(m, Bare(q))
  {
    hide Times;
    if Hi(val) % 8 == 7 {
      hide Target;
      CompositeSource(m, g, pos, Hi(val) / 8, tagged);
    } else {
      UnitTimes(Hi(val) / 8);
    }
  }

  lemma CompositeSource(m: Mem, g: nat, pos: nat, len: nat, tagged: bool)
    requires g < |m| && pos <= |m[g].words| && len < TWO29
    ensures var q := ReadComposite(BytesLeft(m, g, pos), WordAt(m, g, pos), g, pos, len, tagged);
      && (q.seg.Some? ==> q.seg.value < |m|)
      && if Nil(q) then q.datasz == 0 && q.ptrs == 0 && !q.composite else Target(m, Bare(q))
  {
    hide Times;
    var q := ReadComposite(BytesLeft(m, g, pos), WordAt(m, g, pos), g, pos, len, tagged);
    Scale(q.len, q.datasz / 8, q.ptrs);
  }

  /** `capn_resolve`. */
  function Resolve(m: Mem, p: Ptr): Ptr {
    if p.kind != FarPointer then p
    else if !Backed(m, p) then NULL
    else ReadPtr(m, p.seg.value, p.pos.value)
  }

  lemma Resolved(m: Mem, p: Ptr)
    requires p.datasz < TWO19 && p.ptrs < TWO16
    ensures var r := Resolve(m, p);
      && r.datasz < TWO19 && r.ptrs < TWO16
      && (p.kind != FarPointer ==> r == p)
      && (p.kind == FarPointer ==> (r.seg.Some? ==> r.seg.value < |m|) && (Nil(r) || Target(m, Bare(r))))
  {
    hide ReadPtr;
    if p.kind == FarPointer && Backed(m, p) {
      ReadSource(m, p.seg.value, p.pos.value);
    }
  }

  /** Aligned pieces of source memory as address ranges: segments are separate allocations. */
  ghost predicate Placed(src: Mem, layout: seq<int>) {
    && Sized(src) && |layout| == |src|
    && forall i, j :: 0 <= i < |src| && 0 <= j < |src| && i != j ==>
         layout[i] + 8 * src[i].cap <= layout[j] || layout[j] + 8 * src[j].cap <= layout[i]
  }

  /** `data_size`. */
  function Span(p: Ptr): int {
    Bytes(p) + if p.composite then 8 else 0
  }

  function Address(layout: seq<int>, p: Ptr): int
    requires p.seg.Some? && p.pos.Some? && p.seg.value < |layout|
  {
    layout[p.seg.value] + 8 * p.pos.value
  }

  function Begin(layout: seq<int>, p: Ptr): int
    requires p.seg.Some? && p.pos.Some? && p.seg.value < |layout|
  {
    layout[p.seg.value] + 8 * Start(p)
  }

  /** `is_ptr_equal`. */
  predicate PtrEqual(layout: seq<int>, p: Ptr, q: Ptr)
    requires p.seg.Some? && p.pos.Some? && p.seg.value < |layout|
    requires q.seg.Some? && q.pos.Some? && q.seg.value < |layout|
  {
    Address(layout, p) == Address(layout, q)
    && p.kind == q.kind && p.len == q.len && p.datasz == q.datasz && p.ptrs == q.ptrs
  }

  /** The same object, but for the composite mark. */
  predicate Names(q: Ptr, o: Ptr) {
    q.seg == o.seg && q.pos == o.pos && q.kind == o.kind && q.len == o.len && q.datasz == o.datasz && q.ptrs == o.ptrs
  }

  /** Overlapping pointers that compare equal name the same object. */
  lemma EqualNames(src: Mem, layout: seq<int>, p: Ptr, q: Ptr)
    requires Placed(src, layout) && Target(src, p) && Target(src, q)
    requires Begin(layout, p) < Begin(layout, q) + Span(q) && Begin(layout, q) < Begin(layout, p) + Span(p)
    requires PtrEqual(layout, p, q)
    ensures Names(p, q)
  {
    BytesPositive(p);
    BytesPositive(q);
    hide Bytes;
    hide Shape;
  }

  lemma NamesAlike(src: Mem, q: Ptr, o: Ptr, r: Ptr)
    requires Target(src, q) && Target(src, o) && Names(q, o) && Alike(o, r) && Bytes(o) > 0
    ensures Alike(q, r) && Words(q) == Words(o) && Bytes(q) == Bytes(o)
  {
    hide Times;
    ScaleOne(q.len);
  }

  lemma ScaleOne(n: int)
    ensures Times(n, 8) == 8 * Times(n, 1) && Times(n, 0) == 0
  {
  }

  lemma AlikeSlots(q: Ptr, r: Ptr)
    requires Alike(q, r) && Shape(q)
    ensures Bytes(q) == Bytes(r) && forall c: nat :: IsSlot(q, c) == IsSlot(r, c)
  {
    hide Times;
    ScaleOne(q.len);
  }

  // ----- what the copy knows

  /** The destination, and for each of its last objects the source object it is a clone of. */
  datatype View = View(a: Arena, origin: seq<Ptr>)

  function First(v: View): int {
    |v.a.objs| - |v.origin|
  }

  function Origin(v: View, k: nat): Ptr
    requires First(v) <= k < |v.a.objs|
  {
    v.origin[k - First(v)]
  }

  ghost predicate Origins(v: View, src: Mem) {
    && First(v) >= 0
    && forall k: nat {:trigger v.a.objs[k]} :: First(v) <= k < |v.a.objs| ==>
         Target(src, Origin(v, k)) && Bytes(Origin(v, k)) > 0 && Alike(Origin(v, k), v.a.objs[k])
  }

  /** The cell is null for a nil source pointer, and links to the clone of what another one names. */
  ghost predicate Stands(v: View, q: Ptr, cell: Cell) {
    && cell.Link?
    && if cell.to.None? then Nil(q)
       else First(v) <= cell.to.value < |v.a.objs| && !Nil(q) && Names(q, Origin(v, cell.to.value))
  }

  ghost predicate Settled(v: View, src: Mem, k: nat, c: nat)
    requires Origins(v, src) && First(v) <= k < |v.a.objs| && HasCell(v.a, k, c)
  {
    var cell := v.a.cells[k][c];
    assert v.a.objs[k] == v.a.objs[k];
    if cell.Data? then cell.w == DataWord(src, Origin(v, k), c) else Stands(v, SlotPtr(src, Origin(v, k), c), cell)
  }

  /** Cells of an object that are still to be copied. */
  datatype Range = Range(obj: nat, lo: nat, hi: nat)

  predicate In(r: Range, k: nat, c: nat) {
    r.obj == k && r.lo <= c < r.hi
  }

  ghost predicate Covered(todo: seq<Range>, k: nat, c: nat) {
    exists i :: 0 <= i < |todo| && In(todo[i], k, c)
  }

  /** Every cell of every clone is settled, or still empty and in some range to be copied. */
  ghost predicate Cloned(v: View, src: Mem, todo: seq<Range>)
    requires Origins(v, src)
  {
    forall k: nat, c: nat :: First(v) <= k < |v.a.objs| && HasCell(v.a, k, c) ==>
      Settled(v, src, k, c) || (Covered(todo, k, c) && (v.a.cells[k][c].Link? ==> v.a.cells[k][c].to == None))
  }

  /** The graph invariant of the destination, and the state of the clones. */
  ghost predicate Good(v: View, src: Mem, todo: seq<Range>) {
    Sized(src) && Inv(v.a) && Origins(v, src) && Cloned(v, src, todo)
  }

  /** Only cells of one range differ. */
  ghost predicate Only(v: View, v': View, r: Range) {
    && v'.origin == v.origin && v'.a.objs == v.a.objs
    && (forall k: nat, c: nat :: HasCell(v.a, k, c) <==> HasCell(v'.a, k, c))
    && (forall k: nat, c: nat :: HasCell(v.a, k, c) && !In(r, k, c) ==> v'.a.cells[k][c] == v.a.cells[k][c])
  }

  ghost predicate SettledAll(v: View, src: Mem, r: Range)
    requires Origins(v, src)
  {
    forall c: nat :: First(v) <= r.obj < |v.a.objs| && HasCell(v.a, r.obj, c) && In(r, r.obj, c) ==>
      Settled(v, src, r.obj, c)
  }

  lemma OriginsSame(v: View, v': View, src: Mem)
    requires Origins(v, src) && v'.origin == v.origin && v'.a.objs == v.a.objs
    ensures Origins(v', src) && First(v') == First(v)
    ensures forall k: nat :: First(v) <= k < |v.a.objs| ==> Origin(v', k) == Origin(v, k)
  {
    hide Target;
    hide Alike;
    hide Bytes;
    forall k: nat | First(v') <= k < |v'.a.objs|
      ensures Target(src, Origin(v', k)) && Bytes(Origin(v', k)) > 0 && Alike(Origin(v', k), v'.a.objs[k])
    {
      assert v.a.objs[k] == v'.a.objs[k];
    }
  }

  /** Whether a cell is settled depends on nothing but the cell and what the objects are clones of. */
  lemma SettledSame(v: View, v': View, src: Mem, k: nat, c: nat)
    requires Origins(v, src) && Origins(v', src) && v'.origin == v.origin && v'.a.objs == v.a.objs
    requires First(v) <= k < |v.a.objs| && HasCell(v.a, k, c) && HasCell(v'.a, k, c)
      && v'.a.cells[k][c] == v.a.cells[k][c]
    ensures Settled(v', src, k, c) == Settled(v, src, k, c)
  {
    hide Origins;
    hide Target;
    hide SlotPtr;
    hide DataWord;
  }

  /** Changed cells that are settled keep the rest of the clones as they were. */
  lemma {:induction false} ClonedKept(v: View, v': View, src: Mem, todo: seq<Range>, r: Range)
    requires Good(v, src, todo) && Inv(v'.a) && Origins(v', src) && Only(v, v', r) && SettledAll(v', src, r)
    ensures Good(v', src, todo)
  {
    hide Inv;
    hide Origins;
    hide Settled;
    hide Covered;
    forall k: nat, c: nat | First(v') <= k < |v'.a.objs| && HasCell(v'.a, k, c)
      ensures Settled(v', src, k, c) || (Covered(todo, k, c)
                                         && (v'.a.cells[k][c].Link? ==> v'.a.cells[k][c].to == None))
    {
      assert HasCell(v.a, k, c);
      if !In(r, k, c) {
        SettledSame(v, v', src, k, c);
      }
    }
  }

  /** Ranges may be exchanged for others as long as every cell they drop is settled. */
  lemma {:induction false} TodoShift(v: View, src: Mem, todo: seq<Range>, todo': seq<Range>)
    requires Good(v, src, todo)
    requires forall k: nat, c: nat :: First(v) <= k < |v.a.objs| && HasCell(v.a, k, c) && Covered(todo, k, c) ==>
               Covered(todo', k, c) || Settled(v, src, k, c)
    ensures Good(v, src, todo')
  {
  }

  // ----- why finished clones are faithful

  /** A cell of a clone, once everything is settled: data agree. */
  lemma DataAgrees(v: View, src: Mem, q: Ptr, j: nat, r: Ptr, c: nat)
    requires Good(v, src, []) && First(v) <= j < |v.a.objs| && HasCell(v.a, j, c) && v.a.cells[j][c].Data?
    requires Names(q, Origin(v, j)) && Same(r, v.a.objs[j]) && q.seg.Some? && q.pos.Some?
    requires Bytes(q) == Bytes(Origin(v, j)) == Bytes(r)
    ensures r.seg.Some? && r.pos.Some? && DataWord(src, q, c) == DataWord(v.a.mem, r, c)
  {
    hide Bytes;
    hide LowBytes;
    CellInMem(v.a, j, c);
    assert CellOk(v.a, j, c);
    assert Settled(v, src, j, c);
    var o := Origin(v, j);
    LowBytesTwice(WordAt(src, o.seg.value, o.pos.value + c), Bytes(o) - 8 * c);
  }

  lemma SameSlots(q: Ptr, p: Ptr)
    requires Same(q, p)
    ensures Words(q) == Words(p) && Bytes(q) == Bytes(p) && forall c: nat :: IsSlot(q, c) == IsSlot(p, c)
  {
  }

  /** With nothing left to copy, a settled link has the value of the source pointer at every depth,
      cycles and sharing included. */
  lemma {:induction false} CloneEqual(n: nat, v: View, src: Mem, q: Ptr, k: nat, c: nat)
    requires Good(v, src, []) && HasCell(v.a, k, c) && Stands(v, q, v.a.cells[k][c])
    requires Nil(q) || Target(src, Bare(q))
    ensures k < |v.a.objs| && Backed(v.a.mem, v.a.objs[k])
    ensures Equal(n, src, q, v.a.mem, SlotPtr(v.a.mem, v.a.objs[k], c))
    decreases n
  {
    hide ReadPtr;
    hide Target;
    hide Inv;
    hide Handle;
    hide Bytes;
    hide IsSlot;
    hide DataWord;
    InvLaid(v.a);
    CellInMem(v.a, k, c);
    LinkReads(v.a, k, c);
    var r, to := SlotPtr(v.a.mem, v.a.objs[k], c), v.a.cells[k][c].to;
    if to.Some? {
      var j := to.value;
      var p, o := v.a.objs[j], Origin(v, j);
      LaidTarget(v.a, j);
      TargetBasics(v.a.mem, p);
      BareBasics(src, q);
      NamesAlike(src, Bare(q), o, p);
      SameSlots(r, p);
      SameSlots(Bare(q), q);
      AlikeSlots(Bare(q), p);
      forall i: nat | i < Words(q)
        ensures IsSlot(q, i) == IsSlot(r, i)
        ensures if IsSlot(q, i) then n == 0 || Equal(n - 1, src, SlotPtr(src, q, i), v.a.mem, SlotPtr(v.a.mem, r, i))
                else DataWord(src, q, i) == DataWord(v.a.mem, r, i)
      {
        LaidWords(v.a, j);
        assert HasCell(v.a, j, i) && Settled(v, src, j, i);
        SlotPlace(v.a, j, i);
        if !IsSlot(q, i) {
          DataAgrees(v, src, q, j, r, i);
        } else if n > 0 {
          ReadSource(src, q.seg.value, q.pos.value + i);
          CloneEqual(n - 1, v, src, SlotPtr(src, o, i), j, i);
        }
      }
    }
  }

  lemma LaidWords(a: Arena, j: nat)
    requires Laid(a) && j < |a.objs|
    ensures |a.cells| == |a.objs| && |a.cells[j]| == Words(a.objs[j])
  {
  }

  lemma BareBasics(m: Mem, q: Ptr)
    requires Nil(q) || Target(m, Bare(q))
    ensures !Nil(q) ==> Backed(m, q) && Shape(Bare(q))
  {
  }

  // ----- the steps of a copy

  /** One cell of an arena replaced. */
  ghost predicate Replaced(a: Arena, a': Arena, k: nat, c: nat, cell: Cell) {
    HasCell(a, k, c) && a'.objs == a.objs && a'.cells == a.cells[k := a.cells[k][c := cell]]
  }

  lemma {:induction false} OneCell(v: View, a': Arena, src: Mem, todo: seq<Range>, k: nat, c: nat, cell: Cell)
    requires Good(v, src, todo) && Inv(a') && Replaced(v.a, a', k, c, cell)
    requires First(v) <= k < |v.a.objs| ==>
      if cell.Data? then cell.w == DataWord(src, Origin(v, k), c) else Stands(v, SlotPtr(src, Origin(v, k), c), cell)
    ensures Good(v.(a := a'), src, todo) && Only(v, v.(a := a'), Range(k, c, c + 1))
    ensures HasCell(a', k, c) && a'.cells[k][c] == cell && Later(v, v.(a := a'))
  {
    hide Inv;
    hide Target;
    hide Alike;
    hide Bytes;
    hide DataWord;
    hide SlotPtr;
    var v', r := v.(a := a'), Range(k, c, c + 1);
    OriginsSame(v, v', src);
    assert HasCell(a', k, c);
    assert Only(v, v', r);
    assert SettledAll(v', src, r);
    ClonedKept(v, v', src, todo, r);
  }

  /** Objects and their origins stay where they are. */
  ghost predicate Later(v: View, v': View) {
    First(v') == First(v) && v.a.objs <= v'.a.objs && v.origin <= v'.origin
  }

  /** A link cell set to an existing clone. */
  lemma LinkCell(v: View, src: Mem, todo: seq<Range>, k: nat, c: nat, q: Ptr, j: nat)
    requires Good(v, src, todo) && HasCell(v.a, k, c) && k < |v.a.objs| && IsSlot(v.a.objs[k], c)
      && First(v) <= j < |v.a.objs|
    requires First(v) <= k ==> q == SlotPtr(src, Origin(v, k), c)
    requires !Nil(q) && Names(q, Origin(v, j))
    ensures Backed(v.a.mem, v.a.objs[k]) && InMem(v.a.mem, v.a.objs[k].seg.value, v.a.objs[k].pos.value + c)
    ensures Target(v.a.mem, v.a.objs[j]) && Start(v.a.objs[j]) >= 0 && Sized(v.a.mem)
    ensures var v' := v.(a := SetLink(v.a, k, c, j, v.a.objs[j]));
      var w := WritePtr(v.a.mem, v.a.objs[k].seg.value, v.a.objs[k].pos.value + c, v.a.objs[j], false);
      w.Wrote? ==>
        && v'.a.mem == w.mem && Good(v', src, todo) && Only(v, v', Range(k, c, c + 1)) && Later(v, v')
        && HasCell(v'.a, k, c) && Stands(v', q, v'.a.cells[k][c])
  {
    hide Inv;
    hide WritePtr;
    hide Target;
    hide Handle;
    hide Alike;
    hide Bytes;
    hide Choose;
    hide ReadPtr;
    InvLaid(v.a);
    CellInMem(v.a, k, c);
    LaidTarget(v.a, j);
    TargetBasics(v.a.mem, v.a.objs[j]);
    OwnHandle(v.a, j);
    SetLinkKeeps(v.a, k, c, j, v.a.objs[j]);
    var a' := SetLink(v.a, k, c, j, v.a.objs[j]);
    var w := WritePtr(v.a.mem, v.a.objs[k].seg.value, v.a.objs[k].pos.value + c, v.a.objs[j], false);
    if w.Wrote? {
      OneCell(v, a', src, todo, k, c, a'.cells[k][c]);
    }
  }

  /** A null word in a slot, or a data word. */
  lemma WordCell(v: View, src: Mem, todo: seq<Range>, k: nat, c: nat, w: Word, cell: Cell)
    requires Good(v, src, todo) && HasCell(v.a, k, c) && k < |v.a.objs|
    requires if IsSlot(v.a.objs[k], c) then w == 0 && cell.Link? && cell.to == None else cell == Data(w)
    requires First(v) <= k ==>
      if cell.Data? then w == DataWord(src, Origin(v, k), c) else Nil(SlotPtr(src, Origin(v, k), c))
    ensures Backed(v.a.mem, v.a.objs[k]) && InMem(v.a.mem, v.a.objs[k].seg.value, v.a.objs[k].pos.value + c)
    ensures var v' := v.(a := SetWord(v.a, k, c, w, cell));
      && Good(v', src, todo) && Only(v, v', Range(k, c, c + 1)) && HasCell(v'.a, k, c) && v'.a.cells[k][c] == cell
      && Later(v, v')
  {
    hide Inv;
    hide Target;
    hide Alike;
    hide Bytes;
    hide ReadPtr;
    InvLaid(v.a);
    CellInMem(v.a, k, c);
    SetWordKeeps(v.a, k, c, w, cell);
    OneCell(v, SetWord(v.a, k, c, w, cell), src, todo, k, c, cell);
  }

  /** A fresh clone joins, all its cells still to be copied. */
  lemma {:induction false} CloneJoins(v: View, src: Mem, todo: seq<Range>, f: Ptr, r: Made)
    requires Good(v, src, todo) && FreshTarget(v.a.mem, r) && Target(src, Bare(f)) && Bytes(f) > 0
    requires r.ptr.pos.Some? && Shape(r.ptr) && Solid(r.ptr) && Alike(Bare(f), r.ptr)
    ensures var v' := View(Add(v.a, r), v.origin + [Bare(f)]);
      && |v.a.objs| < |v'.a.cells|
      && Good(v', src, todo + [Range(|v.a.objs|, 0, |v'.a.cells[|v.a.objs|]|)]) && Later(v, v')
      && v'.a.mem == r.mem && v'.a.objs == v.a.objs + [r.ptr]
      && (forall k: nat, c: nat :: HasCell(v.a, k, c) ==> HasCell(v'.a, k, c) && v'.a.cells[k][c] == v.a.cells[k][c])
  {
    hide Inv;
    hide Target;
    hide Alike;
    hide Bytes;
    hide Shape;
    hide DataWord;
    hide SlotPtr;
    hide IsSlot;
    InvLaid(v.a);
    AddKeeps(v.a, r);
    BlankCells(v.a, r);
    var v', n := View(Add(v.a, r), v.origin + [Bare(f)]), |v.a.objs|;
    var todo' := todo + [Range(n, 0, |v'.a.cells[n]|)];
    forall k: nat | First(v') <= k < |v'.a.objs|
      ensures Target(src, Origin(v', k)) && Bytes(Origin(v', k)) > 0 && Alike(Origin(v', k), v'.a.objs[k])
    {
      if k < n {
        assert v.a.objs[k] == v'.a.objs[k];
      } else {
        BareBytes(f);
      }
    }
    assert Origins(v', src);
    forall k: nat, c: nat | First(v') <= k < |v'.a.objs| && HasCell(v'.a, k, c)
      ensures Settled(v', src, k, c) || (Covered(todo', k, c)
                                         && (v'.a.cells[k][c].Link? ==> v'.a.cells[k][c].to == None))
    {
      if k < n {
        assert HasCell(v.a, k, c);
        CoveredMore(todo, Range(n, 0, |v'.a.cells[n]|), k, c);
      } else {
        assert In(todo'[|todo|], k, c);
      }
    }
  }

  lemma CoveredMore(todo: seq<Range>, r: Range, k: nat, c: nat)
    ensures Covered(todo + [r], k, c) <==> Covered(todo, k, c) || In(r, k, c)
  {
    if Covered(todo, k, c) {
      var i :| 0 <= i < |todo| && In(todo[i], k, c);
      assert In((todo + [r])[i], k, c);
    }
    if In(r, k, c) {
      assert In((todo + [r])[|todo|], k, c);
    }
  }

  lemma BareBytes(f: Ptr)
    ensures Bytes(Bare(f)) == Bytes(f) && Words(Bare(f)) == Words(f)
  {
  }

  lemma BlankCells(a: Arena, r: Made)
    requires Laid(a) && r.ptr.pos.Some? && Shape(r.ptr) && Solid(r.ptr)
    ensures var b, n := Add(a, r), |a.objs|;
      && b.mem == r.mem && b.objs == a.objs + [r.ptr] && |b.cells| == n + 1 && |b.cells[n]| == Words(r.ptr)
      && (forall i: nat :: i < n ==> b.cells[i] == a.cells[i])
      && forall i: nat :: i < |b.cells[n]| && b.cells[n][i].Link? ==> b.cells[n][i].to == None
  {
    BytesPositive(r.ptr);
  }
}
