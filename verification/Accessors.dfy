/** `capn_getp` and `capn_setp` inside one message: which word an index names, and what a set pointer
    reads back as. */
module Accessors {
  import opened SegmentTable
  import opened Options
  import opened Pointers
  import G = CloneGraph

  /** The word of pointer `off` of a struct or a pointer list, as far as it lies in the segment. */
  function SlotOf(m: Mem, p: Ptr, off: int): Option<(nat, nat)> {
    if off < 0 || p.seg.None? || p.pos.None? || p.seg.value >= |m| || p.pos.value > |m[p.seg.value].words| then None
    else
      var n := if p.kind == Struct then p.datasz / 8 + off else off;
      var count := if p.kind == Struct then p.ptrs else if p.kind == PtrList then p.len else 0;
      if off >= count || n > |m[p.seg.value].words| - p.pos.value then None
      else Some((p.seg.value, p.pos.value + n))
  }

  /** `capn_getp` with resolution, of a pointer slot. */
  function GetPtr(m: Mem, p: Ptr, off: int): Ptr {
    match SlotOf(m, p, off)
    case None => NULL
    case Some((s, d)) => ReadPtr(m, s, d)
  }

  /** Whether a target is an unresolved pointer whose word is a far pointer. */
  predicate FarWordAt(m: Mem, t: Ptr) {
    && t.kind == FarPointer && t.seg.Some? && t.pos.Some? && InMem(m, t.seg.value, t.pos.value)
    && m[t.seg.value].words[t.pos.value] % 4 == 2
  }

  /** `capn_setp` of a pointer slot with a target of the same message.  A far word is copied as it is, to
      the first word of `p`'s data, whatever the index. */
  function SetPtr(m: Mem, p: Ptr, off: int, t: Ptr): Write
    requires Sized(m) && p.seg.Some? && p.pos.Some? && InMem(m, p.seg.value, p.pos.value)
    requires t.datasz < TWO19 && t.ptrs < TWO16 && (t.seg.Some? ==> t.seg.value < |m|)
  {
    if t.kind == FarPointer && (t.seg.None? || t.pos.None?) then Refused
    else if FarWordAt(m, t) then Wrote(Put(m, p.seg.value, p.pos.value, m[t.seg.value].words[t.pos.value]))
    else
      G.Resolved(m, t);
      var r := G.Resolve(m, t);
      match SlotOf(m, p, off)
      case None => Refused
      case Some((s, d)) => if d < |m[s].words| then WritePtr(m, s, d, r, false) else Refused
  }

  /** Slots of an object lie inside it. */
  lemma SlotInside(m: Mem, p: Ptr, off: int)
    requires Target(m, p) && (p.kind == Struct || p.kind == PtrList)
    requires 0 <= off < if p.kind == Struct then p.ptrs else p.len
    ensures SlotOf(m, p, off).Some? && InMem(m, SlotOf(m, p, off).value.0, SlotOf(m, p, off).value.1)
    ensures SlotOf(m, p, off).value == (p.seg.value, p.pos.value + if p.kind == Struct then p.datasz / 8 + off else off)
  {
  }

  /** An index below zero or past the pointers reads as null and cannot be set, and so does every index of what
      has no pointers. */
  lemma OutsideNull(m: Mem, p: Ptr, off: int)
    requires off < 0 || (p.kind == Struct && off >= p.ptrs) || (p.kind == PtrList && off >= p.len)
             || p.kind in {Null, BitList}
    ensures GetPtr(m, p, off) == NULL
    ensures forall t: Ptr ::
      && Sized(m) && p.seg.Some? && p.pos.Some? && InMem(m, p.seg.value, p.pos.value)
      && t.datasz < TWO19 && t.ptrs < TWO16 && (t.seg.Some? ==> t.seg.value < |m|) && t.kind != FarPointer ==>
        SetPtr(m, p, off, t) == Refused
  {
  }

  /** Inside, pointer `off` of a struct is the word behind its data and `off` more; of a pointer list, the word
      at `off`. */
  lemma InsideReads(m: Mem, p: Ptr, off: int)
    requires Target(m, p) && (p.kind == Struct || p.kind == PtrList)
    requires 0 <= off < if p.kind == Struct then p.ptrs else p.len
    ensures p.seg.Some? && p.pos.Some? && p.seg.value < |m|
    ensures GetPtr(m, p, off)
         == ReadPtr(m, p.seg.value, p.pos.value + off + if p.kind == Struct then p.datasz / 8 else 0)
  {
    SlotInside(m, p, off);
  }

  /** A null target, typed or read from a slot, clears the slot and nothing else; an unresolved target without a place
      is refused. */
  lemma SetNull(m: Mem, p: Ptr, off: int, t: Ptr)
    requires Sized(m) && Target(m, p) && (p.kind == Struct || p.kind == PtrList)
    requires 0 <= off < if p.kind == Struct then p.ptrs else p.len
    requires t.datasz < TWO19 && t.ptrs < TWO16 && (t.seg.Some? ==> t.seg.value < |m|)
    ensures p.seg.Some? && p.pos.Some? && InMem(m, p.seg.value, p.pos.value)
    ensures var d := p.pos.value + off + if p.kind == Struct then p.datasz / 8 else 0;
      && InMem(m, p.seg.value, d)
      && (t.kind == Null || (t.kind == FarPointer && t.seg.Some? && t.pos.Some? && InMem(m, t.seg.value, t.pos.value)
                             && m[t.seg.value].words[t.pos.value] == 0) ==>
            SetPtr(m, p, off, t) == Wrote(Put(m, p.seg.value, d, 0)))
      && (t.kind == FarPointer && (t.seg.None? || t.pos.None?) ==> SetPtr(m, p, off, t) == Refused)
  {
    hide Shape;
    SlotInside(m, p, off);
    FirstWord(m, p);
    G.Resolved(m, t);
  }

  /** A resolved target that has been set is what the slot gives back, exactly when it is linkable;
      a write that is refused leaves the message alone. */
  lemma SetThenGet(m: Mem, p: Ptr, off: int, t: Ptr)
    requires Sized(m) && Target(m, p) && Target(m, t) && (p.kind == Struct || p.kind == PtrList)
    requires 0 <= off < if p.kind == Struct then p.ptrs else p.len
    requires SlotOf(m, p, off).Some? ==> Clear(t, SlotOf(m, p, off).value.0, SlotOf(m, p, off).value.1)
    ensures p.seg.Some? && p.pos.Some? && InMem(m, p.seg.value, p.pos.value) && t.kind != FarPointer
    ensures t.datasz < TWO19 && t.ptrs < TWO16 && t.seg.Some? && t.pos.Some? && t.seg.value < |m|
    ensures var w := SetPtr(m, p, off, t);
      w.Wrote? ==> (Same(GetPtr(w.mem, p, off), t) <==> Linkable(m, p.seg.value, t))
  {
    hide ReadPtr;
    hide WritePtr;
    hide Shape;
    hide Target;
    TargetBasics(m, t);
    TargetBasics(m, p);
    SlotInside(m, p, off);
    ResolvedKind(m, t);
    FirstWord(m, p);
    var (s, d) := SlotOf(m, p, off).value;
    WriteThenRead(m, s, d, t);
    if WritePtr(m, s, d, t, false).Wrote? {
      WriteExtends(m, s, d, t, false);
    }
  }

  lemma ResolvedKind(m: Mem, t: Ptr)
    requires Target(m, t)
    ensures t.kind != FarPointer
  {
  }

  lemma FirstWord(m: Mem, p: Ptr)
    requires Target(m, p) && (p.kind == Struct || (p.kind == PtrList && p.len > 0))
    ensures InMem(m, p.seg.value, p.pos.value)
  {
  }

  /** With an unresolved far target the slot asked for gets the target's word exactly when it is the first
      word of the object, or held that word before; every other word but the first stays as it was. */
  lemma FarCopied(m: Mem, p: Ptr, off: int, t: Ptr)
    requires Sized(m) && Target(m, p) && (p.kind == Struct || p.kind == PtrList) && FarWordAt(m, t)
    requires t.datasz < TWO19 && t.ptrs < TWO16
    requires 0 <= off < if p.kind == Struct then p.ptrs else p.len
    ensures p.seg.Some? && p.pos.Some? && InMem(m, p.seg.value, p.pos.value) && SlotOf(m, p, off).Some?
    ensures var w, val := SetPtr(m, p, off, t), m[t.seg.value].words[t.pos.value];
      var (s, d) := SlotOf(m, p, off).value;
      && w.Wrote? && InMem(m, s, d) && w.mem[s].words[p.pos.value] == val
      && (w.mem[s].words[d] == val <==> d == p.pos.value || m[s].words[d] == val)
      && (d == p.pos.value <==> off == 0 && (p.kind == Struct ==> p.datasz == 0))
      && forall i: nat :: i < |m[s].words| && i != p.pos.value ==> w.mem[s].words[i] == m[s].words[i]
  {
    SlotInside(m, p, off);
    FirstWord(m, p);
  }

  /** A struct with a data word and a pointer: setting the pointer overwrites the data word instead. */
  lemma FarOverData(val: Word)
    requires val % 4 == 2
    ensures var m := [Seg([5, 0, val], 3)];
      var p := Ptr(Struct, false, false, false, 8, 1, 0, Some(0), Some(0));
      var t := Ptr(FarPointer, false, false, false, 0, 0, 0, Some(0), Some(2));
      && Sized(m) && FarWordAt(m, t) && SlotOf(m, p, 0) == Some((0, 1))
      && SetPtr(m, p, 0, t) == Wrote([Seg([val, 0, val], 3)])
  {
    assert [5, 0, val][0 := val] == [val, 0, val];
  }
}
