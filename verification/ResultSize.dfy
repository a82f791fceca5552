/** The size of a serialized PotentialResult: what the writer of cpmdc_params.c allocates, and the bound
    that callers reserve for it. */
module ResultSize {
  import opened Ints
  import opened SegmentTable
  import opened Options
  import opened Pointers
  import Frame

  const OVERHEAD: nat := 2048
  const SIZE_MAX: int := 0xFFFF_FFFF_FFFF_FFFF

  /** `cpmdc_potential_result_flat_size`; 0 when it does not fit. */
  function FlatSize(forces: nat): nat {
    if forces > (SIZE_MAX - OVERHEAD) / 16 then 0 else OVERHEAD + 16 * forces
  }

  /** 2048 bytes and 16 for each force, or nothing when that leaves 64 bits. */
  lemma FlatSizeIs(forces: nat)
    ensures FlatSize(forces) == if 2048 + 16 * forces <= 18_446_744_073_709_551_615 then 2048 + 16 * forces else 0
  {
  }

  // ----- what is allocated

  /** What the image of an evaluation holds: which parts are valid, and how many values each list has. */
  datatype Image = Image(energy: bool, charge: bool, multi: Option<nat>, md: Option<nat>, prop: Option<Properties>,
                         stress: bool)

  datatype Properties = Properties(hessian: nat, dipole: nat, polarizability: nat)

  /** `snapshot_count`. */
  function AtMost(n: nat, cap: nat): nat {
    if n > cap then cap else n
  }

  /** The lengths of the lists behind the forces, in the order of their allocation; zero where there is none. */
  function Lengths(forces: nat, image: Image): seq<nat> {
    var comps := if image.energy then 24 else 0;
    var charge := if image.energy || image.charge then 4 else 0;
    var multi := match image.multi case Some(n) => AtMost(n, 64) case None => if image.energy then 6 else 0;
    var md := match image.md case Some(n) => AtMost(n, 32) case None => if image.energy then 12 else 0;
    var valid := image.energy || image.prop.Some?;
    var hess := if image.prop.Some? then AtMost(image.prop.value.hessian, 4096) else 0;
    var dip := if image.prop.Some? then AtMost(image.prop.value.dipole, 3) else 3;
    var pol := if image.prop.Some? then AtMost(image.prop.value.polarizability, 9) else 9;
    var grad := if hess == 0 && 0 < forces <= 4096 then forces else hess;
    [comps, charge, multi, md,
     if !valid then 0 else if dip == 0 then 3 else dip,
     if !valid then 0 else if pol == 0 then 9 else pol,
     if valid then grad else 0,
     if image.stress then 9 else 0]
  }

  /** The most values that the gradient list can hold: the hessian's, or those of the forces in its place. */
  function Gradient(forces: nat, image: Image): nat {
    if image.prop.Some? && image.prop.value.hessian > 0 then AtMost(image.prop.value.hessian, 4096) else forces
  }

  function Sum(s: seq<nat>): nat {
    if s == [] then 0 else s[0] + Sum(s[1..])
  }

  /** The words that all segments hold. */
  function Held(m: Mem): nat {
    if m == [] then 0 else |m[0].words| + Held(m[1..])
  }

  /** `capn_new_list64` in the segment of the root. */
  function NewList64(m: Mem, n: nat): Made
    requires m != []
  {
    NewList(m, 0, n, 8, 0)
  }

  // ----- what it costs

  lemma {:induction false} HeldPush(m: Mem, s: nat, ws: seq<Word>)
    requires s < |m|
    ensures Held(Push(m, s, ws)) == Held(m) + |ws|
    decreases s
  {
    var p := Push(m, s, ws);
    if s > 0 {
      HeldPush(m[1..], s - 1, ws);
      assert p[1..] == Push(m[1..], s - 1, ws);
    } else {
      assert p[1..] == m[1..];
    }
  }

  lemma {:induction false} HeldPut(m: Mem, s: nat, d: nat, w: Word)
    requires InMem(m, s, d)
    ensures Held(Put(m, s, d, w)) == Held(m)
    decreases s
  {
    var p := Put(m, s, d, w);
    if s > 0 {
      HeldPut(m[1..], s - 1, d, w);
      assert p[1..] == Put(m[1..], s - 1, d, w);
    } else {
      assert p[1..] == m[1..];
    }
  }

  lemma {:induction false} HeldJoin(a: Mem, b: Mem)
    ensures Held(a + b) == Held(a) + Held(b)
  {
    if a == [] {
      assert a + b == b;
    } else {
      assert (a + b)[1..] == a[1..] + b;
      HeldJoin(a[1..], b);
    }
  }

  lemma NewDataCost(m: Mem, n: nat)
    requires NewData(m, n).Alloc?
    ensures Held(NewData(m, n).mem) == Held(m) + n && |m| <= |NewData(m, n).mem| <= |m| + 1
    ensures NewData(m, n).seg < |NewData(m, n).mem|
      && NewData(m, n).pos + n <= |NewData(m, n).mem[NewData(m, n).seg].words|
  {
    hide CreateCap;
    var i := FirstRoom(m, n, 0);
    if i < |m| {
      HeldPush(m, i, Zeros(n));
    } else {
      HeldJoin(m, [NewData(m, n).mem[|m|]]);
    }
  }

  /** An object costs its words, and one tag word and at most one segment more when it has to move. */
  lemma ObjectCost(m: Mem, p: Ptr, bytes: nat)
    requires p.datasz < TWO19 && p.ptrs < TWO16 && p.seg.Some? && p.seg.value < |m| && p.pos.None? && !p.hasTag
    ensures var r := NewObject(m, p, bytes);
      && |m| <= |r.mem| <= |m| + 1 && Held(m) <= Held(r.mem)
      && (r.ptr.pos.Some? ==>
            && Held(r.mem) == Held(m) + (bytes + 7) / 8 + (if r.ptr.hasTag then 1 else 0)
            && (!r.ptr.hasTag ==> |r.mem| == |m|))
      && (r.ptr.pos.None? ==> r.mem == m)
  {
    hide TagWord;
    hide NewData;
    if 0 < bytes <= INT_MAX - 7 {
      var s, n := p.seg.value, (bytes + 7) / 8;
      if Room(m[s], n) {
        HeldPush(m, s, Zeros(n));
      } else if NewData(m, n + 1).Alloc? {
        NewDataCost(m, n + 1);
        HeldPut(NewData(m, n + 1).mem, NewData(m, n + 1).seg, NewData(m, n + 1).pos, TagWord(p, 0));
      }
    }
  }

  lemma ListCost(m: Mem, n: nat)
    requires m != []
    ensures var r := NewList64(m, n);
      && |m| <= |r.mem| <= |m| + 1 && Held(m) <= Held(r.mem) <= Held(m) + n + 1
      && (r.ptr.pos.Some? ==> Held(r.mem) >= Held(m) + n)
  {
    hide NewObject;
    if n > 0 && Times(n, 8) <= INT_MAX {
      var p := Ptr(List, false, false, false, 8, 0, n, Some(0), None);
      ObjectCost(m, p, Times(n, 8));
    }
  }

  /** The message after the lists have been allocated, one after another. */
  function Allocated(m: Mem, lengths: seq<nat>): (r: Mem)
    requires m != []
    decreases |lengths|
  {
    if lengths == [] then m
    else if lengths[0] == 0 then Allocated(m, lengths[1..])
    else
      ListCost(m, lengths[0]);
      Allocated(NewList64(m, lengths[0]).mem, lengths[1..])
  }

  lemma {:induction false} AllocatedCost(m: Mem, lengths: seq<nat>)
    requires m != []
    ensures var r := Allocated(m, lengths);
      |m| <= |r| <= |m| + |lengths| && Held(m) <= Held(r) <= Held(m) + Sum(lengths) + |lengths|
    decreases |lengths|
  {
    hide NewList64;
    if lengths != [] {
      if lengths[0] == 0 {
        AllocatedCost(m, lengths[1..]);
      } else {
        ListCost(m, lengths[0]);
        AllocatedCost(NewList64(m, lengths[0]).mem, lengths[1..]);
      }
    }
  }

  /** A fresh message with its root slot and the result struct: both lie in the first segment. */
  function Base(datasz: nat, ptrs: nat): Option<Made>
    requires datasz % 8 == 0 && datasz + 8 * ptrs <= 760
  {
    match NewData([], 1)
    case NoRoom => None
    case Alloc(m, _, _) => Some(NewStruct(m, 0, datasz, ptrs))
  }

  lemma BaseIs(datasz: nat, ptrs: nat)
    requires datasz % 8 == 0 && datasz + 8 * ptrs <= 760
    ensures Base(datasz, ptrs).Some?
    ensures Base(datasz, ptrs).value.mem == [Seg(Zeros(1 + (datasz + 8 * ptrs) / 8), 502)]
  {
    hide NewData;
    hide NewObject;
    hide NewStruct;
    FirstSegment();
    StructInFirst(datasz, ptrs);
  }

  lemma StructInFirst(datasz: nat, ptrs: nat)
    requires datasz % 8 == 0 && datasz + 8 * ptrs <= 760
    ensures NewStruct([Seg(Zeros(1), 502)], 0, datasz, ptrs).mem == [Seg(Zeros(1 + (datasz + 8 * ptrs) / 8), 502)]
  {
    hide NewObject;
    assert Align(datasz) == datasz;
    ObjectInFirst(Ptr(Struct, false, false, false, datasz, ptrs, 0, Some(0), None), datasz + 8 * ptrs);
  }

  lemma ObjectInFirst(p: Ptr, bytes: nat)
    requires p.datasz < TWO19 && p.ptrs < TWO16 && p.seg == Some(0) && bytes % 8 == 0 && bytes <= 760
    ensures NewObject([Seg(Zeros(1), 502)], p, bytes).mem == [Seg(Zeros(1 + bytes / 8), 502)]
  {
    hide NewData;
    var m, n := [Seg(Zeros(1), 502)], bytes / 8;
    assert (bytes + 7) / 8 == n && Room(m[0], n);
    assert Zeros(1) + Zeros(n) == Zeros(1 + n);
  }

  /** Linking a list that was just made into a slot of the first segment takes up no more words: the list
      is in that segment, or it brought its own tag. */
  lemma LinkCost(m: Mem, d: nat, p: Ptr)
    requires Sized(m) && InMem(m, 0, d) && p.datasz < TWO19 && p.ptrs < TWO16 && p.kind == List && !p.member
    requires p.seg.Some? && p.seg.value < |m| && (p.seg == Some(0) || p.hasTag)
    ensures var w := WritePtr(m, 0, d, p, false);
      !w.NeedToCopy? && (w.Wrote? ==> Held(w.mem) == Held(m) && |w.mem| == |m|)
  {
    hide TagWord;
    hide FarWord;
    forall w: Word
      ensures Held(Put(m, 0, d, w)) == Held(m)
    {
      HeldPut(m, 0, d, w);
    }
  }

  // ----- the bound

  /** The bytes of the serialized result. */
  function SerializedSize(m: Mem): nat {
    4 * Frame.HeaderLen(|m|) + 8 * Held(m)
  }

  lemma {:induction false} HeldTotal(m: Mem)
    ensures Frame.Total(m) == 8 * Held(m)
  {
    if m != [] {
      HeldTotal(m[1..]);
    }
  }

  lemma SumOfEight(s: seq<nat>)
    requires |s| == 8
    ensures Sum(s) == s[0] + s[1] + s[2] + s[3] + s[4] + s[5] + s[6] + s[7]
  {
    var t1 := s[1..];
    var t2 := t1[1..];
    var t3 := t2[1..];
    var t4 := t3[1..];
    var t5 := t4[1..];
    var t6 := t5[1..];
    var t7 := t6[1..];
    assert t7[1..] == [];
    assert Sum(t7) == s[7];
    assert Sum(t6) == s[6] + Sum(t7);
    assert Sum(t5) == s[5] + Sum(t6);
    assert Sum(t4) == s[4] + Sum(t5);
    assert Sum(t3) == s[3] + Sum(t4);
    assert Sum(t2) == s[2] + Sum(t3);
    assert Sum(t1) == s[1] + Sum(t2);
  }

  lemma LengthsSum(forces: nat, image: Image)
    ensures |Lengths(forces, image)| == 8
    ensures Sum(Lengths(forces, image)) <= 145 + Gradient(forces, image)
    ensures image.prop.Some? ==> Sum(Lengths(forces, image)) >= 2 + AtMost(image.prop.value.hessian, 4096)
    ensures forall i :: 0 <= i < 8 ==> Lengths(forces, image)[i] <= 4096
  {
    hide Sum;
    SumOfEight(Lengths(forces, image));
  }

  /** The writer's arena: root, result struct, forces, then the other lists. */
  function Arena(datasz: nat, ptrs: nat, forces: nat, image: Image): Option<Mem>
    requires datasz % 8 == 0 && datasz + 8 * ptrs <= 760
  {
    BaseIs(datasz, ptrs);
    var r := Base(datasz, ptrs).value;
    ListCost(r.mem, forces);
    var f := NewList64(r.mem, forces);
    if r.ptr.kind == Null || (forces > 0 && f.ptr.kind == Null) then None
    else Some(Allocated(f.mem, Lengths(forces, image)))
  }

  /** A list of at most 4096 values is always made while segments can be numbered. */
  lemma RoomForList(m: Mem, n: nat)
    requires m != [] && 0 < n <= 4096 && |m| < UINT32_MAX
    ensures NewList64(m, n).ptr.pos.Some?
  {
    assert Times(n, 8) == 8 * n;
  }

  function Tag(p: Ptr): nat {
    if p.hasTag then 1 else 0
  }

  /** How many lists have to move, each with a tag word of its own. */
  function Moved(m: Mem, lengths: seq<nat>): nat
    requires m != []
    decreases |lengths|
  {
    if lengths == [] then 0
    else if lengths[0] == 0 then Moved(m, lengths[1..])
    else
      ListCost(m, lengths[0]);
      Tag(NewList64(m, lengths[0]).ptr) + Moved(NewList64(m, lengths[0]).mem, lengths[1..])
  }

  lemma ListWords(m: Mem, n: nat)
    requires m != [] && 0 < n <= INT_MAX && NewList64(m, n).ptr.kind != Null
    ensures var r := NewList64(m, n);
      Held(r.mem) == Held(m) + n + Tag(r.ptr) && |m| <= |r.mem| <= |m| + Tag(r.ptr)
  {
    hide NewObject;
    assert Times(n, 8) == 8 * n;
    ObjectCost(m, Ptr(List, false, false, false, 8, 0, n, Some(0), None), Times(n, 8));
    NullUnplaced(m, Ptr(List, false, false, false, 8, 0, n, Some(0), None), Times(n, 8));
  }

  lemma NullUnplaced(m: Mem, p: Ptr, bytes: nat)
    requires p.datasz < TWO19 && p.ptrs < TWO16 && p.seg.Some? && p.seg.value < |m| && p.pos.None? && !p.hasTag
    requires 0 < bytes && p.kind != Null
    ensures NewObject(m, p, bytes).ptr.kind == Null <==> NewObject(m, p, bytes).ptr.pos.None?
  {
    hide TagWord;
    hide NewData;
  }

  /** The lists take up their words and a tag word for each one that moves, and no more than one segment for
      each of those. */
  lemma {:induction false} AllocatedWords(m: Mem, lengths: seq<nat>)
    requires m != [] && |m| + |lengths| < UINT32_MAX && forall i :: 0 <= i < |lengths| ==> lengths[i] <= 4096
    ensures var r := Allocated(m, lengths);
      && Held(r) == Held(m) + Sum(lengths) + Moved(m, lengths) && Moved(m, lengths) <= |lengths|
      && |m| <= |r| <= |m| + Moved(m, lengths)
    decreases |lengths|
  {
    hide NewList64;
    if lengths != [] {
      if lengths[0] == 0 {
        AllocatedWords(m, lengths[1..]);
      } else {
        ListCost(m, lengths[0]);
        RoomForList(m, lengths[0]);
        Placed(m, lengths[0]);
        ListWords(m, lengths[0]);
        AllocatedWords(NewList64(m, lengths[0]).mem, lengths[1..]);
      }
    }
  }

  lemma Placed(m: Mem, n: nat)
    requires m != [] && 0 < n <= 4096 && NewList64(m, n).ptr.pos.Some?
    ensures NewList64(m, n).ptr.kind != Null
  {
    hide TagWord;
    hide NewData;
    assert Times(n, 8) == 8 * n;
  }

  /** How many of the lists had to move, the one of the forces included. */
  function Tags(datasz: nat, ptrs: nat, forces: nat, image: Image): nat
    requires datasz % 8 == 0 && datasz + 8 * ptrs <= 760 && Arena(datasz, ptrs, forces, image).Some?
  {
    BaseIs(datasz, ptrs);
    var base := Base(datasz, ptrs).value.mem;
    var f := NewList64(base, forces);
    ListCost(base, forces);
    (if forces == 0 then 0 else Tag(f.ptr)) + Moved(f.mem, Lengths(forces, image))
  }

  /** Exactly when the reserved bytes suffice: when the struct, the lists behind the forces, a tag word for
      each list that had to move and half a word for each segment come to at most 254 words more than there
      are forces.  At most nine lists move, each into at most one new segment. */
  lemma BoundExact(datasz: nat, ptrs: nat, forces: nat, image: Image)
    requires datasz % 8 == 0 && datasz + 8 * ptrs <= 760 && forces <= INT_MAX
    requires Arena(datasz, ptrs, forces, image).Some?
    ensures FlatSize(forces) == 2048 + 16 * forces
    ensures var m, tags := Arena(datasz, ptrs, forces, image).value, Tags(datasz, ptrs, forces, image);
      && tags <= 9 && 1 <= |m| <= 1 + tags
      && (SerializedSize(m) <= FlatSize(forces) <==>
            datasz / 8 + ptrs + Sum(Lengths(forces, image)) + tags + |m| / 2 <= 254 + forces)
  {
    hide Allocated;
    hide NewList64;
    hide Lengths;
    hide Base;
    hide Moved;
    hide Sum;
    BaseIs(datasz, ptrs);
    var base := Base(datasz, ptrs).value.mem;
    ListCost(base, forces);
    LengthsSum(forces, image);
    if forces > 0 {
      ListWords(base, forces);
    } else {
      NoList(base);
    }
    AllocatedWords(NewList64(base, forces).mem, Lengths(forces, image));
  }

  lemma NoList(m: Mem)
    requires m != []
    ensures NewList64(m, 0).mem == m
  {
  }

  /** The bound suffices for any struct of at most 95 words and a hessian no longer than the forces; a smaller
      struct leaves its missing words to the hessian.  Segment switches, tag words and the frame's header are
      counted in. */
  lemma BoundSuffices(datasz: nat, ptrs: nat, forces: nat, image: Image)
    requires datasz % 8 == 0 && datasz + 8 * ptrs <= 760 && forces <= INT_MAX
    requires image.prop.Some? ==> datasz / 8 + ptrs + image.prop.value.hessian <= 95 + forces
    requires Arena(datasz, ptrs, forces, image).Some?
    ensures SerializedSize(Arena(datasz, ptrs, forces, image).value) <= FlatSize(forces)
  {
    hide Sum;
    hide Lengths;
    hide Arena;
    hide Tags;
    LengthsSum(forces, image);
    BoundExact(datasz, ptrs, forces, image);
  }

  /** A hessian that, with the words of the struct, outgrows the forces by more than 252 always breaks the
      bound. */
  lemma HessianBreaks(datasz: nat, ptrs: nat, forces: nat, image: Image)
    requires datasz % 8 == 0 && datasz + 8 * ptrs <= 760 && forces <= INT_MAX
    requires Arena(datasz, ptrs, forces, image).Some?
    requires image.prop.Some? && datasz / 8 + ptrs + AtMost(image.prop.value.hessian, 4096) > 252 + forces
    ensures SerializedSize(Arena(datasz, ptrs, forces, image).value) > FlatSize(forces)
  {
    hide Sum;
    hide Lengths;
    hide Arena;
    hide Tags;
    LengthsSum(forces, image);
    BoundExact(datasz, ptrs, forces, image);
  }

  /** A concrete image that breaks the bound of a `PotentialResult`, seven words of data and 17 pointers: a
      hessian of 300 values without forces. */
  lemma LongHessian()
    ensures var image := Image(false, false, None, None, Some(Properties(300, 0, 0)), false);
      && Arena(56, 17, 0, image).Some? && SerializedSize(Arena(56, 17, 0, image).value) > FlatSize(0)
  {
    hide Base;
    BaseKind(56, 17);
    HessianBreaks(56, 17, 0, Image(false, false, None, None, Some(Properties(300, 0, 0)), false));
  }

  /** The first segment that the allocator makes. */
  lemma FirstSegment()
    ensures NewData([], 1) == Alloc([Seg(Zeros(1), 502)], 0, 0)
  {
    assert CreateCap(1) == Some(502);
  }

  lemma BaseKind(datasz: nat, ptrs: nat)
    requires datasz % 8 == 0 && 0 < datasz + 8 * ptrs <= 760
    ensures Base(datasz, ptrs).Some? && Base(datasz, ptrs).value.ptr.kind == Struct
  {
    hide NewData;
    FirstSegment();
    assert Room(Seg(Zeros(1), 502), (datasz + 8 * ptrs) / 8);
  }

  // ----- the writer

  /** What `cpmdc_potential_result_write` returns for a buffer of some capacity: the size of the frame, or -1. */
  function WrittenSize(datasz: nat, ptrs: nat, forces: nat, image: Image, capacity: nat): int
    requires datasz % 8 == 0 && datasz + 8 * ptrs <= 760
  {
    var m := Arena(datasz, ptrs, forces, image);
    if forces > INT_MAX || capacity < FlatSize(forces) || m.None? || capacity < SerializedSize(m.value)
      || Frame.AsInt(SerializedSize(m.value)) < 0
    then -1
    else Frame.AsInt(SerializedSize(m.value))
  }

  /** With the reserved room the writer fails only when its arena cannot be built. */
  lemma ReservedSuffices(datasz: nat, ptrs: nat, forces: nat, image: Image, capacity: nat)
    requires datasz % 8 == 0 && datasz + 8 * ptrs <= 760 && FlatSize(forces) <= INT_MAX && forces <= INT_MAX
    requires image.prop.Some? ==> datasz / 8 + ptrs + image.prop.value.hessian <= 95 + forces
    requires capacity >= FlatSize(forces)
    ensures var m := Arena(datasz, ptrs, forces, image);
      WrittenSize(datasz, ptrs, forces, image, capacity) == if m.Some? then SerializedSize(m.value) else -1
  {
    hide Arena;
    if Arena(datasz, ptrs, forces, image).Some? {
      BoundSuffices(datasz, ptrs, forces, image);
    }
  }
}
