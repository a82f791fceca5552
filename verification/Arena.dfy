/** Pointer words of the arena: how capn.c writes a pointer into a slot and how it resolves a slot.
    Segments are read by value here; sizes and positions count 8-byte words. */
module Pointers {
  import opened Ints
  import opened Options
  import opened SegmentTable

  const TWO16: int := 0x1_0000
  const TWO19: int := 0x8_0000
  const TWO29: int := 0x2000_0000
  const TWO30: int := 0x4000_0000
  const TWO32: int := 0x1_0000_0000

  /** The words a segment holds (`len` of them) and how many it can hold. */
  datatype Seg = Seg(words: seq<Word>, cap: nat)

  /** A message: its segments in id order. */
  type Mem = seq<Seg>

  datatype Kind = Null | Struct | List | PtrList | BitList | FarPointer

  /** `capn_ptr`.  `seg` is the id of the segment, `pos` the word the data pointer is at; either can
      be a null pointer.  `datasz` counts bytes. */
  datatype Ptr = Ptr(kind: Kind, hasTag: bool, member: bool, composite: bool,
                     datasz: nat, ptrs: nat, len: int, seg: Option<nat>, pos: Option<nat>)

  const NULL: Ptr := Ptr(Null, false, false, false, 0, 0, 0, None, None)

  // ----- memory

  predicate InMem(m: Mem, s: nat, d: nat) {
    s < |m| && d < |m[s].words|
  }

  function Put(m: Mem, s: nat, d: nat, w: Word): Mem
    requires InMem(m, s, d)
  {
    m[s := m[s].(words := m[s].words[d := w])]
  }

  /** `seg_room` for `n` words. */
  predicate Room(g: Seg, n: nat) {
    8 * (|g.words| + n) <= INT_MAX && |g.words| + n <= g.cap
  }

  function Push(m: Mem, s: nat, ws: seq<Word>): Mem
    requires s < |m|
  {
    m[s := m[s].(words := m[s].words + ws)]
  }

  /** The allocator of capn-malloc.c: capacity of a new segment that must take `n` words. */
  function CreateCap(n: nat): Option<nat> {
    var header := 80;
    var bytes := 8 * n + header;
    if bytes > INT_MAX then None
    else if bytes < 4096 then Some((4096 - header) / 8)
    else if bytes > INT_MAX - 4095 then None
    else Some(((bytes + 4095) / 4096 * 4096 - header) / 8)
  }

  /** The allocator makes whole pages of 4096 bytes with 80 of them for the segment itself, no more than are
      needed, and refuses what an `int` cannot round up. */
  lemma CreateCapIs(n: nat)
    ensures CreateCap(n).Some? <==> 8 * n + 80 <= 2_147_483_647 - 4095
    ensures CreateCap(n).Some? ==> var c := CreateCap(n).value;
      c >= n && (8 * c + 80) % 4096 == 0 && 8 * c + 80 < 8 * n + 80 + 4096
  {
  }

  function FirstRoom(m: Mem, n: nat, from: nat): (i: nat)
    requires from <= |m|
    ensures from <= i <= |m| && (i < |m| ==> Room(m[i], n))
    ensures forall j :: from <= j < i ==> !Room(m[j], n)
    decreases |m| - from
  {
    if from == |m| || Room(m[from], n) then from else FirstRoom(m, n, from + 1)
  }

  datatype Alloc = NoRoom | Alloc(mem: Mem, seg: nat, pos: nat)

  function Zeros(n: nat): (z: seq<Word>) {
    seq(n, i => 0)
  }

  /** `new_data`: the first segment with room, or a new one. */
  function NewData(m: Mem, n: nat): Alloc {
    var i := FirstRoom(m, n, 0);
    if i < |m| then Alloc(Push(m, i, Zeros(n)), i, |m[i].words|)
    else
      match CreateCap(n)
      case None => NoRoom
      case Some(cap) =>
        if |m| < UINT32_MAX && Room(Seg([], cap), n) then Alloc(m + [Seg(Zeros(n), cap)], |m|, 0) else NoRoom
  }

  /** The first segment with as many free words takes them, to the last one; when none has, a new one does, unless
      its bytes leave the `int` range. */
  lemma FirstFree(m: Mem, n: nat, i: nat)
    requires Sized(m) && i <= |m| && forall j :: 0 <= j < i ==> m[j].cap - |m[j].words| < n
    ensures i < |m| && m[i].cap - |m[i].words| >= n ==>
              NewData(m, n) == Alloc(Push(m, i, Zeros(n)), i, |m[i].words|)
    ensures i == |m| && |m| < 4_294_967_295 && 8 * n + 80 <= 2_147_483_647 - 4095 ==>
              NewData(m, n).Alloc? && NewData(m, n).seg == |m| && NewData(m, n).pos == 0
    ensures i == |m| && (|m| == 4_294_967_295 || 8 * n + 80 > 2_147_483_647 - 4095) ==> NewData(m, n).NoRoom?
  {
    CreateCapIs(n);
    var f := FirstRoom(m, n, 0);
    assert f < |m| ==> Room(m[f], n);
    assert i < f ==> !Room(m[i], n);
  }

  // ----- words

  /** A pointer word: two kind bits, a 30-bit field, an upper half. */
  function Pack(kind: nat, field: nat, hi: nat): Word
    requires kind < 4 && field < TWO30 && hi < TWO32
  {
    kind + 4 * field + TWO32 * hi
  }

  function Low(w: Word): nat { w % TWO32 }
  function Hi(w: Word): nat { w / TWO32 }
  function Field(w: Word): nat { Low(w) / 4 }

  lemma Halves(low: nat, hi: nat)
    requires low < 0x1_0000_0000
    ensures (low + 0x1_0000_0000 * hi) / 0x1_0000_0000 == hi && (low + 0x1_0000_0000 * hi) % 0x1_0000_0000 == low
  {
  }

  lemma LowTwo(kind: nat, rest: nat)
    requires kind < 4
    ensures (kind + 4 * rest) / 4 == rest && (kind + 4 * rest) % 4 == kind
  {
  }

  lemma LowThree(low: nat, rest: nat)
    requires low < 8
    ensures (low + 8 * rest) / 8 == rest && (low + 8 * rest) % 8 == low
  {
  }

  lemma Unpack(kind: nat, field: nat, hi: nat)
    requires kind < 4 && field < TWO30 && hi < TWO32
    ensures var w := Pack(kind, field, hi);
      && w % 4 == kind && Field(w) == field && Hi(w) == hi && Low(w) == kind + 4 * field
      && w % 8 == kind + 4 * (field % 2)
  {
    Halves(kind + 4 * field, hi);
    LowTwo(kind, field);
    LowTwo(kind, field + TWO30 * hi);
    LowThree(kind + 4 * (field % 2), field / 2 + TWO29 * hi);
  }

  /** The signed value of a 30-bit field. */
  function Signed(raw: nat): int
    requires raw < TWO30
  {
    if raw >= TWO29 then raw - TWO30 else raw
  }

  function SizeCode(datasz: nat): nat {
    match datasz
    case 8 => 5
    case 4 => 4
    case 2 => 3
    case 1 => 2
    case _ => 0
  }

  function Times(a: int, b: int): int { a * b }

  /** The words of a composite list's elements. */
  function Elements(p: Ptr): int {
    Times(p.len, p.datasz / 8 + p.ptrs)
  }

  lemma ElementsNonNegative(p: Ptr)
    requires p.len >= 0
    ensures Elements(p) >= 0 && Times(p.len, p.datasz) >= 0 && (p.len == 0 ==> Elements(p) == 0)
  {
  }

  /** The word `write_ptr_tag` stores: `off` is the distance in words. */
  function TagWord(p: Ptr, off: int): Word
    requires p.datasz < TWO19 && p.ptrs < TWO16
  {
    var field := off % TWO30;
    match p.kind
    case Struct => Pack(0, field, p.datasz / 8 + TWO16 * p.ptrs)
    case List =>
      if p.composite then
        var words := if p.len > 0 then Elements(p) else 0;
        Pack(1, field, 7 + 8 * (words % TWO29))
      else
        Pack(1, field, SizeCode(p.datasz) + 8 * (p.len % TWO29))
    case BitList => Pack(1, field, 1 + 8 * (p.len % TWO29))
    case PtrList => Pack(1, field, 6 + 8 * (p.len % TWO29))
    case _ => 0
  }

  /** Every capacity and every id fits the C type that holds it. */
  predicate Sized(m: Mem) {
    && |m| <= UINT32_MAX
    && forall i :: 0 <= i < |m| ==> |m[i].words| <= m[i].cap && 8 * m[i].cap <= INT_MAX
  }

  /** `write_far_ptr` and `write_double_far`: zero when the target is not inside the segment. */
  function FarWordTo(cap: nat, double: bool, seg: nat, pos: Option<nat>): Word
    requires 8 * cap <= INT_MAX && seg < TWO32
  {
    if pos.Some? && pos.value < cap then Pack(2, 2 * pos.value + (if double then 1 else 0), seg) else 0
  }

  function FarWord(m: Mem, double: bool, seg: nat, pos: Option<nat>): Word
    requires Sized(m) && seg < |m|
  {
    FarWordTo(m[seg].cap, double, seg, pos)
  }

  // ----- reading

  /** A word and the place it counts its offset from; `seg` is None after a failed segment lookup. */
  datatype Hop = Hop(seg: Option<nat>, at: (nat, int), val: Word, tagged: bool)

  /** `lookup_far`. */
  function LookupFar(m: Mem, s: nat, d: nat, val: Word): Hop {
    var g := Hi(val);
    if g >= |m| then Hop(None, (s, d), 0, true)
    else
      var off := Low(val) / 8;
      if off + 1 > |m[g].words| then Hop(Some(g), (s, d), 0, true)
      else
        var w := m[g].words[off];
        Hop(Some(g), (g, off), w, Field(w) == 0)
  }

  /** `lookup_double`: a far word and a tag without offset. */
  function LookupDouble(m: Mem, s: nat, d: nat, val: Word): Hop {
    var g := Hi(val);
    if g >= |m| then Hop(None, (s, d), 0, false)
    else
      var off := Low(val) / 8;
      if off + 2 > |m[g].words| then Hop(Some(g), (s, d), 0, false)
      else
        var far, tag := m[g].words[off], m[g].words[off + 1];
        if far % 8 != 2 || Low(tag) > 1 then Hop(Some(g), (s, d), 0, false)
        else if Hi(far) >= |m| then Hop(None, (s, d), 0, false)
        else
          var words: int := Low(far) / 8;
          Hop(Some(Hi(far)), (Hi(far), 0), Pack(Low(tag), (words - 1) % TWO30, Hi(tag)), false)
  }

  function Chase(m: Mem, s: nat, d: nat): Hop
    requires InMem(m, s, d)
  {
    var val := m[s].words[d];
    if val % 8 == 2 then LookupFar(m, s, d, val)
    else if val % 8 == 6 then LookupDouble(m, s, d, val)
    else Hop(Some(s), (s, d), val, false)
  }

  /** The bytes from word `pos` to the end of the segment. */
  function BytesLeft(m: Mem, g: nat, pos: nat): int
    requires g < |m|
  {
    8 * (|m[g].words| - pos)
  }

  function ReadStruct(left: int, g: nat, pos: nat, val: Word, tagged: bool): Ptr {
    var datasz, ptrs := Hi(val) % TWO16 * 8, Hi(val) / TWO16;
    if datasz + 8 * ptrs > left then NULL
    else Ptr(if val == 0 then Null else Struct, tagged, false, false, datasz, ptrs, 0, Some(g), Some(pos))
  }

  function ReadComposite(left: int, tag: Word, g: nat, pos: nat, len: nat, tagged: bool): Ptr {
    var datasz, ptrs, n := Hi(tag) % TWO16 * 8, Hi(tag) / TWO16, Field(tag);
    if left < 8 || Times(n, datasz + 8 * ptrs) != 8 * len || 8 * len > left - 8 then NULL
    else Ptr(List, tagged, false, true, datasz, ptrs, n, Some(g), Some(pos + 1))
  }

  function ReadList(left: int, tag: Word, g: nat, pos: nat, val: Word, tagged: bool): Ptr {
    var len := Hi(val) / 8;
    var flat := (kind: Kind, datasz: nat, bytes: nat) =>
      if bytes > left then NULL
      else Ptr(kind, tagged, false, false, datasz, 0, len, Some(g), Some(pos));
    match Hi(val) % 8
    case 0 => flat(List, 0, 0)
    case 1 => flat(BitList, (len + 7) / 8 % TWO19, (len + 7) / 8 % TWO19)
    case 2 => flat(List, 1, len)
    case 3 => flat(List, 2, 2 * len)
    case 4 => flat(List, 4, 4 * len)
    case 5 => flat(List, 8, 8 * len)
    case 6 => flat(PtrList, 0, 8 * len)
    case _ => ReadComposite(left, tag, g, pos, len, tagged)
  }

  /** The word at a position, for a reader that checks the bounds itself. */
  function WordAt(m: Mem, g: nat, pos: nat): Word {
    if InMem(m, g, pos) then m[g].words[pos] else 0
  }

  /** The object that a pointer word found at word `pos - 1 - offset` of segment `g` names. */
  function Object(left: int, tag: Word, g: nat, pos: nat, val: Word, tagged: bool): Ptr {
    if val % 4 == 0 then ReadStruct(left, g, pos, val, tagged)
    else if val % 4 == 1 then ReadList(left, tag, g, pos, val, tagged)
    else NULL
  }

  function Decode(m: Mem, h: Hop): Ptr {
    if h.seg.None? || h.seg.value >= |m| || h.at.0 != h.seg.value || !(0 <= h.at.1 <= |m[h.seg.value].words|) then NULL
    else
      var g := h.seg.value;
      var pos := h.at.1 + Signed(Field(h.val)) + 1;
      if !(0 <= pos <= |m[g].words|) then NULL
      else Object(BytesLeft(m, g, pos), WordAt(m, g, pos), g, pos, h.val, h.tagged)
  }

  /** `read_ptr`. */
  function ReadPtr(m: Mem, s: nat, d: nat): Ptr
    requires s < |m|
  {
    if d >= |m[s].words| then NULL else Decode(m, Chase(m, s, d))
  }

  // ----- writing

  datatype Write = Wrote(mem: Mem) | Refused | NeedToCopy

  /** Where the pointer's data starts in memory: a composite list has a tag word in front. */
  function DataStartIn(cap: nat, p: Ptr): Option<nat> {
    if p.composite && p.pos.Some? && cap >= 1 && 1 <= p.pos.value <= cap then Some(p.pos.value - 1) else p.pos
  }

  function DataStart(m: Mem, p: Ptr): Option<nat> {
    if p.seg.Some? && p.seg.value < |m| then DataStartIn(m[p.seg.value].cap, p) else p.pos
  }

  predicate InSeg(m: Mem, s: nat, pos: Option<nat>)
    requires s < |m|
  {
    pos.Some? && pos.value <= m[s].cap
  }

  /** A tag word behind the target's segment and a far word to it. */
  function WriteByTag(m: Mem, s: nat, d: nat, p: Ptr, g: nat, start: nat): Mem
    requires Sized(m) && InMem(m, s, d) && p.datasz < TWO19 && p.ptrs < TWO16 && g < |m|
  {
    var t := |m[g].words|;
    Put(Push(m, g, [TagWord(p, start - t - 1)]), s, d, FarWord(m, false, g, Some(t)))
  }

  /** A two-word landing pad in the slot's own segment, else anywhere, and a double far word to it. */
  function WriteByPad(m: Mem, s: nat, d: nat, p: Ptr, g: nat, start: Option<nat>): Write
    requires Sized(m) && InMem(m, s, d) && p.datasz < TWO19 && p.ptrs < TWO16 && g < |m|
  {
    var far, tag := FarWord(m, false, g, start), TagWord(p, 0);
    if Room(m[s], 2) then
      Wrote(Put(Push(m, s, [far, tag]), s, d, FarWord(m, true, s, Some(|m[s].words|))))
    else PadElsewhere(m, s, d, far, tag)
  }

  /** The landing pad goes where two words can be had. */
  function PadElsewhere(m: Mem, s: nat, d: nat, far: Word, tag: Word): Write
    requires Sized(m) && InMem(m, s, d)
  {
    match NewData(m, 2)
    case NoRoom => Refused
    case Alloc(m', s', t) =>
      NewDataSized(m, 2);
      Wrote(Put(Put(Put(m', s', t, far), s', t + 1, tag), s, d, FarWord(m', true, s', Some(t))))
  }

  /** `write_ptr` into slot (s, d).  `foreign` says that the target lives in another message. */
  function WritePtr(m: Mem, s: nat, d: nat, p: Ptr, foreign: bool): Write
    requires Sized(m) && InMem(m, s, d) && p.datasz < TWO19 && p.ptrs < TWO16
    requires p.seg.Some? && !foreign ==> p.seg.value < |m|
  {
    if p.kind == Null || (p.kind == Struct && p.datasz == 0 && p.ptrs == 0) then Wrote(Put(m, s, d, TagWord(p, 0)))
    else if p.seg.None? || foreign || p.member then NeedToCopy
    else
      var g, start := p.seg.value, DataStart(m, p);
      if g == s then
        if !InSeg(m, s, start) then Refused else Wrote(Put(m, s, d, TagWord(p, start.value - d - 1)))
      else if p.hasTag then
        if !InSeg(m, g, start) || start.value < 1 then Refused
        else Wrote(Put(m, s, d, FarWord(m, false, g, Some(start.value - 1))))
      else WriteTagged(m, s, d, p, g, start)
  }

  /** The target lies in another segment without a tag word: one behind that segment, or a landing pad. */
  function WriteTagged(m: Mem, s: nat, d: nat, p: Ptr, g: nat, start: Option<nat>): Write
    requires Sized(m) && InMem(m, s, d) && p.datasz < TWO19 && p.ptrs < TWO16 && g < |m|
  {
    if Room(m[g], 1) then
      if !InSeg(m, g, start) then Refused else Wrote(WriteByTag(m, s, d, p, g, start.value))
    else WriteByPad(m, s, d, p, g, start)
  }

  lemma NewDataSized(m: Mem, n: nat)
    requires Sized(m) && NewData(m, n).Alloc?
    ensures Sized(NewData(m, n).mem)
  {
  }

  // ----- what a written slot resolves to

  function Bytes(p: Ptr): int {
    match p.kind
    case Struct => p.datasz + 8 * p.ptrs
    case List => if p.composite then 8 * Elements(p) else Times(p.len, p.datasz)
    case BitList => p.datasz
    case PtrList => 8 * p.len
    case _ => 0
  }

  /** The shapes that the constructors make and that reading gives back. */
  predicate Shape(p: Ptr) {
    && p.datasz < TWO19 && p.ptrs < TWO16
    && match p.kind
       case Struct => !p.composite && p.len == 0 && p.datasz % 8 == 0 && p.datasz + 8 * p.ptrs > 0
       case List =>
         if p.composite then 0 <= p.len < TWO30 && p.datasz % 8 == 0 && Elements(p) < TWO29
         else 0 <= p.len < TWO29 && p.datasz in {0, 1, 2, 4, 8} && p.ptrs == 0
       case BitList => !p.composite && 0 <= p.len < TWO29 && p.ptrs == 0 && p.datasz == (p.len + 7) / 8 % TWO19
       case PtrList => !p.composite && 0 <= p.len < TWO29 && p.ptrs == 0 && p.datasz == 0
       case _ => false
  }

  /** The tag word in front of a composite list's elements. */
  predicate Headed(m: Mem, p: Ptr)
    requires p.seg.Some? && p.pos.Some?
  {
    p.composite ==>
      && p.pos.value >= 1 && InMem(m, p.seg.value, p.pos.value - 1)
      && var w := m[p.seg.value].words[p.pos.value - 1]; Field(w) == p.len && Hi(w) == p.datasz / 8 + TWO16 * p.ptrs
  }

  function Start(p: Ptr): int
    requires p.pos.Some?
  {
    if p.composite then p.pos.value - 1 else p.pos.value
  }

  /** A pointer that names an object of this message. */
  predicate Target(m: Mem, p: Ptr) {
    && Shape(p) && !p.member && p.seg.Some? && p.pos.Some? && p.seg.value < |m|
    && 8 * p.pos.value + Bytes(p) <= 8 * |m[p.seg.value].words|
    && Headed(m, p)
    && (p.hasTag ==> 1 <= Start(p) && InMem(m, p.seg.value, Start(p) - 1)
                     && m[p.seg.value].words[Start(p) - 1] == TagWord(p, 0))
  }

  /** Storing into the slot leaves alone the words that the target itself depends on. */
  predicate Clear(p: Ptr, s: nat, d: nat)
    requires p.seg.Some? && p.pos.Some?
  {
    p.seg.value == s ==> (p.composite ==> d != Start(p)) && (p.hasTag ==> d != Start(p) - 1)
  }

  predicate Same(q: Ptr, p: Ptr) {
    && q.kind == p.kind && q.seg == p.seg && q.pos == p.pos && q.len == p.len
    && q.datasz == p.datasz && q.ptrs == p.ptrs && q.composite == p.composite
  }

  lemma SignedField(off: int)
    requires -TWO29 <= off < TWO29
    ensures Signed(off % TWO30) == off
  {
  }

  function TagHigh(p: Ptr): nat
    requires Shape(p)
  {
    match p.kind
    case Struct => p.datasz / 8 + TWO16 * p.ptrs
    case List => if p.composite then 7 + 8 * Elements(p) else SizeCode(p.datasz) + 8 * p.len
    case BitList => 1 + 8 * p.len
    case PtrList => 6 + 8 * p.len
  }

  lemma TagPacked(p: Ptr, off: int)
    requires Shape(p)
    ensures TagHigh(p) < TWO32 && (p.kind == Struct ==> TagHigh(p) > 0)
    ensures TagWord(p, off) == Pack(if p.kind == Struct then 0 else 1, off % TWO30, TagHigh(p))
  {
    hide Times;
    match p.kind
    case Struct =>
    case List =>
      ElementsNonNegative(p);
      Small(if p.composite then Elements(p) else p.len);
    case _ => Small(p.len);
  }

  lemma Small(n: int)
    requires 0 <= n < TWO29
    ensures n % TWO29 == n
  {
  }

  lemma TagHi(p: Ptr, off: int)
    requires Shape(p)
    ensures TagHigh(p) < TWO32 && (p.kind == Struct ==> TagHigh(p) > 0)
    ensures var w := TagWord(p, off);
      && w % 4 == (if p.kind == Struct then 0 else 1) && Field(w) == off % TWO30 && Hi(w) == TagHigh(p)
      && w % 8 == w % 4 + 4 * (off % TWO30 % 2) && Low(w) == w % 4 + 4 * (off % TWO30)
  {
    hide Times;
    TagPacked(p, off);
    Unpack(if p.kind == Struct then 0 else 1, off % TWO30, TagHigh(p));
  }

  lemma ListHigh(code: nat, n: nat)
    requires code < 8
    ensures (code + 8 * n) % 8 == code && (code + 8 * n) / 8 == n
  {
  }

  lemma StructHigh(words: nat, ptrs: nat)
    requires words < 0x1_0000
    ensures (words + 0x1_0000 * ptrs) % 0x1_0000 == words && (words + 0x1_0000 * ptrs) / 0x1_0000 == ptrs
  {
  }

  lemma DecodeStruct(m: Mem, p: Ptr, val: Word, tagged: bool)
    requires Target(m, p) && p.kind == Struct && Hi(val) == TagHigh(p)
    ensures ReadStruct(BytesLeft(m, p.seg.value, p.pos.value), p.seg.value, p.pos.value, val, tagged)
      == p.(hasTag := tagged)
  {
    StructHigh(p.datasz / 8, p.ptrs);
  }

  lemma DecodeList(m: Mem, p: Ptr, val: Word, tagged: bool)
    requires Target(m, p) && p.kind != Struct && Hi(val) == TagHigh(p)
    ensures ReadList(BytesLeft(m, p.seg.value, Start(p)), WordAt(m, p.seg.value, Start(p)), p.seg.value, Start(p), val,
                     tagged) == p.(hasTag := tagged)
  {
    hide Times;
    if p.composite {
      ListHigh(7, Elements(p));
      ElementsNonNegative(p);
      DecodeComposite(m, p, tagged);
    } else if p.kind == List {
      ListHigh(SizeCode(p.datasz), p.len);
      UnitTimes(p.len);
    } else {
      ListHigh(if p.kind == BitList then 1 else 6, p.len);
    }
  }

  /** A tag word at the right distance decodes to the object it was made from. */
  lemma DecodeTag(m: Mem, p: Ptr, off: int, h: Hop)
    requires Target(m, p) && -TWO29 <= off < TWO29
    requires h.seg == p.seg && h.at.0 == p.seg.value && h.at.1 + 1 + off == Start(p)
    requires 0 <= h.at.1 <= |m[p.seg.value].words|
    requires h.val % 4 == (if p.kind == Struct then 0 else 1) && Field(h.val) == off % TWO30 && Hi(h.val) == TagHigh(p)
    ensures Decode(m, h) == p.(hasTag := h.tagged)
  {
    hide Times;
    hide ReadStruct;
    hide ReadList;
    SignedField(off);
    if p.kind == Struct {
      DecodeStruct(m, p, h.val, h.tagged);
    } else {
      DecodeList(m, p, h.val, h.tagged);
    }
    InBounds(m, p);
  }

  lemma InBounds(m: Mem, p: Ptr)
    requires Target(m, p)
    ensures 0 <= Start(p) <= p.pos.value <= |m[p.seg.value].words|
  {
    hide Times;
    if p.kind == List {
      ElementsNonNegative(p);
    }
  }

  lemma DecodeComposite(m: Mem, p: Ptr, tagged: bool)
    requires Target(m, p) && p.composite
    ensures Elements(p) >= 0
    ensures ReadComposite(BytesLeft(m, p.seg.value, Start(p)), WordAt(m, p.seg.value, Start(p)), p.seg.value, Start(p),
                          Elements(p), tagged) == p.(hasTag := tagged)
  {
    hide Times;
    StructHigh(p.datasz / 8, p.ptrs);
    ElementsNonNegative(p);
    Scale(p.len, p.datasz / 8, p.ptrs);
  }

  lemma UnitTimes(n: int)
    ensures Times(n, 0) == 0 && Times(n, 1) == n && Times(n, 2) == 2 * n && Times(n, 4) == 4 * n && Times(n, 8) == 8 * n
  {
  }

  lemma Scale(n: int, a: int, b: int)
    ensures Times(n, 8 * a + 8 * b) == 8 * Times(n, a + b)
  {
  }

  // ----- round trip

  /** Only slot (s, d) may have changed; segments may have grown and new ones may have come. */
  predicate Extends(m: Mem, m': Mem, s: nat, d: nat) {
    && |m| <= |m'|
    && forall i :: 0 <= i < |m| ==>
         && m[i].cap == m'[i].cap && |m[i].words| <= |m'[i].words|
         && forall k :: 0 <= k < |m[i].words| && (i, k) != (s, d) ==> m'[i].words[k] == m[i].words[k]
  }

  lemma TargetKept(m: Mem, m': Mem, s: nat, d: nat, p: Ptr)
    requires Target(m, p) && Clear(p, s, d) && Extends(m, m', s, d)
    ensures Target(m', p)
  {
    hide Times;
    hide Shape;
    hide Bytes;
    hide TagWord;
  }

  lemma FarBits(m: Mem, double: bool, g: nat, pos: nat)
    requires Sized(m) && g < |m| && pos < m[g].cap
    ensures var w := FarWord(m, double, g, Some(pos));
      && w % 8 == (if double then 6 else 2) && w % 4 == 2 && Hi(w) == g && Low(w) / 8 == pos
  {
    var b := if double then 1 else 0;
    Unpack(2, 2 * pos + b, g);
    LowThree(2 + 4 * b, pos);
  }

  /** A slot holding a far word resolves through the tag it points at. */
  lemma ReadFar(m: Mem, s: nat, d: nat, p: Ptr, t: nat, off: int)
    requires Sized(m) && InMem(m, s, d) && Target(m, p) && -TWO29 <= off < TWO29
    requires InMem(m, p.seg.value, t) && t + 1 + off == Start(p)
    requires m[s].words[d] == FarWord(m, false, p.seg.value, Some(t)) && m[p.seg.value].words[t] == TagWord(p, off)
    ensures ReadPtr(m, s, d) == p.(hasTag := off == 0)
  {
    hide Times;
    hide Decode;
    FarBits(m, false, p.seg.value, t);
    TagHi(p, off);
    SignedField(off);
    DecodeTag(m, p, off, Chase(m, s, d));
  }

  lemma ReadNear(m: Mem, s: nat, d: nat, p: Ptr)
    requires Sized(m) && InMem(m, s, d) && Target(m, p) && p.seg.value == s
    requires m[s].words[d] == TagWord(p, Start(p) - d - 1)
    ensures ReadPtr(m, s, d) == p.(hasTag := false)
  {
    hide Decode;
    InBounds(m, p);
    var off := Start(p) - d - 1;
    TagHi(p, off);
    DecodeTag(m, p, off, Chase(m, s, d));
  }

  /** A double far word resolves through its two-word landing pad. */
  lemma ReadDouble(m: Mem, s: nat, d: nat, p: Ptr, g: nat, t: nat)
    requires Sized(m) && InMem(m, s, d) && Target(m, p) && InMem(m, g, t + 1) && Start(p) >= 0
    requires m[s].words[d] == FarWord(m, true, g, Some(t)) && m[g].words[t + 1] == TagWord(p, 0)
    requires m[g].words[t] == FarWord(m, false, p.seg.value, Some(Start(p)))
    ensures if Start(p) < m[p.seg.value].cap then ReadPtr(m, s, d) == p.(hasTag := false)
            else ReadPtr(m, s, d).kind == Null
  {
    hide Times;
    hide Decode;
    FarBits(m, true, g, t);
    TagHi(p, 0);
    if Start(p) < m[p.seg.value].cap {
      FarBits(m, false, p.seg.value, Start(p));
      var kind: nat := if p.kind == Struct then 0 else 1;
      Unpack(kind, (Start(p) - 1) % TWO30, TagHigh(p));
      DecodeTag(m, p, Start(p) - 1, Chase(m, s, d));
    } else {
      DecodeZero(m, Chase(m, s, d));
    }
  }

  lemma DecodeZero(m: Mem, h: Hop)
    requires h.val == 0
    ensures Decode(m, h).kind == Null
  {
  }

  lemma PutExtends(m: Mem, m1: Mem, s: nat, d: nat, w: Word)
    requires Sized(m1) && Extends(m, m1, s, d) && InMem(m, s, d) && InMem(m1, s, d)
    ensures Extends(m, Put(m1, s, d, w), s, d) && Sized(Put(m1, s, d, w))
  {
  }

  lemma PushExtends(m: Mem, g: nat, ws: seq<Word>, s: nat, d: nat)
    requires Sized(m) && g < |m| && Room(m[g], |ws|)
    ensures Extends(m, Push(m, g, ws), s, d) && Sized(Push(m, g, ws))
  {
  }

  lemma NewPadExtends(m: Mem, w0: Word, w1: Word, s: nat, d: nat)
    requires Sized(m) && NewData(m, 2).Alloc?
    ensures var a := NewData(m, 2);
      && InMem(a.mem, a.seg, a.pos + 1)
      && var m1 := Put(Put(a.mem, a.seg, a.pos, w0), a.seg, a.pos + 1, w1);
      && Extends(m, m1, s, d) && Sized(m1)
      && m1[a.seg].words[a.pos] == w0 && m1[a.seg].words[a.pos + 1] == w1
      && (a.seg < |m| ==> a.pos == |m[a.seg].words|)
  {
    NewDataSized(m, 2);
    hide CreateCap;
  }

  /** `write_ptr` touches its slot and adds words past the end of segments, nothing else. */
  lemma WriteExtends(m: Mem, s: nat, d: nat, p: Ptr, foreign: bool)
    requires Sized(m) && InMem(m, s, d) && p.datasz < TWO19 && p.ptrs < TWO16
    requires p.seg.Some? && !foreign ==> p.seg.value < |m|
    requires WritePtr(m, s, d, p, foreign).Wrote?
    ensures Extends(m, WritePtr(m, s, d, p, foreign).mem, s, d) && Sized(WritePtr(m, s, d, p, foreign).mem)
  {
    hide TagWord;
    hide FarWord;
    hide NewData;
    hide DataStart;
    Itself(m, s, d);
    if p.kind == Null || (p.kind == Struct && p.datasz == 0 && p.ptrs == 0) {
      PutExtends(m, m, s, d, TagWord(p, 0));
    } else {
      var g, start := p.seg.value, DataStart(m, p);
      if g == s {
        PutExtends(m, m, s, d, TagWord(p, start.value - d - 1));
      } else if p.hasTag {
        PutExtends(m, m, s, d, FarWord(m, false, g, Some(start.value - 1)));
      } else if Room(m[g], 1) {
        var t := |m[g].words|;
        PushExtends(m, g, [TagWord(p, start.value - t - 1)], s, d);
        PutExtends(m, Push(m, g, [TagWord(p, start.value - t - 1)]), s, d, FarWord(m, false, g, Some(t)));
      } else {
        PadExtends(m, s, d, [FarWord(m, false, g, start), TagWord(p, 0)]);
      }
    }
  }

  lemma Itself(m: Mem, s: nat, d: nat)
    ensures Extends(m, m, s, d)
  {
  }

  lemma PadExtends(m: Mem, s: nat, d: nat, pad: seq<Word>)
    requires Sized(m) && InMem(m, s, d) && |pad| == 2 && (Room(m[s], 2) || NewData(m, 2).Alloc?)
    ensures Room(m[s], 2) ==>
      var m' := Put(Push(m, s, pad), s, d, FarWord(m, true, s, Some(|m[s].words|)));
      Extends(m, m', s, d) && Sized(m')
    ensures !Room(m[s], 2) ==>
      var a := NewData(m, 2);
      && Sized(a.mem) && InMem(a.mem, a.seg, a.pos + 1)
      && var m1 := Put(Put(a.mem, a.seg, a.pos, pad[0]), a.seg, a.pos + 1, pad[1]);
      && InMem(m1, s, d)
      && var m' := Put(m1, s, d, FarWord(a.mem, true, a.seg, Some(a.pos)));
      && Extends(m, m', s, d) && Sized(m')
  {
    hide FarWord;
    hide NewData;
    if Room(m[s], 2) {
      PushExtends(m, s, pad, s, d);
      PutExtends(m, Push(m, s, pad), s, d, FarWord(m, true, s, Some(|m[s].words|)));
    } else {
      var a := NewData(m, 2);
      NewDataSized(m, 2);
      NewPadExtends(m, pad[0], pad[1], s, d);
      PutExtends(m, Put(Put(a.mem, a.seg, a.pos, pad[0]), a.seg, a.pos + 1, pad[1]), s, d,
                 FarWord(a.mem, true, a.seg, Some(a.pos)));
    }
  }

  /** The target can be named from the slot: the one encoding that cannot is a double far pointer to
      data that starts at the very end of a full segment. */
  predicate Linkable(m: Mem, s: nat, p: Ptr)
    requires p.seg.Some? && p.pos.Some? && p.seg.value < |m|
  {
    p.seg.value == s || p.hasTag || Room(m[p.seg.value], 1) || Start(p) < m[p.seg.value].cap
  }

  lemma TargetBasics(m: Mem, p: Ptr)
    requires Target(m, p)
    ensures p.datasz < TWO19 && p.ptrs < TWO16 && p.kind != Null && !(p.kind == Struct && p.datasz == 0 && p.ptrs == 0)
    ensures p.seg.Some? && p.pos.Some? && p.seg.value < |m| && !p.member
    ensures 0 <= Start(p) <= p.pos.value <= |m[p.seg.value].words|
    ensures Target(m, p.(hasTag := false))
    ensures Sized(m) ==> DataStart(m, p) == Some(Start(p))
  {
    InBounds(m, p);
  }

  lemma FarSame(m: Mem, m': Mem, double: bool, g: nat, pos: Option<nat>)
    requires Sized(m) && Sized(m') && g < |m| <= |m'| && m[g].cap == m'[g].cap
    ensures FarWord(m, double, g, pos) == FarWord(m', double, g, pos)
  {
  }

  /** The double far case: where the pad went. */
  lemma PadWritten(m: Mem, s: nat, d: nat, p: Ptr) returns (g': nat, t: nat)
    requires Sized(m) && InMem(m, s, d) && Target(m, p)
    requires p.seg.value != s && !p.hasTag && !Room(m[p.seg.value], 1)
    requires Room(m[s], 2) || NewData(m, 2).Alloc?
    ensures var w := WritePtr(m, s, d, p, false);
      && w.Wrote? && Sized(w.mem) && Extends(m, w.mem, s, d) && InMem(w.mem, g', t + 1)
      && w.mem[s].words[d] == FarWord(w.mem, true, g', Some(t))
      && w.mem[g'].words[t] == FarWord(w.mem, false, p.seg.value, Some(Start(p)))
      && w.mem[g'].words[t + 1] == TagWord(p, 0)
    ensures if Room(m[s], 2) then g' == s && t == |m[s].words| else g' == NewData(m, 2).seg && t == NewData(m, 2).pos
    ensures !InMem(m, g', t) && !InMem(m, g', t + 1)
  {
    hide Times;
    hide FarWord;
    hide TagWord;
    hide Target;
    TargetBasics(m, p);
    WriteExtends(m, s, d, p, false);
    var m' := WritePtr(m, s, d, p, false).mem;
    FarSame(m, m', false, p.seg.value, Some(Start(p)));
    if Room(m[s], 2) {
      g', t := s, |m[s].words|;
      FarSame(m, m', true, s, Some(t));
    } else {
      g', t := NewData(m, 2).seg, NewData(m, 2).pos;
      NewDataSized(m, 2);
      FarSame(NewData(m, 2).mem, m', true, g', Some(t));
    }
  }

  /** The case of a tag put behind the target's segment. */
  lemma TagWritten(m: Mem, s: nat, d: nat, p: Ptr)
    requires Sized(m) && InMem(m, s, d) && Target(m, p)
    requires p.seg.value != s && !p.hasTag && Room(m[p.seg.value], 1)
    ensures var w, t := WritePtr(m, s, d, p, false), |m[p.seg.value].words|;
      && w.Wrote? && Sized(w.mem) && Extends(m, w.mem, s, d) && InMem(w.mem, p.seg.value, t)
      && w.mem[s].words[d] == FarWord(w.mem, false, p.seg.value, Some(t))
      && w.mem[p.seg.value].words[t] == TagWord(p, Start(p) - t - 1)
  {
    hide Times;
    hide FarWord;
    hide TagWord;
    hide Target;
    TargetBasics(m, p);
    WriteExtends(m, s, d, p, false);
    FarSame(m, WritePtr(m, s, d, p, false).mem, false, p.seg.value, Some(|m[p.seg.value].words|));
  }

  /** A write of a proper target fails only when a landing pad is needed and there is no room for it. */
  lemma WroteWhen(m: Mem, s: nat, d: nat, p: Ptr)
    requires Sized(m) && InMem(m, s, d) && Target(m, p)
    ensures WritePtr(m, s, d, p, false).Wrote? <==>
      p.seg.value == s || p.hasTag || Room(m[p.seg.value], 1) || Room(m[s], 2) || NewData(m, 2).Alloc?
  {
    hide Times;
    hide TagWord;
    hide FarWord;
    TargetBasics(m, p);
  }

  /** The target lies in the slot's own segment, or brings its own tag word. */
  lemma DirectWritten(m: Mem, s: nat, d: nat, p: Ptr)
    requires Sized(m) && InMem(m, s, d) && Target(m, p) && (p.seg.value == s || p.hasTag)
    ensures var w := WritePtr(m, s, d, p, false);
      && w.Wrote? && Sized(w.mem) && Extends(m, w.mem, s, d)
      && (p.seg.value == s ==> w.mem[s].words[d] == TagWord(p, Start(p) - d - 1))
      && (p.seg.value != s ==>
            && Start(p) >= 1 && InMem(w.mem, p.seg.value, Start(p) - 1)
            && w.mem[s].words[d] == FarWord(w.mem, false, p.seg.value, Some(Start(p) - 1))
            && w.mem[p.seg.value].words[Start(p) - 1] == TagWord(p, 0))
  {
    hide Times;
    hide FarWord;
    hide TagWord;
    TargetBasics(m, p);
    WriteExtends(m, s, d, p, false);
    if p.seg.value != s {
      FarSame(m, WritePtr(m, s, d, p, false).mem, false, p.seg.value, Some(Start(p) - 1));
    }
  }

  /** Writing a pointer and resolving the slot gives the same object back, whichever encoding was
      chosen, exactly when the target is linkable; what is read can itself be written again. */
  lemma WriteThenRead(m: Mem, s: nat, d: nat, p: Ptr)
    requires Sized(m) && InMem(m, s, d) && Target(m, p) && Clear(p, s, d)
    ensures var w := WritePtr(m, s, d, p, false);
      && (w.Wrote? <==>
            p.seg.value == s || p.hasTag || Room(m[p.seg.value], 1) || Room(m[s], 2) || NewData(m, 2).Alloc?)
      && (w.Wrote? ==>
           var q := ReadPtr(w.mem, s, d);
           && (Same(q, p) <==> Linkable(m, s, p))
           && (Linkable(m, s, p) ==> Target(w.mem, q)))
  {
    hide TagWord;
    hide FarWord;
    hide ReadPtr;
    hide Shape;
    hide WritePtr;
    TargetBasics(m, p);
    WroteWhen(m, s, d, p);
    var g, start := p.seg.value, Start(p);
    var w := WritePtr(m, s, d, p, false);
    if w.Wrote? {
      WriteExtends(m, s, d, p, false);
      TargetKept(m, w.mem, s, d, p);
      if g == s {
        DirectWritten(m, s, d, p);
        ReadNear(w.mem, s, d, p);
      } else if p.hasTag {
        DirectWritten(m, s, d, p);
        ReadFar(w.mem, s, d, p, start - 1, 0);
      } else if Room(m[g], 1) {
        TagWritten(m, s, d, p);
        ReadFar(w.mem, s, d, p, |m[g].words|, start - |m[g].words| - 1);
      } else {
        var g', t := PadWritten(m, s, d, p);
        ReadDouble(w.mem, s, d, p, g', t);
      }
    }
  }

  /** The one encoding that does not round-trip, on a concrete message: an empty list at the very end of a
      full segment, linked from another segment, reads back as null. */
  lemma EndOfSegment()
    ensures var m := [Seg([0], 3), Seg([7], 1)];
      var p := Ptr(List, false, false, false, 0, 0, 0, Some(1), Some(1));
      && Sized(m) && InMem(m, 0, 0) && Target(m, p) && Clear(p, 0, 0) && !Linkable(m, 0, p)
      && var w := WritePtr(m, 0, 0, p, false); w.Wrote? && ReadPtr(w.mem, 0, 0).kind == Null
  {
    var m := [Seg([0], 3), Seg([7], 1)];
    var p := Ptr(List, false, false, false, 0, 0, 0, Some(1), Some(1));
    hide TagWord;
    hide FarWord;
    hide ReadPtr;
    hide WritePtr;
    WroteWhen(m, 0, 0, p);
    var g, t := PadWritten(m, 0, 0, p);
    var w := WritePtr(m, 0, 0, p, false);
    TargetKept(m, w.mem, 0, 0, p);
    ReadDouble(w.mem, 0, 0, p, g, t);
  }

  // ----- making objects

  datatype Made = Made(mem: Mem, ptr: Ptr)

  /** `new_object`: room for `bytes` in the segment `p` names, else in another one behind a tag word. */
  function NewObject(m: Mem, p: Ptr, bytes: int): Made
    requires p.datasz < TWO19 && p.ptrs < TWO16 && (p.seg.Some? ==> p.seg.value < |m|)
  {
    if p.seg.None? || bytes < 0 then Made(m, NULL)
    else if bytes == 0 then Made(m, p)
    else if bytes > INT_MAX - 7 then Made(m, NULL)
    else
      var s, n := p.seg.value, (bytes + 7) / 8;
      if Room(m[s], n) then Made(Push(m, s, Zeros(n)), p.(pos := Some(|m[s].words|)))
      else if 8 * n > INT_MAX - 8 then Made(m, NULL)
      else
        match NewData(m, n + 1)
        case NoRoom => Made(m, NULL)
        case Alloc(m', g, t) =>
          Made(Put(m', g, t, TagWord(p, 0)), p.(seg := Some(g), pos := Some(t + 1), hasTag := true))
  }

  function Align(n: int): int { (n + 7) / 8 * 8 }

  /** `capn_new_struct`; the sizes are cut to the bit fields of `capn_ptr`. */
  function NewStruct(m: Mem, s: nat, datasz: int, ptrs: int): Made
    requires s < |m|
  {
    if datasz < 0 || ptrs < 0 || datasz > INT_MAX - 7 then Made(m, NULL)
    else
      var bytes := Align(datasz) + 8 * ptrs;
      if bytes > INT_MAX then Made(m, NULL)
      else NewObject(m, Ptr(Struct, false, false, false, Align(datasz) % TWO19, ptrs % TWO16, 0, Some(s), None), bytes)
  }

  /** The word in front of a composite list's elements.  A length of 2^30 or more, which only elements
      without size can have, runs into the upper half. */
  function ListHeader(len: nat, datasz: nat, ptrs: nat): Word
    requires len <= INT_MAX && datasz < TWO19 && ptrs < TWO16 && (len >= TWO30 ==> datasz / 8 + TWO16 * ptrs == 0)
  {
    4 * len + TWO32 * (datasz / 8 + TWO16 * ptrs)
  }

  /** Elements that take up space are fewer than 2^28. */
  lemma LongList(len: int, datasz: nat, ptrs: nat)
    requires datasz % 8 == 0 && Times(len, datasz + 8 * ptrs) + 8 <= INT_MAX
    ensures len >= TWO30 ==> datasz == 0 && ptrs == 0
  {
    hide Times;
    if len >= TWO30 && datasz + 8 * ptrs >= 8 {
      TimesMore(len, 8, datasz + 8 * ptrs);
    }
  }

  lemma TimesMore(n: int, a: int, b: int)
    requires n >= 0 && a <= b
    ensures Times(n, a) <= Times(n, b) && Times(n, 8) == 8 * n
  {
  }

  /** `capn_new_list`; `sz` is an `int` of the source. */
  function NewList(m: Mem, s: nat, sz: int, datasz: int, ptrs: int): Made
    requires s < |m|
  {
    hide Times;
    var p := Ptr(List, false, false, false, 0, 0, sz, Some(s), None);
    if sz == 0 then Made(m, p)
    else if ptrs != 0 || datasz > 8 then
      if datasz > INT_MAX - 7 || sz < 0 || ptrs < 0 then Made(m, NULL)
      else
        var q := p.(composite := true, datasz := Align(datasz) % TWO19, ptrs := ptrs % TWO16);
        var bytes := Times(sz, q.datasz + 8 * q.ptrs) + 8;
        if bytes > INT_MAX || sz > INT_MAX then Made(m, NULL)
        else
          LongList(sz, q.datasz, q.ptrs);
          var r := NewObject(m, q, bytes);
          if r.ptr.pos.None? then r
          else
            assert InMem(r.mem, r.ptr.seg.value, r.ptr.pos.value);
            Made(Put(r.mem, r.ptr.seg.value, r.ptr.pos.value, ListHeader(sz, q.datasz, q.ptrs)),
                 r.ptr.(pos := Some(r.ptr.pos.value + 1)))
    else if sz < 0 || datasz < 0 then Made(m, NULL)
    else
      var unit := if datasz > 4 then 8 else if datasz > 2 then 4 else datasz;
      if Times(sz, unit) > INT_MAX then Made(m, NULL) else NewObject(m, p.(datasz := unit), Times(sz, unit))
  }

  /** `capn_new_list1`, whose byte count is cut to the bit field too. */
  function NewBitList(m: Mem, s: nat, sz: int): Made
    requires s < |m|
  {
    if sz < 0 || sz > INT_MAX - 7 then Made(m, NULL)
    else
      var bytes := (sz + 7) / 8 % TWO19;
      NewObject(m, Ptr(BitList, false, false, false, bytes, 0, sz, Some(s), None), bytes)
  }

  /** `capn_new_ptr_list`. */
  function NewPtrList(m: Mem, s: nat, sz: int): Made
    requires s < |m|
  {
    if sz < 0 || 8 * sz > INT_MAX then Made(m, NULL)
    else NewObject(m, Ptr(PtrList, false, false, false, 0, 0, sz, Some(s), None), 8 * sz)
  }

  /** Nothing that was there has changed. */
  predicate Grows(m: Mem, m': Mem) {
    && |m| <= |m'|
    && forall i :: 0 <= i < |m| ==>
         && m[i].cap == m'[i].cap && |m[i].words| <= |m'[i].words|
         && forall k :: 0 <= k < |m[i].words| ==> m'[i].words[k] == m[i].words[k]
  }

  function OldLen(m: Mem, s: nat): nat {
    if s < |m| then |m[s].words| else 0
  }

  lemma NewDataFresh(m: Mem, n: nat)
    requires Sized(m) && NewData(m, n).Alloc?
    ensures var a := NewData(m, n);
      && Sized(a.mem) && Grows(m, a.mem) && a.seg < |a.mem| && a.pos == OldLen(m, a.seg)
      && |a.mem[a.seg].words| == a.pos + n
      && forall k :: a.pos <= k < a.pos + n ==> a.mem[a.seg].words[k] == 0
  {
    NewDataSized(m, n);
    hide CreateCap;
  }

  /** What `new_object` promises: fresh zeroed words, and the tag word in front when it says so. */
  predicate Fresh(m: Mem, p: Ptr, bytes: int, r: Made)
    requires p.datasz < TWO19 && p.ptrs < TWO16 && p.seg.Some?
  {
    && Sized(r.mem) && Grows(m, r.mem)
    && (r.ptr.pos.Some? ==>
         && bytes > 0 && r.ptr.seg.Some? && r.ptr.seg.value < |r.mem|
         && r.ptr == p.(seg := r.ptr.seg, pos := r.ptr.pos, hasTag := r.ptr.hasTag)
         && var g, pos, tag := r.ptr.seg.value, r.ptr.pos.value, if r.ptr.hasTag then 1 else 0;
         && pos == OldLen(m, g) + tag
         && |r.mem[g].words| == pos + (bytes + 7) / 8
         && (r.ptr.hasTag ==> r.mem[g].words[pos - 1] == TagWord(p, 0))
         && forall k :: pos <= k < pos + (bytes + 7) / 8 ==> r.mem[g].words[k] == 0)
    && (r.ptr.pos.None? ==> r.mem == m)
  }

  lemma PushFresh(m: Mem, s: nat, n: nat)
    requires Sized(m) && s < |m| && Room(m[s], n)
    ensures var m' := Push(m, s, Zeros(n));
      && Sized(m') && Grows(m, m') && |m'| == |m| && |m'[s].words| == |m[s].words| + n
      && forall k :: |m[s].words| <= k < |m[s].words| + n ==> m'[s].words[k] == 0
  {
  }

  lemma AllGrows(m: Mem)
    ensures Grows(m, m)
  {
  }

  lemma TagFresh(m: Mem, m': Mem, g: nat, t: nat, w: Word)
    requires Sized(m') && Grows(m, m') && InMem(m', g, t) && t == OldLen(m, g)
    ensures Sized(Put(m', g, t, w)) && Grows(m, Put(m', g, t, w))
  {
  }

  lemma ObjectMade(m: Mem, p: Ptr, bytes: int)
    requires Sized(m) && p.datasz < TWO19 && p.ptrs < TWO16 && p.seg.Some? && p.seg.value < |m|
    requires p.pos.None? && !p.hasTag
    ensures Fresh(m, p, bytes, NewObject(m, p, bytes))
  {
    hide TagWord;
    hide NewData;
    hide Sized;
    hide Grows;
    var s, n := p.seg.value, (bytes + 7) / 8;
    AllGrows(m);
    if bytes > 0 {
      if Room(m[s], n) {
        PushFresh(m, s, n);
      } else if NewData(m, n + 1).Alloc? {
        NewDataFresh(m, n + 1);
        var a := NewData(m, n + 1);
        TagFresh(m, a.mem, a.seg, a.pos, TagWord(p, 0));
      }
    }
  }

  function Base(p: Ptr): int
    requires p.pos.Some?
  {
    Start(p) - if p.hasTag then 1 else 0
  }

  function Words(p: Ptr): int {
    (Bytes(p) + 7) / 8
  }

  /** A constructor's result: a new object at the end of a segment, its cells zero. */
  predicate FreshTarget(m: Mem, r: Made) {
    && Sized(r.mem) && Grows(m, r.mem)
    && (r.ptr.pos.Some? && Shape(r.ptr) ==>
         && Target(r.mem, r.ptr)
         && Base(r.ptr) == OldLen(m, r.ptr.seg.value)
         && forall k :: r.ptr.pos.value <= k < r.ptr.pos.value + Words(r.ptr) ==> r.mem[r.ptr.seg.value].words[k] == 0)
  }

  lemma FlatMade(m: Mem, p: Ptr, bytes: int)
    requires Sized(m) && p.datasz < TWO19 && p.ptrs < TWO16 && p.seg.Some? && p.seg.value < |m|
    requires p.pos.None? && !p.hasTag && !p.composite && !p.member && (Shape(p) ==> 0 <= Bytes(p) <= bytes)
    ensures FreshTarget(m, NewObject(m, p, bytes))
  {
    hide Times;
    hide NewObject;
    ObjectMade(m, p, bytes);
    var r := NewObject(m, p, bytes);
    if r.ptr.pos.Some? && Shape(r.ptr) {
      SameTag(p, r.ptr);
    }
  }

  lemma SameTag(p: Ptr, q: Ptr)
    requires p.datasz < TWO19 && p.ptrs < TWO16 && q == p.(seg := q.seg, pos := q.pos, hasTag := q.hasTag)
    ensures TagWord(q, 0) == TagWord(p, 0) && Bytes(q) == Bytes(p) && Shape(q) == Shape(p)
  {
  }

  lemma HeaderBits(len: nat, datasz: nat, ptrs: nat)
    requires len < TWO30 && datasz < TWO19 && ptrs < TWO16
    ensures var w := ListHeader(len, datasz, ptrs); Field(w) == len && Hi(w) == datasz / 8 + TWO16 * ptrs
  {
    Unpack(0, len, datasz / 8 + TWO16 * ptrs);
  }

  /** Every constructor makes a fresh object or leaves memory alone. */
  lemma StructMade(m: Mem, s: nat, datasz: int, ptrs: int)
    requires Sized(m) && s < |m|
    ensures FreshTarget(m, NewStruct(m, s, datasz, ptrs))
  {
    hide NewObject;
    if 0 <= datasz <= INT_MAX - 7 && 0 <= ptrs && Align(datasz) + 8 * ptrs <= INT_MAX {
      FlatMade(m, Ptr(Struct, false, false, false, Align(datasz) % TWO19, ptrs % TWO16, 0, Some(s), None),
               Align(datasz) + 8 * ptrs);
    }
  }

  lemma BitListMade(m: Mem, s: nat, sz: int)
    requires Sized(m) && s < |m|
    ensures FreshTarget(m, NewBitList(m, s, sz))
  {
    hide NewObject;
    if 0 <= sz <= INT_MAX - 7 {
      var bytes := (sz + 7) / 8 % TWO19;
      FlatMade(m, Ptr(BitList, false, false, false, bytes, 0, sz, Some(s), None), bytes);
    }
  }

  lemma PtrListMade(m: Mem, s: nat, sz: int)
    requires Sized(m) && s < |m|
    ensures FreshTarget(m, NewPtrList(m, s, sz))
  {
    hide NewObject;
    if 0 <= sz && 8 * sz <= INT_MAX {
      FlatMade(m, Ptr(PtrList, false, false, false, 0, 0, sz, Some(s), None), 8 * sz);
    }
  }

  lemma ListMade(m: Mem, s: nat, sz: int, datasz: int, ptrs: int)
    requires Sized(m) && s < |m|
    ensures FreshTarget(m, NewList(m, s, sz, datasz, ptrs))
  {
    hide NewObject;
    hide Times;
    hide FreshTarget;
    var p := Ptr(List, false, false, false, 0, 0, sz, Some(s), None);
    Unchanged(m, p);
    Unchanged(m, NULL);
    if sz == 0 {
    } else if ptrs != 0 || datasz > 8 {
      var q := p.(composite := true, datasz := Align(datasz) % TWO19, ptrs := ptrs % TWO16);
      if datasz <= INT_MAX - 7 && 0 < sz <= INT_MAX && ptrs >= 0 {
        AlignedBytes(q);
        var bytes := Times(sz, q.datasz + 8 * q.ptrs) + 8;
        if bytes <= INT_MAX {
          LongList(sz, q.datasz, q.ptrs);
          if sz < TWO30 {
            CompositeMade(m, q, bytes);
          } else {
            LongMade(m, q, bytes);
          }
        }
      }
    } else if 0 <= sz && 0 <= datasz {
      var unit := if datasz > 4 then 8 else if datasz > 2 then 4 else datasz;
      ElementsNonNegative(p.(datasz := unit));
      if Times(sz, unit) <= INT_MAX {
        FlatMade(m, p.(datasz := unit), Times(sz, unit));
      }
    }
  }

  lemma Unchanged(m: Mem, p: Ptr)
    requires Sized(m) && p.pos.None?
    ensures FreshTarget(m, Made(m, p))
  {
  }

  lemma AlignedBytes(q: Ptr)
    requires q.datasz % 8 == 0 && q.len >= 0
    ensures Times(q.len, q.datasz + 8 * q.ptrs) == 8 * Elements(q) && Elements(q) >= 0
  {
    hide Times;
    Scale(q.len, q.datasz / 8, q.ptrs);
    ElementsNonNegative(q);
  }

  /** A list too long for a shape is memory that is used up. */
  lemma LongMade(m: Mem, q: Ptr, bytes: int)
    requires Sized(m) && q.datasz < TWO19 && q.ptrs < TWO16 && q.seg.Some? && q.seg.value < |m|
    requires q.kind == List && q.composite && !q.hasTag && q.pos.None? && TWO30 <= q.len <= INT_MAX
      && q.datasz / 8 + TWO16 * q.ptrs == 0
    ensures var r := NewObject(m, q, bytes);
      r.ptr.pos.Some? ==>
        && r.ptr.seg.Some? && InMem(r.mem, r.ptr.seg.value, r.ptr.pos.value)
        && FreshTarget(m, Made(Put(r.mem, r.ptr.seg.value, r.ptr.pos.value, ListHeader(q.len, q.datasz, q.ptrs)),
                               r.ptr.(pos := Some(r.ptr.pos.value + 1))))
    ensures NewObject(m, q, bytes).ptr.pos.None? ==> FreshTarget(m, NewObject(m, q, bytes))
  {
    hide Times;
    hide NewObject;
    hide TagWord;
    hide ListHeader;
    ObjectMade(m, q, bytes);
  }

  lemma CompositeMade(m: Mem, q: Ptr, bytes: int)
    requires Sized(m) && q.datasz < TWO19 && q.ptrs < TWO16 && q.seg.Some? && q.seg.value < |m|
    requires q.kind == List && q.composite && !q.member && !q.hasTag && q.pos.None? && 0 < q.len < TWO30
    requires bytes == Bytes(q) + 8 && Bytes(q) >= 0
    ensures var r := NewObject(m, q, bytes);
      r.ptr.pos.Some? ==>
        && r.ptr.seg.Some? && InMem(r.mem, r.ptr.seg.value, r.ptr.pos.value)
        && FreshTarget(m, Made(Put(r.mem, r.ptr.seg.value, r.ptr.pos.value, ListHeader(q.len, q.datasz, q.ptrs)),
                               r.ptr.(pos := Some(r.ptr.pos.value + 1))))
    ensures NewObject(m, q, bytes).ptr.pos.None? ==> FreshTarget(m, NewObject(m, q, bytes))
  {
    hide Times;
    hide NewObject;
    hide TagWord;
    hide ListHeader;
    ObjectMade(m, q, bytes);
    HeaderBits(q.len, q.datasz, q.ptrs);
    var r := NewObject(m, q, bytes);
    if r.ptr.pos.Some? {
      SameTag(q, r.ptr.(pos := Some(r.ptr.pos.value + 1)));
    }
  }
}
