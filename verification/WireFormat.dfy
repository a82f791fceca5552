/** What a pointer word means, in the numbers of the encoding: two kind bits, a signed distance of 30 bits in words,
    and an upper half that holds either the two sizes of a struct or a size code and a length. */
module WireFormat {
  import opened Options
  import opened SegmentTable
  import opened Pointers

  // ----- words

  /** A distance in words as the 30 bits that hold it. */
  function Distance(off: int): (r: nat)
    requires -536_870_912 <= off < 536_870_912
    ensures 0 <= r < 1_073_741_824
    ensures off >= 0 ==> r == off
    ensures off < 0 ==> r == off + 1_073_741_824
  {
    off % 1_073_741_824
  }

  predicate IsStruct(w: int, off: int, words: nat, ptrs: nat) {
    && -536_870_912 <= off < 536_870_912 && words < 65_536 && ptrs < 65_536
    && w == 4 * Distance(off) + 4_294_967_296 * words + 281_474_976_710_656 * ptrs
  }

  predicate IsList(w: int, off: int, code: nat, len: int) {
    && -536_870_912 <= off < 536_870_912 && code < 8 && 0 <= len < 536_870_912
    && w == 1 + 4 * Distance(off) + 4_294_967_296 * (code + 8 * len)
  }

  /** A pointer through another segment: `pads` words stand at word `pos` of segment `seg`. */
  predicate IsFar(w: int, pads: nat, seg: nat, pos: nat) {
    && 1 <= pads <= 2 && pos < 536_870_912 && seg < 4_294_967_296
    && w == (if pads == 1 then 2 else 6) + 8 * pos + 4_294_967_296 * seg
  }

  lemma StructParts(w: Word, off: int, words: nat, ptrs: nat)
    requires IsStruct(w, off, words, ptrs)
    ensures w % 4 == 0 && w % 8 != 2 && w % 8 != 6 && Field(w) == Distance(off)
    ensures Hi(w) % 65_536 == words && Hi(w) / 65_536 == ptrs && Hi(w) == words + 65_536 * ptrs
    ensures Low(w) == 4 * Distance(off)
  {
    Unpack(0, Distance(off), words + 65_536 * ptrs);
    StructHigh(words, ptrs);
    assert w == Pack(0, Distance(off), words + 65_536 * ptrs);
  }

  lemma ListParts(w: Word, off: int, code: nat, len: nat)
    requires IsList(w, off, code, len)
    ensures w % 4 == 1 && w % 8 != 2 && w % 8 != 6 && Field(w) == Distance(off)
    ensures Hi(w) % 8 == code && Hi(w) / 8 == len && Hi(w) == code + 8 * len
    ensures Low(w) == 1 + 4 * Distance(off)
  {
    Unpack(1, Distance(off), code + 8 * len);
    ListHigh(code, len);
    assert w == Pack(1, Distance(off), code + 8 * len);
  }

  lemma FarParts(w: Word, pads: nat, seg: nat, pos: nat)
    requires IsFar(w, pads, seg, pos)
    ensures w % 8 == (if pads == 1 then 2 else 6) && Low(w) / 8 == pos && Hi(w) == seg
  {
    var field := 2 * pos + (if pads == 1 then 0 else 1);
    Unpack(2, field, seg);
    LowThree(w % 8, pos);
    assert w == Pack(2, field, seg);
  }

  // ----- the words written

  /** The bytes of an element of each plain size code. */
  predicate Unit(code: nat, bytes: nat) {
    (code, bytes) in {(0, 0), (2, 1), (3, 2), (4, 4), (5, 8)}
  }

  /** The word that stands for an object at a distance: its kind decides the code and what the length counts. */
  lemma TagIs(p: Ptr, off: int)
    requires Shape(p) && -536_870_912 <= off < 536_870_912
    ensures p.kind == Struct ==> IsStruct(TagWord(p, off), off, p.datasz / 8, p.ptrs)
    ensures p.kind == List && p.composite ==> IsList(TagWord(p, off), off, 7, Elements(p))
    ensures p.kind == List && !p.composite ==>
              exists code: nat :: Unit(code, p.datasz) && IsList(TagWord(p, off), off, code, p.len)
    ensures p.kind == BitList ==> IsList(TagWord(p, off), off, 1, p.len)
    ensures p.kind == PtrList ==> IsList(TagWord(p, off), off, 6, p.len)
  {
    TagPacked(p, off);
    if p.kind == List {
      ElementsNonNegative(p);
      if !p.composite {
        assert Unit(SizeCode(p.datasz), p.datasz) && IsList(TagWord(p, off), off, SizeCode(p.datasz), p.len);
      }
    }
  }

  /** A far word names the words it was made for, and there is none for a place outside the capacity. */
  lemma FarWordIs(m: Mem, double: bool, seg: nat, pos: nat)
    requires Sized(m) && seg < |m|
    ensures pos < m[seg].cap ==> IsFar(FarWord(m, double, seg, Some(pos)), if double then 2 else 1, seg, pos)
    ensures pos >= m[seg].cap ==> FarWord(m, double, seg, Some(pos)) == 0
  {
  }

  // ----- the words read

  lemma DirectRead(m: Mem, s: nat, d: nat, off: int)
    requires InMem(m, s, d) && m[s].words[d] % 8 !in {2, 6} && -536_870_912 <= off < 536_870_912
    requires Field(m[s].words[d]) == Distance(off)
    ensures var t := d + 1 + off;
      ReadPtr(m, s, d) == if 0 <= t <= |m[s].words|
                          then Object(BytesLeft(m, s, t), WordAt(m, s, t), s, t, m[s].words[d], false) else NULL
  {
    SignedField(off);
  }

  /** A struct word: both sizes count words, and the struct lies at the distance behind the word. */
  lemma StructRead(m: Mem, s: nat, d: nat, off: int, words: nat, ptrs: nat)
    requires InMem(m, s, d) && IsStruct(m[s].words[d], off, words, ptrs)
    ensures var t := d + 1 + off;
      ReadPtr(m, s, d) ==
      if 0 <= t && t + words + ptrs <= |m[s].words|
      then Ptr(if m[s].words[d] == 0 then Null else Struct, false, false, false, 8 * words, ptrs, 0, Some(s), Some(t))
      else NULL
  {
    StructParts(m[s].words[d], off, words, ptrs);
    DirectRead(m, s, d, off);
  }

  /** A list of plain elements: its code gives the bytes of an element. */
  lemma PlainListRead(m: Mem, s: nat, d: nat, off: int, code: nat, unit: nat, len: nat)
    requires InMem(m, s, d) && IsList(m[s].words[d], off, code, len) && Unit(code, unit)
    ensures var t := d + 1 + off;
      ReadPtr(m, s, d) ==
      if 0 <= t <= |m[s].words| && unit * len <= 8 * (|m[s].words| - t)
      then Ptr(List, false, false, false, unit, 0, len, Some(s), Some(t)) else NULL
  {
    ListParts(m[s].words[d], off, code, len);
    DirectRead(m, s, d, off);
  }

  /** A list of bits: the bytes it is recorded with wrap at 19 bits. */
  lemma BitListRead(m: Mem, s: nat, d: nat, off: int, len: nat)
    requires InMem(m, s, d) && IsList(m[s].words[d], off, 1, len)
    ensures var t, bytes := d + 1 + off, (len + 7) / 8 % 524_288;
      ReadPtr(m, s, d) ==
      if 0 <= t <= |m[s].words| && bytes <= 8 * (|m[s].words| - t)
      then Ptr(BitList, false, false, false, bytes, 0, len, Some(s), Some(t)) else NULL
  {
    ListParts(m[s].words[d], off, 1, len);
    DirectRead(m, s, d, off);
  }

  /** A list of pointers takes one word each. */
  lemma PtrListRead(m: Mem, s: nat, d: nat, off: int, len: nat)
    requires InMem(m, s, d) && IsList(m[s].words[d], off, 6, len)
    ensures var t := d + 1 + off;
      ReadPtr(m, s, d) ==
      if 0 <= t && t + len <= |m[s].words|
      then Ptr(PtrList, false, false, false, 0, 0, len, Some(s), Some(t)) else NULL
  {
    ListParts(m[s].words[d], off, 6, len);
    DirectRead(m, s, d, off);
  }

  /** A list of structs: the word counts the words of all elements, and the word in front of them, which looks like a
      struct word, gives their number and their sizes.  The two must agree. */
  lemma StructListRead(m: Mem, s: nat, d: nat, off: int, all: nat, n: nat, words: nat, ptrs: nat)
    requires InMem(m, s, d) && IsList(m[s].words[d], off, 7, all) && 0 <= d + 1 + off
    requires InMem(m, s, d + 1 + off) && n < 536_870_912 && IsStruct(m[s].words[d + 1 + off], n, words, ptrs)
    ensures var t := d + 1 + off;
      ReadPtr(m, s, d) ==
      if n * (words + ptrs) == all && t + 1 + all <= |m[s].words|
      then Ptr(List, false, false, true, 8 * words, ptrs, n, Some(s), Some(t + 1)) else NULL
  {
    var t := d + 1 + off;
    ListParts(m[s].words[d], off, 7, all);
    StructParts(m[s].words[t], n, words, ptrs);
    DirectRead(m, s, d, off);
    Eightfold(n, words, ptrs);
  }

  lemma Eightfold(n: nat, words: nat, ptrs: nat)
    ensures Times(n, 8 * words + 8 * ptrs) == 8 * (n * (words + ptrs))
  {
  }

  /** A far word with one pad reads what its pad says, seen from where the pad stands. */
  lemma FarRead(m: Mem, s: nat, d: nat, seg: nat, pos: nat)
    requires InMem(m, s, d) && IsFar(m[s].words[d], 1, seg, pos)
    ensures !InMem(m, seg, pos) ==> ReadPtr(m, s, d).kind == Null
    ensures InMem(m, seg, pos) && m[seg].words[pos] % 4 != 2 ==>
              var r := ReadPtr(m, seg, pos);
              ReadPtr(m, s, d) == if r == NULL then NULL else r.(hasTag := Field(m[seg].words[pos]) == 0)
  {
    FarParts(m[s].words[d], 1, seg, pos);
    if InMem(m, seg, pos) && m[seg].words[pos] % 4 != 2 {
      var v := m[seg].words[pos];
      ModEight(v);
      TaggedObject(m, seg, pos, v);
    }
  }

  lemma ModEight(v: Word)
    ensures v % 8 == 2 || v % 8 == 6 ==> v % 4 == 2
  {
    LowTwo(v % 8 % 4, 2 * (v / 8) + v % 8 / 4);
    assert v == v % 8 % 4 + 4 * (2 * (v / 8) + v % 8 / 4);
  }

  lemma TaggedObject(m: Mem, g: nat, d: nat, v: Word)
    requires InMem(m, g, d)
    ensures var t := Field(v) == 0; var r := Decode(m, Hop(Some(g), (g, d), v, false));
      Decode(m, Hop(Some(g), (g, d), v, t)) == if r == NULL then NULL else r.(hasTag := t)
  {
    hide Object;
    TaggedHere(m, g, d + 1 + Signed(Field(v)), v);
  }

  lemma TaggedHere(m: Mem, g: nat, pos: int, v: Word)
    requires g < |m|
    ensures 0 <= pos <= |m[g].words| ==>
              && var left, at, t := BytesLeft(m, g, pos), WordAt(m, g, pos), Field(v) == 0;
              var r := Object(left, at, g, pos, v, false);
              Object(left, at, g, pos, v, t) == if r == NULL then NULL else r.(hasTag := t)
  {
    hide Times;
  }

  /** A far word with two pads, of which the first is a far word to where the object starts. */
  ghost predicate IsDoubleFar(m: Mem, w: Word, tag: Word, seg: nat, start: nat) {
    exists pad: nat, pos: nat ::
      && IsFar(w, 2, pad, pos) && InMem(m, pad, pos) && InMem(m, pad, pos + 1)
      && IsFar(m[pad].words[pos], 1, seg, start) && tag == m[pad].words[pos + 1]
  }

  lemma DoubleChase(m: Mem, s: nat, d: nat, tag: Word, seg: nat, start: nat)
    requires InMem(m, s, d) && IsDoubleFar(m, m[s].words[d], tag, seg, start) && seg < |m|
    ensures Low(tag) > 1 ==> ReadPtr(m, s, d).kind == Null
    ensures Low(tag) <= 1 && start <= |m[seg].words| ==>
              && start < 536_870_912
              && ReadPtr(m, s, d) == Object(8 * (|m[seg].words| - start), WordAt(m, seg, start), seg, start,
                                            Pack(Low(tag), Distance(start - 1), Hi(tag)), false)
  {
    hide Object;
    var pad: nat, pos: nat :|
      && IsFar(m[s].words[d], 2, pad, pos) && InMem(m, pad, pos) && InMem(m, pad, pos + 1)
      && IsFar(m[pad].words[pos], 1, seg, start) && tag == m[pad].words[pos + 1];
    FarParts(m[s].words[d], 2, pad, pos);
    FarParts(m[pad].words[pos], 1, seg, start);
    SignedField(start - 1);
    if Low(tag) <= 1 {
      Unpack(Low(tag), Distance(start - 1), Hi(tag));
    } else {
      NullObject(m, s, d);
    }
  }

  lemma NullObject(m: Mem, s: nat, d: nat)
    ensures forall tagged, g :: Decode(m, Hop(g, (s, d), 0, tagged)).kind == Null
  {
  }

  lemma MovedStruct(left: int, at: Word, seg: nat, start: nat, tag: Word, words: nat, ptrs: nat)
    requires IsStruct(tag, 0, words, ptrs) && start < 536_870_912
    ensures Hi(tag) < 4_294_967_296
    ensures Object(left, at, seg, start, Pack(0, Distance(start - 1), Hi(tag)), false) ==
            if 8 * words + 8 * ptrs <= left
            then Ptr(if start == 1 && words == ptrs == 0 then Null else Struct, false, false, false, 8 * words, ptrs, 0,
                     Some(seg), Some(start))
            else NULL
  {
    hide Object;
    hide Pack;
    hide Hi;
    hide Field;
    StructParts(tag, 0, words, ptrs);
    hide IsStruct;
    var field := Distance(start - 1);
    Unpack(0, field, Hi(tag));
    ZeroWord(field, Hi(tag));
    PlainStruct(left, at, seg, start, Pack(0, field, Hi(tag)), words, ptrs);
    StartOnly(start, field);
  }

  lemma StartOnly(start: nat, field: nat)
    requires start < 536_870_912 && field == Distance(start - 1)
    ensures field == 0 <==> start == 1
  {
  }

  lemma PlainStruct(left: int, at: Word, seg: nat, start: nat, val: Word, words: nat, ptrs: nat)
    requires val % 4 == 0 && Hi(val) % 65_536 == words && Hi(val) / 65_536 == ptrs
    ensures Object(left, at, seg, start, val, false) ==
            if 8 * words + 8 * ptrs <= left
            then Ptr(if val == 0 then Null else Struct, false, false, false, 8 * words, ptrs, 0, Some(seg), Some(start))
            else NULL
  {
    hide Hi;
  }

  lemma ZeroWord(field: nat, hi: nat)
    requires field < 1_073_741_824 && hi < 4_294_967_296
    ensures Pack(0, field, hi) == 0 <==> field == 0 && hi == 0
  {
  }

  lemma MovedList(left: int, at: Word, seg: nat, start: nat, tag: Word, code: nat, unit: nat, len: nat)
    requires IsList(tag, 0, code, len) && Unit(code, unit) && start < 536_870_912
    ensures Hi(tag) < 4_294_967_296
    ensures Object(left, at, seg, start, Pack(1, Distance(start - 1), Hi(tag)), false) ==
            if unit * len <= left then Ptr(List, false, false, false, unit, 0, len, Some(seg), Some(start)) else NULL
  {
    ListParts(tag, 0, code, len);
    Unpack(1, Distance(start - 1), Hi(tag));
  }

  /** The second pad, whose distance must be zero, says what the object is. */
  lemma DoubleFarRead(m: Mem, s: nat, d: nat, tag: Word, seg: nat, start: nat, words: nat, ptrs: nat)
    requires InMem(m, s, d) && IsDoubleFar(m, m[s].words[d], tag, seg, start) && seg < |m|
    requires IsStruct(tag, 0, words, ptrs) && start <= |m[seg].words|
    ensures ReadPtr(m, s, d) ==
            if start + words + ptrs <= |m[seg].words|
            then Ptr(if start == 1 && words == ptrs == 0 then Null else Struct, false, false, false, 8 * words, ptrs, 0,
                     Some(seg), Some(start))
            else NULL
  {
    hide ReadPtr;
    hide IsDoubleFar;
    hide Object;
    StructParts(tag, 0, words, ptrs);
    DoubleChase(m, s, d, tag, seg, start);
    MovedStruct(8 * (|m[seg].words| - start), WordAt(m, seg, start), seg, start, tag, words, ptrs);
  }

  lemma DoubleFarListRead(m: Mem, s: nat, d: nat, tag: Word, seg: nat, start: nat, code: nat, unit: nat, len: nat)
    requires InMem(m, s, d) && IsDoubleFar(m, m[s].words[d], tag, seg, start) && seg < |m|
    requires IsList(tag, 0, code, len) && Unit(code, unit) && start <= |m[seg].words|
    ensures ReadPtr(m, s, d) ==
            if unit * len <= 8 * (|m[seg].words| - start)
            then Ptr(List, false, false, false, unit, 0, len, Some(seg), Some(start)) else NULL
  {
    hide ReadPtr;
    hide IsDoubleFar;
    hide Object;
    ListParts(tag, 0, code, len);
    DoubleChase(m, s, d, tag, seg, start);
    MovedList(8 * (|m[seg].words| - start), WordAt(m, seg, start), seg, start, tag, code, unit, len);
  }
}
