/** Restart files put together from their sections, and what is read back from them: an account of the section
    index and of the decoded fields that does not look at the decoder. */
module RestartLayout {
  import opened Ints
  import opened LittleEndian
  import opened Options
  import opened RestartCodec
  import opened RestartImage

  /** A section: how its header record counts the others, what else that record holds, and the others. */
  datatype Body = Body(negative: bool, rest: seq<Byte>, records: seq<Record>)

  predicate BodyOk(b: Body) {
    |b.records| <= 0x7FFF_FFFE
  }

  function Lead(b: Body): (r: Record)
    requires BodyOk(b)
  {
    SignedLe32(if b.negative then -|b.records| else |b.records|) + b.rest
  }

  predicate BodiesOk(bodies: seq<Body>) {
    forall s :: 0 <= s < |bodies| ==> BodyOk(bodies[s])
  }

  /** The records of the sections, one after the other. */
  function Flat(bodies: seq<Body>): seq<Record>
    requires BodiesOk(bodies)
  {
    if bodies == [] then [] else [Lead(bodies[0])] + bodies[0].records + Flat(bodies[1..])
  }

  function File(header: Record, bodies: seq<Body>): seq<Record>
    requires BodiesOk(bodies)
  {
    [header] + Flat(bodies)
  }

  /** Section 1 is the header alone, so the first body is section 2; there are at most 99 sections. */
  predicate FileOk(bodies: seq<Body>) {
    BodiesOk(bodies) && |bodies| <= 98 && forall s :: 0 <= s < |bodies| ==> Offset(bodies, s) <= 0x7FFF_FFFF
  }

  lemma LeadCounts(b: Body)
    requires BodyOk(b)
    ensures |Lead(b)| >= 4 && FromLe32(Lead(b)) == if b.negative then -|b.records| else |b.records|
  {
    var n := if b.negative then -|b.records| else |b.records|;
    Le32Inverse(n);
    SameFour(SignedLe32(n), Lead(b));
  }

  lemma SameFour(a: seq<Byte>, b: seq<Byte>)
    requires |a| >= 4 && |b| >= 4 && a[..4] == b[..4]
    ensures FromLe32(a) == FromLe32(b)
  {
  }

  /** The records of body `s`, header record included, start behind those of the bodies before it. */
  function Offset(bodies: seq<Body>, s: nat): nat
    requires s <= |bodies|
  {
    if s == 0 then 1 else Offset(bodies, s - 1) + 1 + |bodies[s - 1].records|
  }

  lemma {:induction false} OffsetTail(bodies: seq<Body>, s: nat)
    requires 0 < s <= |bodies|
    ensures Offset(bodies, s) == Offset(bodies[1..], s - 1) + 1 + |bodies[0].records|
  {
    if s > 1 {
      OffsetTail(bodies, s - 1);
      assert bodies[1..][s - 2] == bodies[s - 1];
    }
  }

  /** Where a record of a section stands in the file. */
  lemma {:induction false} FlatAt(bodies: seq<Body>, s: nat, k: nat)
    requires BodiesOk(bodies) && s < |bodies| && k <= |bodies[s].records|
    ensures Offset(bodies, s) - 1 + k < |Flat(bodies)|
    ensures Flat(bodies)[Offset(bodies, s) - 1 + k] == if k == 0 then Lead(bodies[s]) else bodies[s].records[k - 1]
    decreases s
  {
    var b := bodies[0];
    assert Flat(bodies) == [Lead(b)] + b.records + Flat(bodies[1..]);
    if s > 0 {
      FlatAt(bodies[1..], s - 1, k);
      OffsetTail(bodies, s);
    }
  }

  lemma {:induction false} FlatSize(bodies: seq<Body>)
    requires BodiesOk(bodies)
    ensures |Flat(bodies)| + 1 == Offset(bodies, |bodies|)
    decreases |bodies|
  {
    if bodies != [] {
      FlatSize(bodies[1..]);
      OffsetTail(bodies, |bodies|);
    }
  }

  /** The sections that the index finds in the file from body `s` on. */
  function Found(bodies: seq<Body>, s: nat): seq<Section>
    requires s <= |bodies|
    decreases |bodies| - s
  {
    if s == |bodies| then [] else [Section(Offset(bodies, s), 1 + |bodies[s].records|)] + Found(bodies, s + 1)
  }

  lemma {:induction false} FoundAt(bodies: seq<Body>, s: nat, t: nat)
    requires s <= t < |bodies|
    ensures |Found(bodies, s)| == |bodies| - s
    ensures Found(bodies, s)[t - s] == Section(Offset(bodies, t), 1 + |bodies[t].records|)
    decreases |bodies| - s
  {
    if s < t {
      FoundAt(bodies, s + 1, t);
    } else if s + 1 < |bodies| {
      FoundAt(bodies, s + 1, s + 1);
    }
  }

  lemma {:induction false} SectionsFound(header: Record, bodies: seq<Body>, s: nat)
    requires FileOk(bodies) && s <= |bodies| && Offset(bodies, s) <= |File(header, bodies)|
    ensures Sections(File(header, bodies), s + 2, Offset(bodies, s)) == Some(Found(bodies, s))
    decreases |bodies| - s
  {
    hide FromLe32;
    hide Lead;
    hide Flat;
    hide Offset;
    FlatSize(bodies);
    var rs := File(header, bodies);
    if s < |bodies| {
      OffsetPositive(bodies, s);
      FlatAt(bodies, s, 0);
      FlatAt(bodies, s, |bodies[s].records|);
      LeadCounts(bodies[s]);
      assert rs[Offset(bodies, s)] == Lead(bodies[s]);
      OffsetNext(bodies, s);
      SectionsFound(header, bodies, s + 1);
    }
  }

  lemma OffsetNext(bodies: seq<Body>, s: nat)
    requires s < |bodies|
    ensures Offset(bodies, s + 1) == Offset(bodies, s) + 1 + |bodies[s].records|
  {
  }

  /** The word stands at position `i`. */
  predicate Spelled(h: seq<Byte>, word: seq<Byte>, i: int) {
    0 <= i <= |h| - |word| && h[i..i + |word|] == word
  }

  /** The record holds "STUTTGART VERSION 3.0". */
  ghost predicate Marked(header: Record) {
    exists i :: Spelled(header, [83, 84, 85, 84, 84, 71, 65, 82, 84, 32, 86, 69, 82, 83, 73, 79, 78, 32, 51, 46, 48], i)
  }

  lemma MarkedIs(header: Record)
    ensures Marked(header) <==> Contains(header, MAGIC)
  {
    if Marked(header) {
      var i :| Spelled(header, MAGIC, i);
      assert OccursAt(header, MAGIC, i);
    }
    if Contains(header, MAGIC) {
      var i :| 0 <= i <= |header| - |MAGIC| && OccursAt(header, MAGIC, i);
      assert Spelled(header, MAGIC, i);
    }
  }

  /** The index says where the records of section `s` are. */
  ghost predicate Lies(rs: seq<Record>, ix: seq<Section>, s: int, records: seq<Record>) {
    && Start(ix, s) > 0 && Nrec(ix, s) == 1 + |records| && Start(ix, s) + Nrec(ix, s) <= |rs|
    && forall k :: 0 <= k < |records| ==> rs[Start(ix, s) + 1 + k] == records[k]
  }

  /** A file of sections is indexed exactly when its header record is marked: section `s` is the `s`-th part of
      the file, and its records are where the index says. */
  lemma Indexed(header: Record, bodies: seq<Body>)
    requires FileOk(bodies)
    ensures Index(File(header, bodies)).Some? <==> Marked(header)
    ensures Marked(header) ==> var rs, ix := File(header, bodies), Index(File(header, bodies)).value;
      && |ix| == 1 + |bodies| && Start(ix, 1) == 0 && Nrec(ix, 1) == 1
      && forall s :: 0 <= s < |bodies| ==> Lies(rs, ix, s + 2, bodies[s].records)
  {
    hide Contains;
    hide Sections;
    hide Marked;
    hide Flat;
    var rs := File(header, bodies);
    MarkedIs(header);
    FlatSize(bodies);
    OffsetPositive(bodies, |bodies|);
    SectionsFound(header, bodies, 0);
    FoundSize(bodies);
    if Marked(header) {
      var ix := Index(rs).value;
      assert ix == [Section(0, 1)] + Found(bodies, 0);
      forall s | 0 <= s < |bodies|
        ensures Lies(rs, ix, s + 2, bodies[s].records)
      {
        FoundAt(bodies, 0, s);
        assert ix[s + 1] == Found(bodies, 0)[s];
        OffsetPositive(bodies, s);
        RecordsAt(header, bodies, s);
      }
    }
  }

  lemma RecordsAt(header: Record, bodies: seq<Body>, s: nat)
    requires BodiesOk(bodies) && s < |bodies|
    ensures var rs := File(header, bodies);
      && Offset(bodies, s) + 1 + |bodies[s].records| <= |rs|
      && forall k :: 0 <= k < |bodies[s].records| ==> rs[Offset(bodies, s) + 1 + k] == bodies[s].records[k]
  {
    hide Flat;
    hide Lead;
    OffsetPositive(bodies, s);
    FlatAt(bodies, s, |bodies[s].records|);
    forall k | 0 <= k < |bodies[s].records|
      ensures File(header, bodies)[Offset(bodies, s) + 1 + k] == bodies[s].records[k]
    {
      FlatAt(bodies, s, k + 1);
    }
  }

  lemma {:induction false} OffsetPositive(bodies: seq<Body>, s: nat)
    requires s <= |bodies|
    ensures Offset(bodies, s) >= 1
  {
    if s > 0 {
      OffsetPositive(bodies, s - 1);
    }
  }

  lemma FoundSize(bodies: seq<Body>)
    ensures |Found(bodies, 0)| == |bodies|
  {
    if bodies != [] {
      FoundAt(bodies, 0, 0);
    }
  }

  // ----- the decoded records

  /** The integer at an offset is the one whose four bytes stand there. */
  lemma IntAt(r: Record, off: nat)
    requires off + 4 <= |r|
    ensures Int32(I32(r, off)) && r[off..off + 4] == SignedLe32(I32(r, off))
  {
    FromLe32Inverse(r[off..off + 4]);
    SameFour(r[off..], r[off..off + 4]);
  }

  /** Section 2: symmetry numbers, then the 48 bytes of the cell. */
  ghost predicate HoldsCell(sym: Record, cell: Record, c: Cell) {
    && |sym| >= 8 && |cell| >= 48 && Int32(c.ibrav) && Int32(c.indpg)
    && sym[..8] == SignedLe32(c.ibrav) + SignedLe32(c.indpg) && cell[..48] == c.celldm
  }

  lemma CellDecoded(sym: Record, cell: Record)
    ensures CellOf(Some(sym), Some(cell)).Some? <==> |sym| >= 8 && |cell| >= 48
    ensures |sym| >= 8 && |cell| >= 48 ==>
      && CellOf(Some(sym), Some(cell)).value.Some?
      && HoldsCell(sym, cell, CellOf(Some(sym), Some(cell)).value.value)
  {
    hide FromLe32;
    if |sym| >= 8 {
      IntAt(sym, 0);
      IntAt(sym, 4);
      assert sym[..8] == sym[0..4] + sym[4..8];
    }
  }

  /** Section 7: two reals, then five integers. */
  ghost predicate HoldsCut(r: Record, c: Cut) {
    && |r| >= 36 && |c.ecut| == |c.cdual| == 8
    && Int32(c.dual) && Int32(c.nel) && Int32(c.nr1s) && Int32(c.nr2s) && Int32(c.nr3s)
    && r[..36] == c.ecut + c.cdual + SignedLe32(c.dual) + SignedLe32(c.nel) + SignedLe32(c.nr1s) + SignedLe32(c.nr2s)
                  + SignedLe32(c.nr3s)
  }

  lemma CutDecoded(r: Record)
    ensures CutOf(Some(r)).Some? <==> |r| >= 36
    ensures |r| >= 36 ==> CutOf(Some(r)).value.Some? && HoldsCut(r, CutOf(Some(r)).value.value)
  {
    hide FromLe32;
    if |r| >= 36 {
      IntAt(r, 16);
      IntAt(r, 20);
      IntAt(r, 24);
      IntAt(r, 28);
      IntAt(r, 32);
      assert r[..36] == r[..8] + r[8..16] + r[16..20] + r[20..24] + r[24..28] + r[28..32] + r[32..36];
    }
  }

  /** Section 8: six integers. */
  ghost predicate HoldsStates(r: Record, st: States) {
    && |r| >= 24
    && Int32(st.n) && Int32(st.nkpts) && Int32(st.ngw) && Int32(st.ngwl) && Int32(st.nhg) && Int32(st.nhgl)
    && r[..24] == SignedLe32(st.n) + SignedLe32(st.nkpts) + SignedLe32(st.ngw) + SignedLe32(st.ngwl)
                  + SignedLe32(st.nhg) + SignedLe32(st.nhgl)
  }

  lemma StatesDecoded(r: Record)
    ensures StatesOf(Some(r)).Some? <==> |r| >= 24
    ensures |r| >= 24 ==> StatesOf(Some(r)).value.Some? && HoldsStates(r, StatesOf(Some(r)).value.value)
  {
    hide FromLe32;
    if |r| >= 24 {
      IntAt(r, 0);
      IntAt(r, 4);
      IntAt(r, 8);
      IntAt(r, 12);
      IntAt(r, 16);
      IntAt(r, 20);
      assert r[..24] == r[0..4] + r[4..8] + r[8..12] + r[12..16] + r[16..20] + r[20..24];
    }
  }

  /** Integers, four bytes each. */
  function FourEach(na: seq<int>): seq<Byte>
    requires forall i :: 0 <= i < |na| ==> Int32(na[i])
  {
    if na == [] then [] else FourEach(na[..|na| - 1]) + SignedLe32(na[|na| - 1])
  }

  lemma {:induction false} CountsDecoded(r: Record, n: nat)
    requires |r| >= 4 * n
    ensures Counts(r, n).Some? ==> var na := Counts(r, n).value;
      |na| == n && (forall i :: 0 <= i < n ==> Int32(na[i]) && na[i] >= 0) && r[..4 * n] == FourEach(na)
    ensures Counts(r, n).None? ==> exists i :: 0 <= i < n && I32(r, 4 * i) < 0
  {
    hide FromLe32;
    hide I32;
    if n > 0 {
      CountsDecoded(r, n - 1);
      IntAt(r, 4 * (n - 1));
      if Counts(r, n).Some? {
        var na := Counts(r, n).value;
        assert na[..n - 1] == Counts(r, n - 1).value;
        assert r[..4 * n] == r[..4 * (n - 1)] + r[4 * (n - 1)..4 * (n - 1) + 4];
      }
    }
  }

  /** Section 3: the number of species, then that many counts, none of them negative. */
  ghost predicate HoldsSpecies(nsp: Record, na: Record, c: seq<int>) {
    && |c| <= 100000 && |nsp| >= 4 && nsp[..4] == SignedLe32(|c|) && |na| >= 4 * |c|
    && (forall i :: 0 <= i < |c| ==> Int32(c[i]) && c[i] >= 0) && na[..4 * |c|] == FourEach(c)
  }

  lemma {:induction false} EachAt(c: seq<int>, i: nat)
    requires (forall j :: 0 <= j < |c| ==> Int32(c[j])) && i < |c|
    ensures |FourEach(c)| == 4 * |c| && FourEach(c)[4 * i..4 * i + 4] == SignedLe32(c[i])
  {
    var n := |c| - 1;
    if i < n {
      EachAt(c[..n], i);
    } else if n > 0 {
      EachAt(c[..n], 0);
    }
  }

  lemma SpeciesForm(nsp: Record, na: Record, c: seq<int>)
    requires HoldsSpecies(nsp, na, c)
    ensures |nsp| >= 4 && I32(nsp, 0) == |c| && |na| >= 4 * |c|
    ensures forall i :: 0 <= i < |c| ==> I32(na, 4 * i) >= 0
  {
    hide FromLe32;
    Le32Inverse(|c|);
    SameFour(nsp[0..], SignedLe32(|c|));
    forall i | 0 <= i < |c|
      ensures I32(na, 4 * i) >= 0
    {
      EachAt(c, i);
      Le32Inverse(c[i]);
      assert na[4 * i..4 * i + 4] == na[..4 * |c|][4 * i..4 * i + 4];
      SameFour(na[4 * i..], SignedLe32(c[i]));
    }
  }

  lemma SpeciesDecoded(nsp: Record, na: Record)
    ensures SpeciesOf(Some(nsp), Some(na)).Some? <==> exists c :: HoldsSpecies(nsp, na, c)
    ensures SpeciesOf(Some(nsp), Some(na)).Some? ==>
      && SpeciesOf(Some(nsp), Some(na)).value.Some?
      && HoldsSpecies(nsp, na, SpeciesOf(Some(nsp), Some(na)).value.value)
  {
    hide FromLe32;
    hide I32;
    if |nsp| >= 4 {
      IntAt(nsp, 0);
      var n := I32(nsp, 0);
      if 0 <= n <= 100000 && |na| >= 4 * n {
        CountsDecoded(na, n);
      }
    }
    if SpeciesOf(Some(nsp), Some(na)).Some? {
      assert HoldsSpecies(nsp, na, SpeciesOf(Some(nsp), Some(na)).value.value);
    }
    if c :| HoldsSpecies(nsp, na, c) {
      SpeciesForm(nsp, na, c);
    }
  }

  // ----- the whole file

  /** The records of section `s` behind its header record, if the file has that section. */
  function Part(bodies: seq<Body>, s: int): Option<seq<Record>> {
    if 2 <= s < |bodies| + 2 then Some(bodies[s - 2].records) else None
  }

  predicate HasPart(bodies: seq<Body>, s: int, n: nat) {
    Part(bodies, s).Some? && |Part(bodies, s).value| == n
  }

  /** What a typed field is decoded from is where the sections say. */
  lemma PartsAt(header: Record, bodies: seq<Body>, s: int, n: nat)
    requires FileOk(bodies) && Marked(header) && 2 <= s <= 99
    ensures Index(File(header, bodies)).Some?
    ensures var rs, ix := File(header, bodies), Index(File(header, bodies)).value;
      && (Nrec(ix, s) == 1 + n <==> HasPart(bodies, s, n))
      && (HasPart(bodies, s, n) ==>
            forall k :: 0 <= k < n ==> RecAt(rs, ix, s, 1 + k) == Some(Part(bodies, s).value[k]))
  {
    hide Index;
    hide Flat;
    Indexed(header, bodies);
    var rs, ix := File(header, bodies), Index(File(header, bodies)).value;
    if s < |bodies| + 2 {
      assert Lies(rs, ix, s - 2 + 2, bodies[s - 2].records);
    }
  }

  ghost predicate PartsOk(bodies: seq<Body>) {
    && (HasPart(bodies, 2, 2) ==> |Part(bodies, 2).value[0]| >= 8 && |Part(bodies, 2).value[1]| >= 48)
    && (HasPart(bodies, 3, 2) ==> exists c :: HoldsSpecies(Part(bodies, 3).value[0], Part(bodies, 3).value[1], c))
    && (HasPart(bodies, 7, 1) ==> |Part(bodies, 7).value[0]| >= 36)
    && (HasPart(bodies, 8, 1) ==> |Part(bodies, 8).value[0]| >= 24)
  }

  /** The fields are those of the sections that have the right number of records, and of no others. */
  ghost predicate HoldsFields(bodies: seq<Body>, t: Typed) {
    && (t.cell.Some? <==> HasPart(bodies, 2, 2)) && (t.na.Some? <==> HasPart(bodies, 3, 2))
    && (t.cut.Some? <==> HasPart(bodies, 7, 1)) && (t.states.Some? <==> HasPart(bodies, 8, 1))
    && (t.cell.Some? ==> HoldsCell(Part(bodies, 2).value[0], Part(bodies, 2).value[1], t.cell.value))
    && (t.na.Some? ==> HoldsSpecies(Part(bodies, 3).value[0], Part(bodies, 3).value[1], t.na.value))
    && (t.cut.Some? ==> HoldsCut(Part(bodies, 7).value[0], t.cut.value))
    && (t.states.Some? ==> HoldsStates(Part(bodies, 8).value[0], t.states.value))
  }

  lemma FieldsDecoded(header: Record, bodies: seq<Body>)
    requires FileOk(bodies) && Marked(header)
    ensures Index(File(header, bodies)).Some?
    ensures var t := Decode(File(header, bodies), Index(File(header, bodies)).value);
      (t.Some? <==> PartsOk(bodies)) && (t.Some? ==> HoldsFields(bodies, t.value))
  {
    hide Index;
    hide File;
    hide FileOk;
    hide Marked;
    hide RecAt;
    hide CellOf;
    hide SpeciesOf;
    hide CutOf;
    hide StatesOf;
    hide HoldsCell;
    hide HoldsSpecies;
    hide HoldsCut;
    hide HoldsStates;
    hide Part;
    PartsAt(header, bodies, 2, 2);
    PartsAt(header, bodies, 3, 2);
    PartsAt(header, bodies, 7, 1);
    PartsAt(header, bodies, 8, 1);
    if HasPart(bodies, 2, 2) {
      CellDecoded(Part(bodies, 2).value[0], Part(bodies, 2).value[1]);
    }
    if HasPart(bodies, 3, 2) {
      SpeciesDecoded(Part(bodies, 3).value[0], Part(bodies, 3).value[1]);
    }
    if HasPart(bodies, 7, 1) {
      CutDecoded(Part(bodies, 7).value[0]);
    }
    if HasPart(bodies, 8, 1) {
      StatesDecoded(Part(bodies, 8).value[0]);
    }
  }

  /** A file written from its sections is read exactly when its header is marked and the records that fields
      are decoded from have room for them.  The image then has those records, those fields, and the header and
      the stream mark of the first record. */
  lemma FileReads(max: int, header: Record, bodies: seq<Body>)
    requires FileOk(bodies) && 0 < max <= INT_MAX
    ensures var r := Read(Emit(max, File(header, bodies)));
      && (r.Some? <==> Marked(header) && PartsOk(bodies))
      && (r.Some? ==>
            && r.value.recs == File(header, bodies) && HoldsFields(bodies, r.value.typed)
            && IsHeader(header, r.value.header) && (r.value.stream <==> Streams(r.value.header)))
  {
    hide Index;
    hide Decode;
    hide Emit;
    hide Parse;
    hide Flat;
    hide Marked;
    hide PartsOk;
    hide HoldsFields;
    hide Contains;
    hide Streams;
    hide Header;
    hide IsHeader;
    ParseEmit(max, File(header, bodies));
    Indexed(header, bodies);
    HeaderIs(header);
    StreamIs(Header(header));
    if Marked(header) {
      FieldsDecoded(header, bodies);
    }
  }

  // ----- header and stream mark

  /** The header is the first record up to 95 bytes, without the blanks and zeros at its end. */
  ghost predicate IsHeader(r: Record, h: seq<Byte>) {
    && |h| <= |r| && |h| <= 95 && h == r[..|h|]
    && (forall i :: |h| <= i < |r| && i < 95 ==> r[i] == 0 || r[i] == 32)
    && (h != [] ==> h[|h| - 1] != 0 && h[|h| - 1] != 32)
  }

  lemma HeaderIs(r: Record)
    ensures IsHeader(r, Header(r))
  {
    TrimIs(if |r| >= 96 then r[..95] else r);
  }

  lemma {:induction false} TrimIs(r: seq<Byte>)
    ensures var h := Trim(r);
      && |h| <= |r| && h == r[..|h|] && (forall i :: |h| <= i < |r| ==> r[i] == 0 || r[i] == 32)
      && (h != [] ==> h[|h| - 1] != 0 && h[|h| - 1] != 32)
  {
    if r != [] && r[|r| - 1] in {0, 32} {
      TrimIs(r[..|r| - 1]);
    }
  }

  lemma {:induction false} TextIs(h: seq<Byte>)
    ensures var t := Text(h); |t| <= |h| && t == h[..|t|] && 0 !in t && (|t| < |h| ==> h[|t|] == 0)
  {
    if h != [] && h[0] != 0 {
      TextIs(h[1..]);
      assert h == [h[0]] + h[1..];
    }
  }

  /** "STREAM" stands in the header, and no zero byte in front of it. */
  ghost predicate Streams(h: seq<Byte>) {
    exists i :: Spelled(h, [83, 84, 82, 69, 65, 77], i) && 0 !in h[..i]
  }

  lemma StreamIs(h: seq<Byte>)
    ensures Contains(Text(h), STREAM) <==> Streams(h)
  {
    TextIs(h);
    var t := Text(h);
    if Contains(t, STREAM) {
      var i :| 0 <= i <= |t| - |STREAM| && OccursAt(t, STREAM, i);
      assert Spelled(h, STREAM, i);
      assert forall k :: 0 <= k < i ==> h[..i][k] == t[k] && t[k] in t;
    }
    if Streams(h) {
      var i :| Spelled(h, STREAM, i) && 0 !in h[..i];
      BeforeZero(h, t, i);
      assert OccursAt(t, STREAM, i);
    }
  }

  lemma BeforeZero(h: seq<Byte>, t: seq<Byte>, i: int)
    requires Spelled(h, STREAM, i) && 0 !in h[..i] && |t| <= |h| && t == h[..|t|] && (|t| < |h| ==> h[|t|] == 0)
    ensures i + 6 <= |t| && t[i..i + 6] == STREAM
  {
    assert forall k :: 0 <= k < i ==> h[k] in h[..i];
    assert forall k :: 0 <= k < 6 ==> h[i + k] == STREAM[k] != 0;
    assert |t| < |h| ==> |t| >= i + 6;
  }

  // ----- every indexed file has this form

  lemma LeadIs(r: Record, b: Body)
    requires |r| >= 4 && BodyOk(b) && b.rest == r[4..]
    requires FromLe32(r) == if b.negative then -|b.records| else |b.records|
    ensures Lead(b) == r
  {
    hide FromLe32;
    hide SignedLe32;
    FromLe32Inverse(r[..4]);
    SameFour(r, r[..4]);
    assert r == r[..4] + r[4..];
  }

  lemma {:induction false} Unbuilt(rs: seq<Record>, s: nat, i: nat) returns (bodies: seq<Body>)
    requires s <= MAX_SECTIONS + 1 && i <= |rs| && Sections(rs, s, i).Some?
    ensures BodiesOk(bodies) && Flat(bodies) == rs[i..] && |bodies| <= MAX_SECTIONS + 1 - s
    ensures forall t :: 0 <= t < |bodies| ==> i + Offset(bodies, t) <= 0x8000_0000
    decreases MAX_SECTIONS + 1 - s
  {
    hide FromLe32;
    hide Flat;
    hide Offset;
    hide Lead;
    bodies := [];
    FlatOpens(bodies);
    if i < |rs| {
      var count := FromLe32(rs[i]);
      var n := Abs(count);
      var b := Body(count < 0, rs[i][4..], rs[i + 1..i + 1 + n]);
      LeadIs(rs[i], b);
      var rest := Unbuilt(rs, s + 1, i + 1 + n);
      bodies := [b] + rest;
      assert bodies[1..] == rest;
      FlatOpens(bodies);
      FirstOffset(bodies);
      assert rs[i..] == [rs[i]] + rs[i + 1..i + 1 + n] + rs[i + 1 + n..];
      forall t | 0 <= t < |bodies|
        ensures i + Offset(bodies, t) <= 0x8000_0000
      {
        if t > 0 {
          OffsetTail(bodies, t);
        }
      }
    }
  }

  /** Whatever is indexed is a file of sections. */
  lemma IndexedIsBuilt(rs: seq<Record>) returns (bodies: seq<Body>)
    requires Index(rs).Some?
    ensures FileOk(bodies) && rs == File(rs[0], bodies)
  {
    hide Contains;
    bodies := Unbuilt(rs, 2, 1);
    assert rs == [rs[0]] + rs[1..];
  }

  // ----- what setters and getters have to do with sections

  /** The same file with other records in section `s`. */
  function WithPart(bodies: seq<Body>, s: int, records: seq<Record>): seq<Body>
    requires 2 <= s < |bodies| + 2
  {
    bodies[s - 2 := bodies[s - 2].(records := records)]
  }

  lemma {:induction false} FlatSplit(bodies: seq<Body>, i: nat)
    requires BodiesOk(bodies) && i < |bodies|
    ensures Flat(bodies) == Flat(bodies[..i]) + ([Lead(bodies[i])] + bodies[i].records + Flat(bodies[i + 1..]))
    ensures |Flat(bodies[..i])| + 1 == Offset(bodies, i)
    decreases i
  {
    hide Flat;
    hide Offset;
    hide Lead;
    FlatOpens(bodies);
    FlatOpens(bodies[..i]);
    if i > 0 {
      FlatSplit(bodies[1..], i - 1);
      OffsetTail(bodies, i);
      assert bodies[..i][1..] == bodies[1..][..i - 1] && bodies[i + 1..] == bodies[1..][i..];
      Associate([Lead(bodies[0])] + bodies[0].records, Flat(bodies[1..][..i - 1]),
                [Lead(bodies[i])] + bodies[i].records + Flat(bodies[i + 1..]));
    } else {
      FirstOffset(bodies);
    }
  }

  lemma FlatOpens(bodies: seq<Body>)
    requires BodiesOk(bodies)
    ensures bodies == [] ==> Flat(bodies) == []
    ensures bodies != [] ==> Flat(bodies) == [Lead(bodies[0])] + bodies[0].records + Flat(bodies[1..])
  {
  }

  lemma Associate(a: seq<Record>, b: seq<Record>, c: seq<Record>)
    ensures a + (b + c) == (a + b) + c
  {
  }

  /** A file cut at the records of section `s`. */
  lemma FileSplit(header: Record, bodies: seq<Body>, s: int, records: seq<Record>)
    returns (front: seq<Record>, back: seq<Record>)
    requires BodiesOk(bodies) && 2 <= s < |bodies| + 2 && |records| == |bodies[s - 2].records|
    ensures |front| == Offset(bodies, s - 2) + 1
    ensures File(header, bodies) == front + bodies[s - 2].records + back
    ensures BodiesOk(WithPart(bodies, s, records))
    ensures File(header, WithPart(bodies, s, records)) == front + records + back
  {
    hide Flat;
    hide Lead;
    hide Offset;
    var i, other := s - 2, WithPart(bodies, s, records);
    FlatSplit(bodies, i);
    FlatSplit(other, i);
    assert other[..i] == bodies[..i] && other[i + 1..] == bodies[i + 1..];
    SameLead(bodies[i], other[i]);
    front, back := [header] + Flat(bodies[..i]) + [Lead(bodies[i])], Flat(bodies[i + 1..]);
    Regroup(header, Flat(bodies[..i]), Lead(bodies[i]), bodies[i].records, back);
    Regroup(header, Flat(bodies[..i]), Lead(bodies[i]), records, back);
  }

  lemma SameLead(b: Body, b': Body)
    requires BodyOk(b) && b' == b.(records := b'.records) && |b'.records| == |b.records|
    ensures BodyOk(b') && Lead(b') == Lead(b)
  {
  }

  lemma Regroup(h: Record, a: seq<Record>, x: Record, m: seq<Record>, z: seq<Record>)
    ensures [h] + (a + ([x] + m + z)) == [h] + a + [x] + m + z
  {
  }

  /** The triples of section `s` can be counted, and each is three reals. */
  predicate TriplesOk(bodies: seq<Body>, s: int) {
    && 2 <= s < |bodies| + 2 && |bodies[s - 2].records| <= 715_827_882
    && (|bodies[s - 2].records| > 0 ==> Offset(bodies, s - 2) + |bodies[s - 2].records| <= 0x7FFF_FFFF)
    && AllTriples(bodies[s - 2].records)
  }

  predicate AllTriples(records: seq<Record>) {
    forall k :: 0 <= k < |records| ==> |records[k]| == 24
  }

  function CutTriples(xyz: seq<Byte>, n: nat): seq<Record>
    requires |xyz| == 24 * n
  {
    seq(n, k requires 0 <= k < n => xyz[24 * k..24 * k + 24])
  }

  lemma SpanIs(header: Record, bodies: seq<Body>, s: int)
    requires FileOk(bodies) && Marked(header) && 2 <= s <= 99
    ensures Index(File(header, bodies)).Some?
    ensures var ix := Index(File(header, bodies)).value;
      && (s >= |bodies| + 2 ==> Span(ix, s).None?)
      && (s < |bodies| + 2 ==> var n := |bodies[s - 2].records|;
            && Start(ix, s) == Offset(bodies, s - 2)
            && (Span(ix, s).Some? <==> n <= 715_827_882 && (n > 0 ==> Offset(bodies, s - 2) + n <= 0x7FFF_FFFF))
            && (Span(ix, s).Some? ==> Span(ix, s).value == (n, if n > 0 then Offset(bodies, s - 2) + 1 else 0)))
  {
    hide Index;
    hide File;
    hide Offset;
    hide FileOk;
    StartIs(header, bodies, s);
  }

  /** The section arrays have the offset and the size of every section that the file has. */
  lemma StartIs(header: Record, bodies: seq<Body>, s: int)
    requires FileOk(bodies) && Marked(header) && 2 <= s <= 99
    ensures Index(File(header, bodies)).Some?
    ensures var ix := Index(File(header, bodies)).value;
      && (s >= |bodies| + 2 ==> Nrec(ix, s) == 0)
      && (s < |bodies| + 2 ==>
            Start(ix, s) == Offset(bodies, s - 2) >= 1 && Nrec(ix, s) == 1 + |bodies[s - 2].records|)
  {
    hide Flat;
    hide Sections;
    hide Contains;
    hide Marked;
    hide Offset;
    Indexed(header, bodies);
    MarkedIs(header);
    FlatSize(bodies);
    OffsetPositive(bodies, |bodies|);
    FirstOffset(bodies);
    SectionsFound(header, bodies, 0);
    if s < |bodies| + 2 {
      FoundAt(bodies, 0, s - 2);
      OffsetPositive(bodies, s - 2);
      assert Index(File(header, bodies)).value[s - 1] == Found(bodies, 0)[s - 2];
    }
  }

  lemma FirstOffset(bodies: seq<Body>)
    ensures Offset(bodies, 0) == 1
  {
  }

  /** Reading triples gives the records of the section, one after the other. */
  lemma TriplesAre(header: Record, bodies: seq<Body>, img: Image, s: int)
    requires FileOk(bodies) && Load(File(header, bodies)) == Some(img) && 2 <= s <= 99
    ensures Index(img.recs) == Some(img.index)
    ensures Triples(img, s).Some? <==> TriplesOk(bodies, s)
    ensures Triples(img, s).Some? ==>
      && |Triples(img, s).value| == 24 * |bodies[s - 2].records|
      && bodies[s - 2].records == CutTriples(Triples(img, s).value, |bodies[s - 2].records|)
  {
    hide Index;
    hide Decode;
    hide Marked;
    hide Contains;
    hide File;
    LoadedMarked(header, bodies, img);
    SpanIs(header, bodies, s);
    if Span(img.index, s).Some? {
      var (n, start) := Span(img.index, s).value;
      SpanInside(img.recs, s);
      var records := PartRecords(header, bodies, s);
      AllFit(img.recs, start, n, records);
    }
  }

  /** The records of a section where its span says. */
  lemma PartRecords(header: Record, bodies: seq<Body>, s: int) returns (records: seq<Record>)
    requires BodiesOk(bodies) && 2 <= s < |bodies| + 2
    ensures records == bodies[s - 2].records
    ensures Offset(bodies, s - 2) + 1 + |records| <= |File(header, bodies)|
    ensures forall k {:trigger records[k]} :: 0 <= k < |records| ==>
      File(header, bodies)[Offset(bodies, s - 2) + 1 + k] == records[k]
  {
    hide File;
    hide Offset;
    hide BodiesOk;
    records := bodies[s - 2].records;
    RecordsAt(header, bodies, s - 2);
  }

  lemma AllFit(rs: seq<Record>, start: nat, n: nat, records: seq<Record>)
    requires start + n <= |rs| && |records| == n
    requires forall k {:trigger records[k]} :: 0 <= k < n ==> rs[start + k] == records[k]
    ensures Gather(rs, start, n).Some? <==> AllTriples(records)
    ensures AllTriples(records) ==> var t := Gather(rs, start, n).value;
      |t| == 24 * n && records == CutTriples(t, n)
  {
    GatherWhole(rs, start, n);
    assert forall i :: start <= i < start + n ==> rs[i] == records[i - start];
    if Gather(rs, start, n).Some? {
      GatherCut(rs, start, n);
      forall k | 0 <= k < n
        ensures |records[k]| == 24
      {
        assert rs[start + k] == records[k];
      }
    }
  }

  lemma {:induction false} GatherCut(rs: seq<Record>, start: nat, n: nat)
    requires start + n <= |rs| && Gather(rs, start, n).Some?
    ensures |Gather(rs, start, n).value| == 24 * n
    ensures forall k :: 0 <= k < n ==> Gather(rs, start, n).value[24 * k..24 * k + 24] == rs[start + k]
    decreases n
  {
    if n > 0 {
      GatherCut(rs, start, n - 1);
    }
  }

  /** Coordinates are section 4 and velocities section 5: a setter succeeds exactly when the section is there
      with as many triples, and then the file is the same one with those triples in that section. */
  lemma TriplesSet(header: Record, bodies: seq<Body>, img: Image, op: Op, xyz: seq<Byte>)
    requires FileOk(bodies) && Load(File(header, bodies)) == Some(img)
    requires op == SetCoordinates(xyz) || op == SetVelocities(xyz)
    ensures Index(img.recs) == Some(img.index)
    ensures var s := if op == SetCoordinates(xyz) then 4 else 5;
      && (Apply(img, op).1 <==> TriplesOk(bodies, s) && |xyz| == 24 * |bodies[s - 2].records|)
      && (Apply(img, op).1 ==>
            && BodiesOk(WithPart(bodies, s, CutTriples(xyz, |bodies[s - 2].records|)))
            && Apply(img, op).0 == img.(recs := File(header,
                 WithPart(bodies, s, CutTriples(xyz, |bodies[s - 2].records|)))))
  {
    hide Index;
    hide Decode;
    hide Contains;
    hide Marked;
    hide File;
    hide Load;
    hide Triples;
    hide FileOk;
    hide TriplesOk;
    var s := if op == SetCoordinates(xyz) then 4 else 5;
    TriplesAre(header, bodies, img, s);
    LoadedMarked(header, bodies, img);
    StoreThenGet(img, s, xyz);
    if Apply(img, op).1 {
      TripleCut(header, bodies, img, s, xyz);
    }
  }

  lemma LoadedMarked(header: Record, bodies: seq<Body>, img: Image)
    requires FileOk(bodies) && Load(File(header, bodies)) == Some(img)
    ensures Marked(header) && img.recs == File(header, bodies)
  {
    hide Flat;
    hide Decode;
    hide Marked;
    Indexed(header, bodies);
  }

  lemma TripleCut(header: Record, bodies: seq<Body>, img: Image, s: int, xyz: seq<Byte>)
    requires FileOk(bodies) && Load(File(header, bodies)) == Some(img) && 4 <= s <= 5
    requires Index(img.recs) == Some(img.index) && Store(img, s, xyz).1
    requires TriplesOk(bodies, s) && |xyz| == 24 * |bodies[s - 2].records|
    ensures BodiesOk(WithPart(bodies, s, CutTriples(xyz, |bodies[s - 2].records|)))
    ensures Store(img, s, xyz).0 == img.(recs := File(header,
              WithPart(bodies, s, CutTriples(xyz, |bodies[s - 2].records|))))
  {
    hide Index;
    hide Marked;
    hide Load;
    hide File;
    hide Offset;
    hide Patch;
    hide CutTriples;
    LoadedMarked(header, bodies, img);
    SpanIs(header, bodies, s);
    SpanInside(img.recs, s);
    var start := Span(img.index, s).value.1;
    PatchedFile(header, bodies, s, start, xyz);
  }

  lemma PatchedFile(header: Record, bodies: seq<Body>, s: int, start: nat, xyz: seq<Byte>)
    requires BodiesOk(bodies) && 2 <= s < |bodies| + 2 && |xyz| == 24 * |bodies[s - 2].records|
    requires start + |bodies[s - 2].records| <= |File(header, bodies)|
    requires |bodies[s - 2].records| > 0 ==> start == Offset(bodies, s - 2) + 1
    requires Patch(File(header, bodies), start, |bodies[s - 2].records|, xyz).1
    ensures var cut := CutTriples(xyz, |bodies[s - 2].records|);
      && BodiesOk(WithPart(bodies, s, cut))
      && Patch(File(header, bodies), start, |bodies[s - 2].records|, xyz).0 == File(header, WithPart(bodies, s, cut))
  {
    hide File;
    hide Offset;
    hide Patch;
    hide BodiesOk;
    hide WithPart;
    var rs, n := File(header, bodies), |bodies[s - 2].records|;
    var cut := CutTriples(xyz, n);
    PatchOnly(rs, start, n, xyz);
    var front, back := FileSplit(header, bodies, s, cut);
    var r := Patch(rs, start, n, xyz).0;
    forall i | 0 <= i < |r|
      ensures r[i] == (front + cut + back)[i]
    {
      if |front| <= i < |front| + n {
        assert r[start + (i - start)] == xyz[24 * (i - start)..24 * (i - start) + 24];
      }
    }
    assert r == front + cut + back;
  }

  /** The file with other cell values. */
  lemma CellCut(header: Record, bodies: seq<Body>, celldm: seq<Byte>)
    requires BodiesOk(bodies) && |celldm| == 48 && |bodies| > 0 && |bodies[0].records| == 2
    requires |bodies[0].records[1]| >= 48
    ensures var rs, at := File(header, bodies), Offset(bodies, 0) + 2;
      && at < |rs| && rs[at] == bodies[0].records[1]
      && var records := [bodies[0].records[0], celldm + bodies[0].records[1][48..]];
      BodiesOk(WithPart(bodies, 2, records)) && rs[at := records[1]] == File(header, WithPart(bodies, 2, records))
  {
    hide File;
    hide BodiesOk;
    var records := [bodies[0].records[0], celldm + bodies[0].records[1][48..]];
    var front, back := FileSplit(header, bodies, 2, records);
    var rs, at := File(header, bodies), Offset(bodies, 0) + 2;
    assert at == |front| + 1 && rs[at] == bodies[0].records[1];
    assert rs[at := records[1]] == front + records + back;
  }

  /** What the fields are decoded from. */
  lemma CellLies(header: Record, bodies: seq<Body>, img: Image)
    requires FileOk(bodies) && Load(File(header, bodies)) == Some(img)
    ensures Index(img.recs) == Some(img.index) && img.recs == File(header, bodies)
    ensures img.typed.cell.Some? <==> HasPart(bodies, 2, 2)
    ensures HasPart(bodies, 2, 2) ==>
      && Nrec(img.index, 2) == 3 && Start(img.index, 2) == Offset(bodies, 0) && |bodies[0].records[1]| >= 48
  {
    hide Index;
    hide Marked;
    hide Contains;
    hide File;
    LoadedMarked(header, bodies, img);
    FieldsDecoded(header, bodies);
    PartsAt(header, bodies, 2, 2);
    SpanIs(header, bodies, 2);
  }

  /** The cell is the second record of section 2: setting it succeeds exactly when it is there, changes its
      first 48 bytes, and is what is read afterwards. */
  lemma CellSet(header: Record, bodies: seq<Body>, img: Image, celldm: seq<Byte>)
    requires FileOk(bodies) && Load(File(header, bodies)) == Some(img) && |celldm| == 48
    ensures Index(img.recs) == Some(img.index)
    ensures var r := Apply(img, SetCell(celldm));
      && (r.1 <==> HasPart(bodies, 2, 2))
      && (r.1 ==>
            && |bodies[0].records| == 2 && |bodies[0].records[1]| >= 48
            && var records := [bodies[0].records[0], celldm + bodies[0].records[1][48..]];
            && BodiesOk(WithPart(bodies, 2, records)) && r.0.recs == File(header, WithPart(bodies, 2, records))
            && r.0.typed.cell.Some? && r.0.typed.cell.value.celldm == celldm
            && img.typed.cell.Some?
            && r.0.typed == img.typed.(cell := Some(img.typed.cell.value.(celldm := celldm))))
  {
    hide Index;
    hide Load;
    hide File;
    hide BodiesOk;
    hide WithPart;
    CellLies(header, bodies, img);
    if HasPart(bodies, 2, 2) {
      BodiesAre(bodies);
      CellCut(header, bodies, celldm);
    }
  }

  lemma BodiesAre(bodies: seq<Body>)
    requires FileOk(bodies)
    ensures BodiesOk(bodies)
  {
  }
}
