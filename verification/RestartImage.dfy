/** A parsed restart file: the section index over its records, the fields decoded beside them, and the
    setters that patch records in place. */
module RestartImage {
  import opened Ints
  import opened LittleEndian
  import opened Options
  import opened RestartCodec

  const MAX_SECTIONS: nat := 99
  const MAX_HEADER: nat := 96

  /** "STUTTGART VERSION 3.0" */
  const MAGIC: seq<Byte> := [83, 84, 85, 84, 84, 71, 65, 82, 84, 32, 86, 69, 82, 83, 73, 79, 78, 32, 51, 46, 48]

  /** "STREAM" */
  const STREAM: seq<Byte> := [83, 84, 82, 69, 65, 77]

  // ----- the index

  /** Where a section's records are: its header record comes first. */
  datatype Section = Section(start: nat, nrec: nat)

  predicate OccursAt(h: seq<Byte>, s: seq<Byte>, i: nat) {
    i + |s| <= |h| && h[i..i + |s|] == s
  }

  predicate Contains(h: seq<Byte>, s: seq<Byte>) {
    exists i :: 0 <= i <= |h| - |s| && OccursAt(h, s, i)
  }

  function Trim(h: seq<Byte>): seq<Byte> {
    if h != [] && h[|h| - 1] in {0, 32} then Trim(h[..|h| - 1]) else h
  }

  function Header(r: Record): seq<Byte> {
    Trim(if |r| >= MAX_HEADER then r[..MAX_HEADER - 1] else r)
  }

  /** A C string ends at its first zero byte. */
  function Text(h: seq<Byte>): seq<Byte> {
    if h == [] || h[0] == 0 then [] else [h[0]] + Text(h[1..])
  }

  function Abs(x: int): nat {
    if x < 0 then -x else x
  }

  /** The sections from number `s` on, whose first record is number `i`. */
  function Sections(rs: seq<Record>, s: nat, i: nat): Option<seq<Section>>
    requires s <= MAX_SECTIONS + 1 && i <= |rs|
    decreases MAX_SECTIONS + 1 - s
  {
    if i == |rs| then Some([])
    else if s > MAX_SECTIONS || |rs[i]| < 4 then None
    else
      var count := FromLe32(rs[i]);
      var follow := Abs(count);
      if count == -0x8000_0000 || follow > |rs| - i - 1 || i > INT_MAX || follow > INT_MAX - 1 then None
      else
        match Sections(rs, s + 1, i + 1 + follow)
        case None => None
        case Some(t) => Some([Section(i, 1 + follow)] + t)
  }

  /** `index_sections`: section 1 is the header record alone; the sections take up all records. */
  function Index(rs: seq<Record>): Option<seq<Section>> {
    if rs == [] || !Contains(rs[0], MAGIC) then None
    else
      match Sections(rs, 2, 1)
      case None => None
      case Some(t) => Some([Section(0, 1)] + t)
  }

  function Nrec(ix: seq<Section>, s: int): nat {
    if 1 <= s <= |ix| then ix[s - 1].nrec else 0
  }

  function Start(ix: seq<Section>, s: int): int {
    if 1 <= s <= |ix| then ix[s - 1].start else -1
  }

  /** Sections lie end to end from record 0 to the last one. */
  ghost predicate Tiles(ix: seq<Section>, from: nat, to: nat) {
    if ix == [] then from == to
    else ix[0].start == from && ix[0].nrec > 0 && Tiles(ix[1..], from + ix[0].nrec, to)
  }

  lemma {:induction false} SectionsTile(rs: seq<Record>, s: nat, i: nat)
    requires s <= MAX_SECTIONS + 1 && i <= |rs| && Sections(rs, s, i).Some?
    ensures Tiles(Sections(rs, s, i).value, i, |rs|) && |Sections(rs, s, i).value| <= MAX_SECTIONS + 1 - s
    decreases MAX_SECTIONS + 1 - s
  {
    if i < |rs| {
      var n := 1 + Abs(FromLe32(rs[i]));
      SectionsTile(rs, s + 1, i + n);
      assert Sections(rs, s, i).value[1..] == Sections(rs, s + 1, i + n).value;
    }
  }

  /** Every record belongs to exactly one section. */
  lemma IndexTiles(rs: seq<Record>)
    requires Index(rs).Some?
    ensures var ix := Index(rs).value; Tiles(ix, 0, |rs|) && 1 <= |ix| <= MAX_SECTIONS
  {
    SectionsTile(rs, 2, 1);
    assert Index(rs).value[1..] == Sections(rs, 2, 1).value;
  }

  lemma {:induction false} TilesOrder(ix: seq<Section>, from: nat, to: nat, j: nat, k: nat)
    requires Tiles(ix, from, to) && j < k < |ix|
    ensures ix[j].start + ix[j].nrec <= ix[k].start
    decreases |ix|
  {
    if j > 0 {
      TilesOrder(ix[1..], from + ix[0].nrec, to, j - 1, k - 1);
    } else {
      TilesFrom(ix[1..], from + ix[0].nrec, to, k - 1);
    }
  }

  lemma {:induction false} TilesFrom(ix: seq<Section>, from: nat, to: nat, k: nat)
    requires Tiles(ix, from, to) && k < |ix|
    ensures from <= ix[k].start && ix[k].start + ix[k].nrec <= to && ix[k].nrec > 0
    decreases |ix|
  {
    if k > 0 {
      TilesFrom(ix[1..], from + ix[0].nrec, to, k - 1);
    } else {
      TilesEnd(ix[1..], from + ix[0].nrec, to);
    }
  }

  lemma {:induction false} TilesEnd(ix: seq<Section>, from: nat, to: nat)
    requires Tiles(ix, from, to)
    ensures from <= to
    decreases |ix|
  {
    if ix != [] {
      TilesEnd(ix[1..], from + ix[0].nrec, to);
    }
  }

  predicate InSection(ix: seq<Section>, s: int, i: nat) {
    1 <= s <= |ix| && ix[s - 1].start <= i < ix[s - 1].start + ix[s - 1].nrec
  }

  lemma OneSection(rs: seq<Record>, s: int, t: int, i: nat)
    requires Index(rs).Some? && InSection(Index(rs).value, s, i) && InSection(Index(rs).value, t, i)
    ensures s == t && i < |rs|
  {
    hide Index;
    hide Tiles;
    var ix := Index(rs).value;
    IndexTiles(rs);
    TilesFrom(ix, 0, |rs|, s - 1);
    if s < t {
      TilesOrder(ix, 0, |rs|, s - 1, t - 1);
    } else if t < s {
      TilesOrder(ix, 0, |rs|, t - 1, s - 1);
    }
  }

  lemma OtherSection(rs: seq<Record>, s: int, t: int, i: nat)
    requires Index(rs).Some? && InSection(Index(rs).value, s, i) && s != t
    ensures !InSection(Index(rs).value, t, i)
  {
    if InSection(Index(rs).value, t, i) {
      OneSection(rs, s, t, i);
    }
  }

  // ----- the decoded fields

  type Real8 = seq<Byte>

  datatype Cell = Cell(ibrav: int, indpg: int, celldm: seq<Byte>)
  datatype Cut = Cut(ecut: Real8, cdual: Real8, dual: int, nel: int, nr1s: int, nr2s: int, nr3s: int)
  datatype States = States(n: int, nkpts: int, ngw: int, ngwl: int, nhg: int, nhgl: int)

  /** Every field is present or not. */
  datatype Typed = Typed(cell: Option<Cell>, na: Option<seq<int>>, cut: Option<Cut>, states: Option<States>)

  /** Record `o` of section `s`, by the rule of `rec_at`. */
  function RecAt(rs: seq<Record>, ix: seq<Section>, s: int, o: nat): Option<Record> {
    if Start(ix, s) < 0 || Start(ix, s) + o >= |rs| then None else Some(rs[Start(ix, s) + o])
  }

  function I32(r: Record, off: nat): int
    requires off + 4 <= |r|
  {
    FromLe32(r[off..])
  }

  function CellOf(sym: Option<Record>, cell: Option<Record>): Option<Option<Cell>> {
    if sym.None? || cell.None? || |sym.value| < 8 || |cell.value| < 48 then None
    else Some(Some(Cell(I32(sym.value, 0), I32(sym.value, 4), cell.value[..48])))
  }

  function Counts(r: Record, n: nat): Option<seq<int>>
    requires |r| >= 4 * n
  {
    if n == 0 then Some([])
    else
      match Counts(r, n - 1)
      case None => None
      case Some(na) => if I32(r, 4 * (n - 1)) < 0 then None else Some(na + [I32(r, 4 * (n - 1))])
  }

  function SpeciesOf(nsp: Option<Record>, na: Option<Record>): Option<Option<seq<int>>> {
    if nsp.None? || na.None? || |nsp.value| < 4 then None
    else
      var n := I32(nsp.value, 0);
      if n < 0 || n > 100000 || |na.value| < 4 * n then None
      else
        match Counts(na.value, n)
        case None => None
        case Some(c) => Some(Some(c))
  }

  function CutOf(r: Option<Record>): Option<Option<Cut>> {
    if r.None? || |r.value| < 36 then None
    else
      var b := r.value;
      Some(Some(Cut(b[..8], b[8..16], I32(b, 16), I32(b, 20), I32(b, 24), I32(b, 28), I32(b, 32))))
  }

  function StatesOf(r: Option<Record>): Option<Option<States>> {
    if r.None? || |r.value| < 24 then None
    else
      var b := r.value;
      Some(Some(States(I32(b, 0), I32(b, 4), I32(b, 8), I32(b, 12), I32(b, 16), I32(b, 20))))
  }

  /** `decode_typed`. */
  function Decode(rs: seq<Record>, ix: seq<Section>): Option<Typed> {
    var cell := if Nrec(ix, 2) == 3 then CellOf(RecAt(rs, ix, 2, 1), RecAt(rs, ix, 2, 2)) else Some(None);
    var na := if Nrec(ix, 3) == 3 then SpeciesOf(RecAt(rs, ix, 3, 1), RecAt(rs, ix, 3, 2)) else Some(None);
    var cut := if Nrec(ix, 7) == 2 then CutOf(RecAt(rs, ix, 7, 1)) else Some(None);
    var states := if Nrec(ix, 8) == 2 then StatesOf(RecAt(rs, ix, 8, 1)) else Some(None);
    if cell.None? || na.None? || cut.None? || states.None? then None
    else Some(Typed(cell.value, na.value, cut.value, states.value))
  }

  /** Everything that `struct cpmdc_restart` holds. */
  datatype Image = Image(recs: seq<Record>, index: seq<Section>, header: seq<Byte>, stream: bool, typed: Typed)

  function Load(rs: seq<Record>): Option<Image> {
    match Index(rs)
    case None => None
    case Some(ix) =>
      match Decode(rs, ix)
      case None => None
      case Some(t) => Some(Image(rs, ix, Header(rs[0]), Contains(Text(Header(rs[0])), STREAM), t))
  }

  /** `cpmdc_restart_read_mem`. */
  function Read(buf: seq<Byte>): Option<Image> {
    match Parse(buf)
    case None => None
    case Some(rs) => Load(rs)
  }

  // ----- the setters

  /** The store loop over the records of a section: it stops at a record that is not 24 bytes long. */
  function Patch(rs: seq<Record>, start: nat, n: nat, xyz: seq<Byte>): (seq<Record>, bool)
    requires start + n <= |rs| && |xyz| == 24 * n
    decreases n
  {
    if n == 0 then (rs, true)
    else if |rs[start]| != 24 then (rs, false)
    else Patch(rs[start := xyz[..24]], start + 1, n - 1, xyz[24..])
  }

  /** `triples_span`: how many records of triples a section has and where they start. */
  function Span(ix: seq<Section>, s: int): Option<(nat, nat)> {
    if Nrec(ix, s) < 1 then None
    else
      var n := Nrec(ix, s) - 1;
      if n > INT_MAX / 3 || (n > 0 && (Start(ix, s) < 0 || Start(ix, s) > INT_MAX - n)) then None
      else Some((n, if n > 0 then Start(ix, s) + 1 else 0))
  }

  datatype Op = SetCoordinates(xyz: seq<Byte>) | SetVelocities(xyz: seq<Byte>) | SetCell(celldm: seq<Byte>)

  lemma SpanInside(rs: seq<Record>, s: int)
    requires Index(rs).Some? && Span(Index(rs).value, s).Some?
    ensures var (n, start) := Span(Index(rs).value, s).value;
      start + n <= |rs| && forall i :: start <= i < start + n ==>
        InSection(Index(rs).value, s, i) && i > Start(Index(rs).value, s)
  {
    IndexTiles(rs);
    TilesFrom(Index(rs).value, 0, |rs|, s - 1);
  }

  /** `store_triples`; it may have stored some triples when it fails. */
  function Store(img: Image, s: int, xyz: seq<Byte>): (Image, bool)
    requires Index(img.recs) == Some(img.index)
  {
    match Span(img.index, s)
    case None => (img, false)
    case Some((n, start)) =>
      if |xyz| != 24 * n then (img, false)
      else
        SpanInside(img.recs, s);
        var r := Patch(img.recs, start, n, xyz);
        (img.(recs := r.0), r.1)
  }

  /** `cpmdc_restart_set_cell`: the record and the cached copy. */
  function StoreCell(img: Image, celldm: seq<Byte>): (Image, bool)
    requires Index(img.recs) == Some(img.index) && |celldm| == 48
  {
    if img.typed.cell.None? || Nrec(img.index, 2) != 3 then (img, false)
    else
      var at := Start(img.index, 2) + 2;
      if at >= |img.recs| || |img.recs[at]| < 48 then (img, false)
      else (img.(recs := img.recs[at := celldm + img.recs[at][48..]],
                 typed := img.typed.(cell := Some(img.typed.cell.value.(celldm := celldm)))), true)
  }

  predicate OpOk(op: Op) {
    op.SetCell? ==> |op.celldm| == 48
  }

  function Apply(img: Image, op: Op): (r: (Image, bool))
    requires Index(img.recs) == Some(img.index) && OpOk(op)
  {
    match op
    case SetCoordinates(xyz) => Store(img, 4, xyz)
    case SetVelocities(xyz) => Store(img, 5, xyz)
    case SetCell(c) => StoreCell(img, c)
  }

  // ----- what a setter leaves alone

  /** A record of a section of triples that holds one. */
  predicate IsTriple(ix: seq<Section>, rs: seq<Record>, s: int, i: nat) {
    InSection(ix, s, i) && i > Start(ix, s) && i < |rs| && |rs[i]| == 24
  }

  /** The bytes that setters may change: the 24 bytes of a triple of section 4 or 5, and the 48 bytes of the
      six cell values. */
  predicate Window(ix: seq<Section>, rs: seq<Record>, i: nat, b: nat) {
    && i < |rs| && b < |rs[i]|
    && (IsTriple(ix, rs, 4, i) || IsTriple(ix, rs, 5, i) || (Nrec(ix, 2) == 3 && i == Start(ix, 2) + 2 && b < 48))
  }

  ghost predicate Windowed(ix: seq<Section>, rs: seq<Record>, rs': seq<Record>) {
    && SameLengths(rs, rs')
    && forall i: nat, b: nat :: i < |rs| && b < |rs[i]| && rs[i][b] != rs'[i][b] ==> Window(ix, rs, i, b)
  }

  lemma WindowedTwice(ix: seq<Section>, rs: seq<Record>, rs': seq<Record>, rs'': seq<Record>)
    requires Windowed(ix, rs, rs') && Windowed(ix, rs', rs'')
    ensures Windowed(ix, rs, rs'')
  {
  }

  lemma {:induction false} SectionsSame(rs: seq<Record>, rs': seq<Record>, s: nat, i: nat)
    requires s <= MAX_SECTIONS + 1 && i <= |rs| == |rs'| && Sections(rs, s, i).Some?
    requires forall j :: 0 <= j < |Sections(rs, s, i).value| ==>
               var h := Sections(rs, s, i).value[j].start; h < |rs| && rs'[h] == rs[h]
    ensures Sections(rs', s, i) == Sections(rs, s, i)
    decreases MAX_SECTIONS + 1 - s
  {
    hide FromLe32;
    if i < |rs| {
      var n := 1 + Abs(FromLe32(rs[i]));
      var t := Sections(rs, s, i).value;
      assert t[0].start == i;
      assert t[1..] == Sections(rs, s + 1, i + n).value;
      SectionsSame(rs, rs', s + 1, i + n);
    }
  }

  /** No window touches a section header, nor a record of a section without one. */
  lemma NoWindow(rs: seq<Record>, s: int, i: nat, b: nat)
    requires Index(rs).Some? && InSection(Index(rs).value, s, i)
    requires i != Start(Index(rs).value, s) ==> s !in {4, 5} && (s == 2 ==> i != Start(Index(rs).value, 2) + 2)
    ensures !Window(Index(rs).value, rs, i, b)
  {
    var ix := Index(rs).value;
    if Window(ix, rs, i, b) {
      if IsTriple(ix, rs, 4, i) {
        OneSection(rs, s, 4, i);
      } else if IsTriple(ix, rs, 5, i) {
        OneSection(rs, s, 5, i);
      } else {
        assert InSection(ix, 2, i);
        OneSection(rs, s, 2, i);
      }
    }
  }

  lemma RecordKept(rs: seq<Record>, rs': seq<Record>, s: int, i: nat)
    requires Index(rs).Some? && Windowed(Index(rs).value, rs, rs') && InSection(Index(rs).value, s, i)
    requires i != Start(Index(rs).value, s) ==> s !in {4, 5} && (s == 2 ==> i != Start(Index(rs).value, 2) + 2)
    ensures i < |rs| == |rs'| && rs'[i] == rs[i]
  {
    hide Index;
    hide Window;
    OneSection(rs, s, s, i);
    forall b: nat | b < |rs[i]|
      ensures rs'[i][b] == rs[i][b]
    {
      NoWindow(rs, s, i, b);
    }
  }

  lemma IndexKept(rs: seq<Record>, rs': seq<Record>)
    requires Index(rs).Some? && Windowed(Index(rs).value, rs, rs')
    ensures Index(rs') == Index(rs) && |rs'| > 0 && rs'[0] == rs[0]
  {
    hide Windowed;
    hide Contains;
    hide Sections;
    var ix, t := Index(rs).value, Sections(rs, 2, 1).value;
    IndexTiles(rs);
    forall j | 0 <= j < |t|
      ensures t[j].start < |rs| && |rs'| == |rs| && rs'[t[j].start] == rs[t[j].start]
    {
      assert ix[j + 1] == t[j];
      TilesFrom(ix, 0, |rs|, j + 1);
      RecordKept(rs, rs', j + 2, t[j].start);
    }
    RecordKept(rs, rs', 1, 0);
    SectionsSame(rs, rs', 2, 1);
  }

  lemma RecAtKept(rs: seq<Record>, rs': seq<Record>, s: int, o: nat)
    requires Index(rs).Some? && Windowed(Index(rs).value, rs, rs') && 0 < o < Nrec(Index(rs).value, s)
    requires s !in {4, 5} && (s == 2 ==> o != 2)
    ensures RecAt(rs', Index(rs).value, s, o) == RecAt(rs, Index(rs).value, s, o)
  {
    hide Index;
    hide Windowed;
    RecordKept(rs, rs', s, Start(Index(rs).value, s) + o);
  }

  /** The image that the changed records stand for. */
  function Refreshed(img: Image, rs': seq<Record>): Image
    requires img.typed.cell.Some? ==> 0 <= Start(img.index, 2) + 2 < |rs'| && |rs'[Start(img.index, 2) + 2]| >= 48
  {
    img.(recs := rs',
         typed := if img.typed.cell.None? then img.typed
                  else img.typed.(cell := Some(img.typed.cell.value.(celldm := rs'[Start(img.index, 2) + 2][..48]))))
  }

  /** Changes inside the windows keep the index and every decoded field but the cell values. */
  lemma LoadKept(img: Image, rs': seq<Record>)
    requires Load(img.recs) == Some(img) && Windowed(img.index, img.recs, rs')
    ensures img.typed.cell.Some? ==> 0 <= Start(img.index, 2) + 2 < |rs'| && |rs'[Start(img.index, 2) + 2]| >= 48
    ensures Load(rs') == Some(Refreshed(img, rs'))
  {
    hide Index;
    hide Decode;
    hide Windowed;
    hide Contains;
    IndexKept(img.recs, rs');
    DecodeKept(img, rs');
  }

  lemma DecodeKept(img: Image, rs': seq<Record>)
    requires Index(img.recs) == Some(img.index) && Decode(img.recs, img.index) == Some(img.typed)
    requires Windowed(img.index, img.recs, rs')
    ensures img.typed.cell.Some? ==> 0 <= Start(img.index, 2) + 2 < |rs'| && |rs'[Start(img.index, 2) + 2]| >= 48
    ensures Decode(rs', img.index) == Some(Refreshed(img, rs').typed)
  {
    hide Index;
    hide Windowed;
    var rs, ix := img.recs, img.index;
    Lengths(ix, rs, rs');
    if Nrec(ix, 2) == 3 { RecAtKept(rs, rs', 2, 1); }
    if Nrec(ix, 3) == 3 { RecAtKept(rs, rs', 3, 1); RecAtKept(rs, rs', 3, 2); }
    if Nrec(ix, 7) == 2 { RecAtKept(rs, rs', 7, 1); }
    if Nrec(ix, 8) == 2 { RecAtKept(rs, rs', 8, 1); }
  }

  lemma Lengths(ix: seq<Section>, rs: seq<Record>, rs': seq<Record>)
    requires Windowed(ix, rs, rs')
    ensures |rs| == |rs'| && forall i :: 0 <= i < |rs| ==> |rs[i]| == |rs'[i]|
  {
  }

  // ----- runs of setters

  lemma NextTriple(xyz: seq<Byte>, a: nat)
    requires 0 < a && 24 * a + 24 <= |xyz|
    ensures xyz[24..][24 * (a - 1)..24 * (a - 1) + 24] == xyz[24 * a..24 * a + 24]
  {
    assert xyz == xyz[..24] + xyz[24..];
  }

  lemma {:induction false} PatchOnly(rs: seq<Record>, start: nat, n: nat, xyz: seq<Byte>)
    requires start + n <= |rs| && |xyz| == 24 * n
    ensures var r := Patch(rs, start, n, xyz);
      && SameLengths(rs, r.0)
      && (forall i :: 0 <= i < |rs| ==> r.0[i] == rs[i] || (start <= i < start + n && |rs[i]| == 24))
      && (r.1 <==> forall i :: start <= i < start + n ==> |rs[i]| == 24)
      && (r.1 ==> forall a :: 0 <= a < n ==> r.0[start + a] == xyz[24 * a..24 * a + 24])
    decreases n
  {
    if n > 0 && |rs[start]| == 24 {
      var rs1 := rs[start := xyz[..24]];
      PatchOnly(rs1, start + 1, n - 1, xyz[24..]);
      var r := Patch(rs, start, n, xyz);
      forall i | 0 <= i < |rs|
        ensures r.0[i] == rs[i] || (start <= i < start + n && |rs[i]| == 24)
      {
        assert r.0[i] == rs1[i] || (start + 1 <= i < start + n && |rs1[i]| == 24);
      }
      if r.1 {
        forall a | 0 <= a < n
          ensures r.0[start + a] == xyz[24 * a..24 * a + 24]
        {
          if a == 0 {
            assert r.0[start] == rs1[start];
          } else {
            assert r.0[start + 1 + (a - 1)] == xyz[24..][24 * (a - 1)..24 * (a - 1) + 24];
            NextTriple(xyz, a);
          }
        }
      }
    }
  }

  /** A setter, failing or not, leaves an image that loads back as itself, changed inside the windows only. */
  lemma StoreKeeps(img: Image, s: int, xyz: seq<Byte>)
    requires Load(img.recs) == Some(img) && 4 <= s <= 5
    ensures var img' := Store(img, s, xyz).0;
      Load(img'.recs) == Some(img') && img'.index == img.index && Windowed(img.index, img.recs, img'.recs)
  {
    hide Load;
    hide Index;
    IndexOfLoaded(img);
    var rs, rs', ix := img.recs, Store(img, s, xyz).0.recs, img.index;
    if rs' != rs {
      SpanInside(rs, s);
      var (n, start) := Span(ix, s).value;
      PatchOnly(rs, start, n, xyz);
      forall i: nat, b: nat | i < |rs| && b < |rs[i]| && rs[i][b] != rs'[i][b]
        ensures Window(ix, rs, i, b)
      {
        assert InSection(ix, s, i);
      }
      assert Windowed(ix, rs, rs');
      LoadKept(img, rs');
      if img.typed.cell.Some? {
        var c := Start(ix, 2) + 2;
        CellInSection(img);
        OtherSection(rs, 2, s, c);
        assert rs'[c] == rs[c];
      }
    }
  }

  lemma IndexOfLoaded(img: Image)
    requires Load(img.recs) == Some(img)
    ensures Index(img.recs) == Some(img.index) && Decode(img.recs, img.index) == Some(img.typed)
  {
  }

  lemma CellInSection(img: Image)
    requires Load(img.recs) == Some(img) && img.typed.cell.Some?
    ensures var c := Start(img.index, 2) + 2;
      && 0 <= c < |img.recs| && InSection(img.index, 2, c) && Nrec(img.index, 2) == 3
      && |img.recs[c]| >= 48 && img.typed.cell.value.celldm == img.recs[c][..48]
  {
    hide Index;
    hide Contains;
    hide Sections;
  }

  lemma StoreCellKeeps(img: Image, celldm: seq<Byte>)
    requires Load(img.recs) == Some(img) && |celldm| == 48 && Index(img.recs) == Some(img.index)
    ensures var img' := StoreCell(img, celldm).0;
      Load(img'.recs) == Some(img') && img'.index == img.index && Windowed(img.index, img.recs, img'.recs)
  {
    hide Load;
    hide Index;
    if img.typed.cell.Some? {
      CellInSection(img);
      var img' := StoreCell(img, celldm).0;
      var c := Start(img.index, 2) + 2;
      assert img'.recs[c][..48] == celldm;
      assert forall b :: 48 <= b < |img.recs[c]| ==> img'.recs[c][b] == img.recs[c][b];
      assert Windowed(img.index, img.recs, img'.recs);
      LoadKept(img, img'.recs);
    }
  }

  lemma ApplyKeeps(img: Image, op: Op)
    requires Load(img.recs) == Some(img) && OpOk(op)
    ensures Index(img.recs) == Some(img.index)
    ensures var img' := Apply(img, op).0;
      Load(img'.recs) == Some(img') && img'.index == img.index && Windowed(img.index, img.recs, img'.recs)
  {
    IndexOfLoaded(img);
    match op
    case SetCoordinates(xyz) => StoreKeeps(img, 4, xyz);
    case SetVelocities(xyz) => StoreKeeps(img, 5, xyz);
    case SetCell(c) => StoreCellKeeps(img, c);
  }

  /** Any run of setter calls. */
  function Run(img: Image, ops: seq<Op>): Image
    requires Load(img.recs) == Some(img) && forall i :: 0 <= i < |ops| ==> OpOk(ops[i])
    decreases |ops|
  {
    if ops == [] then img
    else
      ApplyKeeps(img, ops[0]);
      Run(Apply(img, ops[0]).0, ops[1..])
  }

  lemma {:induction false} RunKeeps(img: Image, ops: seq<Op>)
    requires Load(img.recs) == Some(img) && forall i :: 0 <= i < |ops| ==> OpOk(ops[i])
    ensures var img' := Run(img, ops);
      Load(img'.recs) == Some(img') && img'.index == img.index && Windowed(img.index, img.recs, img'.recs)
    decreases |ops|
  {
    hide Load;
    hide Apply;
    hide Windowed;
    if ops == [] {
      WindowedSelf(img.index, img.recs);
    } else {
      ApplyKeeps(img, ops[0]);
      var img1 := Apply(img, ops[0]).0;
      RunKeeps(img1, ops[1..]);
      WindowedTwice(img.index, img.recs, img1.recs, Run(img, ops).recs);
    }
  }

  lemma WindowedSelf(ix: seq<Section>, rs: seq<Record>)
    ensures Windowed(ix, rs, rs)
  {
  }

  /** Position `p` of the stream holds byte `b` of record `i`. */
  predicate Holds(max: int, rs: seq<Record>, p: nat, i: nat, b: nat)
    requires 0 < max <= INT_MAX
  {
    && i < |rs| && b < |rs[i]| && p == At(max, rs, i, b) && p < |Emit(max, rs)| && Emit(max, rs)[p] == rs[i][b]
  }

  ghost predicate InWindow(max: int, img: Image, p: nat)
    requires 0 < max <= INT_MAX
  {
    exists i: nat, b: nat :: Window(img.index, img.recs, i, b) && Holds(max, img.recs, p, i, b)
  }

  /** After any run of setters on a file that was read, writing and reading again gives the same image,
      so every getter agrees; the bytes written keep their number and differ only where the file held a byte
      of a triple of section 4 or 5 or one of the 48 cell bytes. */
  lemma RunReadsBack(max: int, buf: seq<Byte>, ops: seq<Op>)
    requires 0 < max <= INT_MAX && Read(buf).Some? && forall i :: 0 <= i < |ops| ==> OpOk(ops[i])
    ensures Load(Read(buf).value.recs) == Some(Read(buf).value)
    ensures var img, img' := Read(buf).value, Run(Read(buf).value, ops);
      && Read(Emit(max, img'.recs)) == Some(img')
      && |Emit(max, img'.recs)| == |Emit(max, img.recs)|
      && forall p: nat :: p < |Emit(max, img.recs)| && Emit(max, img'.recs)[p] != Emit(max, img.recs)[p] ==>
        InWindow(max, img, p)
  {
    hide Emit;
    hide Window;
    hide Parse;
    ReadLoads(buf);
    var img, img' := Read(buf).value, Run(Read(buf).value, ops);
    RunKeeps(img, ops);
    ParseEmit(max, img'.recs);
    var _, _ := StreamDiffers(max, img.recs, img'.recs, 0);
    forall p: nat | p < |Emit(max, img.recs)| && Emit(max, img'.recs)[p] != Emit(max, img.recs)[p]
      ensures InWindow(max, img, p)
    {
      var i, b := StreamDiffers(max, img.recs, img'.recs, p);
      assert Window(img.index, img.recs, i, b);
      ByteAt(max, img.recs, i, b);
    }
  }

  lemma ReadLoads(buf: seq<Byte>)
    requires Read(buf).Some?
    ensures Load(Read(buf).value.recs) == Some(Read(buf).value)
  {
    hide Index;
    hide Decode;
    hide Contains;
  }

  // ----- getters

  /** `copy_triples`. */
  function Gather(rs: seq<Record>, start: nat, n: nat): Option<seq<Byte>>
    requires start + n <= |rs|
  {
    if n == 0 then Some([])
    else
      match Gather(rs, start, n - 1)
      case None => None
      case Some(t) => if |rs[start + n - 1]| != 24 then None else Some(t + rs[start + n - 1])
  }

  function Triples(img: Image, s: int): Option<seq<Byte>>
    requires Index(img.recs) == Some(img.index)
  {
    match Span(img.index, s)
    case None => None
    case Some((n, start)) =>
      SpanInside(img.recs, s);
      Gather(img.recs, start, n)
  }

  lemma {:induction false} GatherPieces(rs: seq<Record>, start: nat, n: nat, xyz: seq<Byte>)
    requires start + n <= |rs| && |xyz| >= 24 * n
    requires forall a :: 0 <= a < n ==> rs[start + a] == xyz[24 * a..24 * a + 24]
    ensures Gather(rs, start, n) == Some(xyz[..24 * n])
    decreases n
  {
    if n > 0 {
      GatherPieces(rs, start, n - 1, xyz);
      assert rs[start + (n - 1)] == xyz[24 * (n - 1)..24 * n];
      assert xyz[..24 * (n - 1)] + xyz[24 * (n - 1)..24 * n] == xyz[..24 * n];
    }
  }

  /** What was stored is what is read, and a store fails exactly when it cannot be. */
  lemma StoreThenGet(img: Image, s: int, xyz: seq<Byte>)
    requires Load(img.recs) == Some(img) && 4 <= s <= 5
    ensures Index(img.recs) == Some(img.index)
    ensures var r := Store(img, s, xyz);
      && Index(r.0.recs) == Some(r.0.index)
      && (r.1 <==> Triples(img, s).Some? && |xyz| == |Triples(img, s).value|)
      && (r.1 ==> Triples(r.0, s) == Some(xyz))
  {
    hide Index;
    hide Load;
    StoreKeeps(img, s, xyz);
    IndexOfLoaded(img);
    IndexOfLoaded(Store(img, s, xyz).0);
    if Span(img.index, s).Some? {
      SpanInside(img.recs, s);
      var (n, start) := Span(img.index, s).value;
      GatherWhole(img.recs, start, n);
      if |xyz| == 24 * n {
        PatchOnly(img.recs, start, n, xyz);
        if Store(img, s, xyz).1 {
          GatherPieces(Store(img, s, xyz).0.recs, start, n, xyz);
          assert xyz[..24 * n] == xyz;
        }
      }
    }
  }

  lemma {:induction false} GatherWhole(rs: seq<Record>, start: nat, n: nat)
    requires start + n <= |rs|
    ensures Gather(rs, start, n).Some? <==> forall i :: start <= i < start + n ==> |rs[i]| == 24
    ensures Gather(rs, start, n).Some? ==> |Gather(rs, start, n).value| == 24 * n
    decreases n
  {
    if n > 0 {
      GatherWhole(rs, start, n - 1);
    }
  }

  lemma SectionsStep(rs: seq<Record>, s: nat, i: nat, ix: seq<Section>)
    requires s <= MAX_SECTIONS && i < |rs|
    ensures Prepend(ix, Sections(rs, s, i)) ==
      if |rs[i]| < 4 then None else
        var count := FromLe32(rs[i]);
        var n := 1 + Abs(count);
        if count == -0x8000_0000 || n > |rs| - i || i > INT_MAX || n > INT_MAX then None
        else Prepend(ix + [Section(i, n)], Sections(rs, s + 1, i + n))
  {
    hide FromLe32;
    if |rs[i]| >= 4 {
      var n := 1 + Abs(FromLe32(rs[i]));
      if n <= |rs| - i && Sections(rs, s + 1, i + n).Some? {
        var t := Sections(rs, s + 1, i + n).value;
        assert ix + ([Section(i, n)] + t) == ix + [Section(i, n)] + t;
      }
    }
  }

  lemma SectionsEnd(rs: seq<Record>, s: nat, i: nat, ix: seq<Section>)
    requires s <= MAX_SECTIONS + 1 && i <= |rs| && (s == MAX_SECTIONS + 1 || i == |rs|)
    ensures Prepend(ix, Sections(rs, s, i)) == if i == |rs| then Some(ix) else None
  {
    assert ix + [] == ix;
  }

  // ----- the file object

  /** `struct cpmdc_restart`. */
  class Restart {
    var recs: seq<Record>
    const secStart: array<int>
    const secNrec: array<int>
    var header: seq<Byte>
    var stream: bool
    var typed: Typed
    ghost var index: seq<Section>

    /** The section arrays hold the index. */
    ghost predicate Indexed()
      reads this, secStart, secNrec
    {
      && secStart.Length == secNrec.Length == MAX_SECTIONS + 1 && secStart != secNrec
      && forall s :: 0 <= s <= MAX_SECTIONS ==> secStart[s] == Start(index, s) && secNrec[s] == Nrec(index, s)
    }

    ghost function Value(): Image
      reads this
    {
      Image(recs, index, header, stream, typed)
    }

    /** The decoded fields are those of the records as they are now. */
    ghost predicate Valid()
      reads this, secStart, secNrec
    {
      Indexed() && Load(recs) == Some(Value())
    }

    constructor Blank(recs: seq<Record>)
      ensures this.recs == recs && secStart.Length == secNrec.Length == MAX_SECTIONS + 1 && secStart != secNrec
      ensures fresh(secStart) && fresh(secNrec)
    {
      this.recs := recs;
      secStart := new int[MAX_SECTIONS + 1];
      secNrec := new int[MAX_SECTIONS + 1];
      header, stream, typed, index := [], false, Typed(None, None, None, None), [];
    }

    /** `index_sections`. */
    method FillIndex() returns (ok: bool)
      requires secStart.Length == secNrec.Length == MAX_SECTIONS + 1 && secStart != secNrec
      modifies this`header, this`stream, this`index, secStart, secNrec
      ensures ok == Index(recs).Some?
      ensures ok ==> Indexed() && index == Index(recs).value && header == Header(recs[0])
                     && stream == Contains(Text(header), STREAM)
    {
      hide Contains;
      if |recs| < 1 || !Contains(recs[0], MAGIC) {
        return false;
      }
      header := Header(recs[0]);
      stream := Contains(Text(header), STREAM);
      ClearIndex();
      ok := FillSections();
    }

    method ClearIndex()
      requires secStart.Length == secNrec.Length == MAX_SECTIONS + 1 && secStart != secNrec
      modifies this`index, secStart, secNrec
      ensures Indexed() && index == [Section(0, 1)]
    {
      var s := 0;
      while s <= MAX_SECTIONS
        invariant 0 <= s <= MAX_SECTIONS + 1
        invariant forall t :: 0 <= t < s ==> secStart[t] == -1 && secNrec[t] == 0
      {
        secStart[s], secNrec[s] := -1, 0;
        s := s + 1;
      }
      secStart[1], secNrec[1] := 0, 1;
      index := [Section(0, 1)];
    }

    /** The sections behind the first record, each with as many records as its own header counts. */
    method FillSections() returns (ok: bool)
      requires recs != [] && Indexed() && index == [Section(0, 1)]
      modifies this`index, secStart, secNrec
      ensures Indexed()
      ensures (if ok then Some(index) else None) == Prepend([Section(0, 1)], Sections(recs, 2, 1))
    {
      hide Sections;
      var i, s := 1, 2;
      while s <= MAX_SECTIONS && i < |recs|
        invariant 2 <= s <= MAX_SECTIONS + 1 && 1 <= i <= |recs| && Indexed() && |index| == s - 1
        invariant Prepend([Section(0, 1)], Sections(recs, 2, 1)) == Prepend(index, Sections(recs, s, i))
      {
        SectionsStep(recs, s, i, index);
        if |recs[i]| < 4 {
          return false;
        }
        var count := FromLe32(recs[i]);
        if count == -0x8000_0000 {
          return false;
        }
        var follow := Abs(count);
        if follow > |recs| - i - 1 || i > INT_MAX || follow > INT_MAX - 1 {
          return false;
        }
        secStart[s], secNrec[s] := i, 1 + follow;
        index := index + [Section(i, 1 + follow)];
        i, s := i + 1 + follow, s + 1;
      }
      SectionsEnd(recs, s, i, index);
      ok := i == |recs|;
    }

    /** `decode_typed`: every field that its section has, or failure. */
    method FillTyped() returns (ok: bool)
      requires Indexed()
      modifies this`typed
      ensures ok == Decode(recs, index).Some? && (ok ==> typed == Decode(recs, index).value)
    {
      hide CellOf;
      hide SpeciesOf;
      hide CutOf;
      hide StatesOf;
      hide RecAt;
      hide Start;
      typed := Typed(None, None, None, None);
      if secNrec[2] == 3 {
        var c := CellOf(Rec(2, 1), Rec(2, 2));
        if c.None? {
          return false;
        }
        typed := typed.(cell := c.value);
      }
      if secNrec[3] == 3 {
        var na := SpeciesOf(Rec(3, 1), Rec(3, 2));
        if na.None? {
          return false;
        }
        typed := typed.(na := na.value);
      }
      if secNrec[7] == 2 {
        var c := CutOf(Rec(7, 1));
        if c.None? {
          return false;
        }
        typed := typed.(cut := c.value);
      }
      if secNrec[8] == 2 {
        var st := StatesOf(Rec(8, 1));
        if st.None? {
          return false;
        }
        typed := typed.(states := st.value);
      }
      return true;
    }

    /** `rec_at`. */
    function Rec(s: int, o: nat): (r: Option<Record>)
      requires Indexed() && 0 <= s <= MAX_SECTIONS
      reads this, secStart, secNrec
      ensures r == RecAt(recs, index, s, o)
    {
      if s < 1 || secStart[s] < 0 || secStart[s] + o >= |recs| then None else Some(recs[secStart[s] + o])
    }

    /** `store_triples` on section 4 or 5. */
    method SetTriples(s: int, xyz: seq<Byte>) returns (err: int)
      requires Valid() && 4 <= s <= 5
      modifies this`recs
      ensures Valid() && Value() == Store(old(Value()), s, xyz).0
      ensures err == if Store(old(Value()), s, xyz).1 then 0 else -1
    {
      hide Load;
      hide Index;
      hide Patch;
      ghost var img := Value();
      IndexOfLoaded(img);
      StoreKeeps(img, s, xyz);
      if secNrec[s] < 1 {
        return -1;
      }
      var n := secNrec[s] - 1;
      if n > INT_MAX / 3 || (n > 0 && (secStart[s] < 0 || secStart[s] > INT_MAX - n)) || |xyz| != 24 * n {
        return -1;
      }
      var start := if n > 0 then secStart[s] + 1 else 0;
      SpanInside(recs, s);
      var ok := StoreLoop(start, n, xyz);
      return if ok then 0 else -1;
    }

    /** The loop of `store_triples`. */
    method StoreLoop(start: nat, n: nat, xyz: seq<Byte>) returns (ok: bool)
      requires start + n <= |recs| && |xyz| == 24 * n
      modifies this`recs
      ensures (recs, ok) == Patch(old(recs), start, n, xyz)
    {
      hide Patch;
      var a := 0;
      assert xyz[0..] == xyz;
      while a < n
        invariant 0 <= a <= n && start + n <= |recs| && |xyz[24 * a..]| == 24 * (n - a)
        invariant Patch(old(recs), start, n, xyz) == Patch(recs, start + a, n - a, xyz[24 * a..])
      {
        PatchStep(recs, start, a, n, xyz);
        if |recs[start + a]| != 24 {
          return false;
        }
        recs := recs[start + a := xyz[24 * a..24 * a + 24]];
        a := a + 1;
      }
      PatchEnd(recs, start + a, xyz[24 * a..]);
      return true;
    }

    method SetCoordinates(xyz: seq<Byte>) returns (err: int)
      requires Valid()
      modifies this`recs
      ensures Valid() && Index(old(recs)) == Some(old(index))
      ensures (Value(), err == 0) == Apply(old(Value()), Op.SetCoordinates(xyz))
    {
      err := SetTriples(4, xyz);
    }

    method SetVelocities(xyz: seq<Byte>) returns (err: int)
      requires Valid()
      modifies this`recs
      ensures Valid() && Index(old(recs)) == Some(old(index))
      ensures (Value(), err == 0) == Apply(old(Value()), Op.SetVelocities(xyz))
    {
      err := SetTriples(5, xyz);
    }

    /** `cpmdc_restart_set_cell`. */
    method SetCell(celldm: seq<Byte>) returns (err: int)
      requires Valid() && |celldm| == 48
      modifies this`recs, this`typed
      ensures Valid() && Index(old(recs)) == Some(old(index))
      ensures (Value(), err == 0) == Apply(old(Value()), Op.SetCell(celldm))
    {
      hide Load;
      hide Index;
      ghost var img := Value();
      IndexOfLoaded(img);
      StoreCellKeeps(img, celldm);
      if typed.cell.None? || secNrec[2] != 3 || secStart[2] < 0 || secStart[2] + 2 >= |recs| {
        return -1;
      }
      var at := secStart[2] + 2;
      if |recs[at]| < 48 {
        return -1;
      }
      recs := recs[at := celldm + recs[at][48..]];
      typed := typed.(cell := Some(typed.cell.value.(celldm := celldm)));
      return 0;
    }

    /** One triple copied to its place in the caller's numbers. */
    static method FillTriple(xyz: array<Byte>, a: nat, r: Record)
      requires |r| == 24 && 24 * a + 24 <= xyz.Length
      modifies xyz
      ensures xyz[..24 * (a + 1)] == old(xyz[..24 * a]) + r
    {
      ghost var done := xyz[..24 * a];
      forall b | 0 <= b < 24 {
        xyz[24 * a + b] := r[b];
      }
      assert xyz[..24 * (a + 1)] == done + r;
    }

    /** `copy_triples` into the caller's numbers: it fails when they are not as many as the section has. */
    method GetTriples(s: int, xyz: array<Byte>) returns (err: int)
      requires Valid() && 4 <= s <= 6 && xyz.Length % 8 == 0
      modifies xyz
      ensures Index(recs) == Some(index) && (err == 0 || err == -1)
      ensures err == 0 <==> Triples(Value(), s).Some? && |Triples(Value(), s).value| == xyz.Length
      ensures err == 0 ==> xyz[..] == Triples(Value(), s).value
    {
      hide Load;
      hide Index;
      IndexOfLoaded(Value());
      if secNrec[s] < 1 {
        return -1;
      }
      var n := secNrec[s] - 1;
      if n > INT_MAX / 3 || (n > 0 && (secStart[s] < 0 || secStart[s] > INT_MAX - n)) {
        return -1;
      }
      var start := if n > 0 then secStart[s] + 1 else 0;
      SpanInside(recs, s);
      GatherWhole(recs, start, n);
      if xyz.Length / 8 != n * 3 {
        return -1;
      }
      var a := 0;
      while a < n
        invariant 0 <= a <= n && Gather(recs, start, a) == Some(xyz[..24 * a])
      {
        if |recs[start + a]| != 24 {
          GatherShort(recs, start, n, a);
          return -1;
        }
        FillTriple(xyz, a, recs[start + a]);
        a := a + 1;
      }
      assert xyz[..24 * n] == xyz[..];
      return 0;
    }

    /** `cpmdc_restart_write_mem`, for the subrecord maximum of the file's writer. */
    method Write(max: int) returns (bytes: seq<Byte>)
      requires 0 < max <= INT_MAX
      ensures bytes == Emit(max, recs)
    {
      bytes := WriteRecords(recs, max);
    }
  }

  /** One turn of the store loop. */
  lemma PatchStep(rs: seq<Record>, start: nat, a: nat, n: nat, xyz: seq<Byte>)
    requires a < n && start + n <= |rs| && |xyz| == 24 * n
    ensures |xyz[24 * a..]| == 24 * (n - a) && |xyz[24 * (a + 1)..]| == 24 * (n - a - 1)
    ensures Patch(rs, start + a, n - a, xyz[24 * a..])
         == if |rs[start + a]| != 24 then (rs, false)
            else Patch(rs[start + a := xyz[24 * a..24 * a + 24]], start + a + 1, n - a - 1, xyz[24 * (a + 1)..])
  {
    var t := xyz[24 * a..];
    assert t[..24] == xyz[24 * a..24 * a + 24] && t[24..] == xyz[24 * (a + 1)..];
  }

  lemma PatchEnd(rs: seq<Record>, start: nat, xyz: seq<Byte>)
    requires start <= |rs| && |xyz| == 0
    ensures Patch(rs, start, 0, xyz) == (rs, true)
  {
  }

  lemma GatherShort(rs: seq<Record>, start: nat, n: nat, a: nat)
    requires start + n <= |rs| && a < n && |rs[start + a]| != 24
    ensures Gather(rs, start, n).None?
  {
    GatherWhole(rs, start, n);
  }

  /** `cpmdc_restart_read_mem`. */
  method ReadMem(buf: seq<Byte>) returns (f: Restart?)
    ensures f != null <==> Read(buf).Some?
    ensures f != null ==> fresh(f) && f.Valid() && f.Value() == Read(buf).value
  {
    hide Sections;
    hide Parse;
    hide Decode;
    hide Header;
    hide Contains;
    var rs := ParseRecords(buf);
    if rs.None? {
      return null;
    }
    f := new Restart.Blank(rs.value);
    var ok := f.FillIndex();
    if !ok {
      return null;
    }
    ok := f.FillTyped();
    if !ok {
      return null;
    }
  }
}
