/** The framed form of a message: a table of segment sizes in 32-bit words, padded to eight bytes, and
    the segments behind it.  `capn_write_mem` and `capn_init_mem` without packing. */
module Frame {
  import opened Ints
  import opened SegmentTable
  import opened Options
  import opened Pointers
  import L = LittleEndian

  type Byte = L.Byte

  const MAX_SEGMENTS: nat := 1023

  // ----- the layout

  /** The bytes of a segment. */
  function Raw(ws: seq<Word>): (b: seq<Byte>)
    ensures |b| == 8 * |ws|
  {
    if ws == [] then [] else L.Bytes(ws[0], 8) + Raw(ws[1..])
  }

  function Payload(m: Mem): (b: seq<Byte>)
    ensures |b| == Total(m)
  {
    if m == [] then [] else Raw(m[0].words) + Payload(m[1..])
  }

  /** The bytes that the segments take up. */
  function Total(m: Mem): nat {
    if m == [] then 0 else 8 * |m[0].words| + Total(m[1..])
  }

  function Sizes(m: Mem): (b: seq<Byte>)
    ensures |b| == 4 * |m|
  {
    if m == [] then [] else L.Le32(|m[0].words|) + Sizes(m[1..])
  }

  /** The header's length in 32-bit words, for `k` segments. */
  function HeaderLen(k: nat): nat {
    (2 + k) / 2 * 2
  }

  function Header(m: Mem): (b: seq<Byte>)
    requires m != []
    ensures |b| == 4 * HeaderLen(|m|)
  {
    L.Le32(|m| - 1) + Sizes(m) + if |m| % 2 == 0 then L.Le32(0) else []
  }

  function Framed(m: Mem): (b: seq<Byte>)
    requires m != []
    ensures |b| == 4 * HeaderLen(|m|) + Total(m)
  {
    Header(m) + Payload(m)
  }

  // ----- writing

  /** `capn_root` makes room for the root pointer; it fails when the first segment cannot hold it. */
  function Rooted(m: Mem): Option<Mem> {
    if m == [] || m[0].cap < 1 then None
    else if m[0].words == [] then Some(m[0 := m[0].(words := [0])])
    else Some(m)
  }

  /** What `capn_write_mem` leaves in a buffer of `room` bytes. */
  function Written(m: Mem, room: nat): Option<seq<Byte>> {
    match Rooted(m)
    case None => None
    case Some(r) => if room < |Framed(r)| then None else Some(Framed(r))
  }

  /** A size returned through an `int`. */
  function AsInt(n: nat): int {
    var low := n % TWO32;
    if low > INT_MAX then low - TWO32 else low
  }

  lemma {:induction false} SizesJoin(a: Mem, b: Mem)
    ensures Sizes(a + b) == Sizes(a) + Sizes(b) && Payload(a + b) == Payload(a) + Payload(b)
      && Total(a + b) == Total(a) + Total(b)
  {
    hide Raw;
    hide L.Le32;
    if a == [] {
      assert a + b == b;
    } else {
      assert (a + b)[1..] == a[1..] + b;
      SizesJoin(a[1..], b);
      Joined(L.Le32(|a[0].words|), Sizes(a[1..]), Sizes(b));
      Joined(Raw(a[0].words), Payload(a[1..]), Payload(b));
    }
  }

  lemma SizesNext(m: Mem, i: nat)
    requires i < |m|
    ensures Sizes(m[..i + 1]) == Sizes(m[..i]) + L.Le32(|m[i].words|)
    ensures Payload(m[..i + 1]) == Payload(m[..i]) + Raw(m[i].words)
    ensures Total(m[..i + 1]) == Total(m[..i]) + 8 * |m[i].words| && Total(m[..i + 1]) <= Total(m)
  {
    assert m[..i + 1] == m[..i] + [m[i]];
    SizesJoin(m[..i], [m[i]]);
    assert Sizes([m[i]]) == L.Le32(|m[i].words|) + [] && Payload([m[i]]) == Raw(m[i].words) + [];
    assert m == m[..i + 1] + m[i + 1..];
    SizesJoin(m[..i + 1], m[i + 1..]);
  }

  /** Bytes stored one after another. */
  method Store(p: array<Byte>, at: nat, b: seq<Byte>)
    requires at + |b| <= p.Length
    modifies p
    ensures p[..] == old(p[..at]) + b + old(p[at + |b|..])
  {
    forall i | 0 <= i < |b| {
      p[at + i] := b[i];
    }
  }

  /** The header: the count, the padding first, then the sizes; `sum` is what all of it takes up. */
  method WriteHeader(m: Mem, p: array<Byte>) returns (sum: nat)
    requires m != [] && 4 * HeaderLen(|m|) <= p.Length
    modifies p
    ensures p[..4 * HeaderLen(|m|)] == Header(m) && p[4 * HeaderLen(|m|)..] == old(p[4 * HeaderLen(|m|)..])
    ensures sum == |Framed(m)|
  {
    hide L.Le32;
    hide Sizes;
    hide Total;
    hide HeaderLen;
    HeaderHalves(|m|);
    var len := 4 * HeaderLen(|m|);
    ghost var pad := if |m| % 2 == 0 then L.Le32(0) else [];
    HeaderEnds(|m|, p, len);
    ghost var before := p[..];
    sum := WriteSizes(m, p, 4, len - |pad|);
    HeaderWhole(before, L.Le32(|m| - 1), Sizes(m), pad, len);
    sum := sum + len;
  }

  /** Count and padding. */
  method HeaderEnds(k: nat, p: array<Byte>, len: nat)
    requires k > 0 && 8 <= len <= p.Length
    modifies p
    ensures p[..4] == L.Le32(k - 1) && p[len..] == old(p[len..])
    ensures k % 2 == 0 ==> p[len - 4..len] == L.Le32(0)
  {
    hide L.Le32;
    ghost var was := p[..];
    Store(p, 0, L.Le32(k - 1));
    Store(p, len - 4, L.Le32(0));
    HeaderStart(was, L.Le32(k - 1), L.Le32(0), len, k % 2 == 0);
  }

  /** The sizes of all segments, one after another. */
  method WriteSizes(m: Mem, p: array<Byte>, from: nat, ghost end: nat) returns (sum: nat)
    requires from + 4 * |m| == end <= p.Length
    modifies p
    ensures sum == Total(m) && p[..] == old(p[..from]) + Sizes(m) + old(p[end..])
  {
    hide L.Le32;
    hide Sizes;
    hide Total;
    ghost var was := p[..];
    sum := 0;
    var i := 0;
    NoSizes(m);
    assert p[..] == was[..from] + [] + was[from..];
    while i < |m|
      invariant 0 <= i <= |m| && sum == Total(m[..i]) && |was| == p.Length
      invariant p[..] == was[..from] + Sizes(m[..i]) + was[from + 4 * i..]
    {
      SizesNext(m, i);
      ghost var now := p[..];
      var b := L.Le32(|m[i].words|);
      Store(p, from + 4 * i, b);
      assert now[..from + 4 * i] == was[..from] + Sizes(m[..i]) && now[from + 4 * i + 4..] == was[from + 4 * (i + 1)..];
      Joined(was[..from], Sizes(m[..i]), b);
      sum := sum + 8 * |m[i].words|;
      i := i + 1;
    }
    assert m[..i] == m;
  }

  lemma HeaderWhole(before: seq<Byte>, a: seq<Byte>, s: seq<Byte>, pad: seq<Byte>, len: nat)
    requires |a| == 4 && 4 + |s| + |pad| == len <= |before| && before[..4] == a && before[len - |pad|..len] == pad
    ensures var now := before[..4] + s + before[len - |pad|..];
      now[..len] == a + s + pad && now[len..] == before[len..]
  {
  }

  /** The first two stores: with an odd count they leave no padding. */
  lemma HeaderStart(was: seq<Byte>, a: seq<Byte>, z: seq<Byte>, len: nat, even: bool)
    requires |a| == |z| == 4 && 8 <= len <= |was|
    ensures var one := was[..0] + a + was[4..];
      && |one| == |was|
      && var two := one[..len - 4] + z + one[len..];
      && two[..4] == a && two[len..] == was[len..]
      && (if even then two[len - 4..len] == z else two[len..len] == [])
  {
  }

  lemma NoSizes(m: Mem)
    ensures Sizes(m[..0]) == [] && Total(m[..0]) == 0 && Payload(m[..0]) == []
  {
  }

  method WritePayload(m: Mem, p: array<Byte>, from: nat)
    requires from + Total(m) <= p.Length
    modifies p
    ensures p[..] == old(p[..from]) + Payload(m) + old(p[from + Total(m)..])
  {
    hide Raw;
    hide Payload;
    hide Total;
    var at, i := from, 0;
    ghost var was := p[..];
    NoSizes(m);
    assert p[..] == was[..from] + [] + was[from..];
    while i < |m|
      invariant 0 <= i <= |m| && at == from + Total(m[..i]) && |was| == p.Length && at <= p.Length
      invariant p[..] == was[..from] + Payload(m[..i]) + was[at..]
    {
      SizesNext(m, i);
      var b := Raw(m[i].words);
      ghost var now := p[..];
      Store(p, at, b);
      assert now[..at] == was[..from] + Payload(m[..i]) && now[at + |b|..] == was[at + |b|..];
      at := at + |b|;
      i := i + 1;
    }
    assert m[..i] == m;
  }

  /** `capn_write_mem` without packing. */
  method WriteMem(m: Mem, p: array<Byte>) returns (r: int)
    requires Sized(m)
    modifies p
    ensures Written(m, p.Length).None? ==> r == -1
    ensures Written(m, p.Length).Some? ==>
      var b := Written(m, p.Length).value;
      && r == AsInt(|b|) && |b| <= p.Length && p[..|b|] == b && p[|b|..] == old(p[|b|..])
  {
    hide Header;
    hide Payload;
    hide Total;
    if |m| == 0 {
      return -1;
    }
    var len := 4 * HeaderLen(|m|);
    if p.Length < len || m[0].cap < 1 {
      return -1;
    }
    var root := if m[0].words == [] then m[0 := m[0].(words := [0])] else m;
    ghost var was := p[..];
    var sum := WriteHeader(root, p);
    if p.Length < sum {
      return -1;
    }
    ghost var mid := p[..];
    WritePayload(root, p, len);
    assert mid[..len] == Header(root) && mid[len..] == was[len..];
    assert p[..] == Header(root) + Payload(root) + mid[len + Total(root)..];
    assert mid[len + Total(root)..] == was[sum..];
    return AsInt(sum);
  }

  // ----- reading

  /** The sizes in the table, unless one of them or their sum is out of range. */
  function Table(b: seq<Byte>, k: nat, total: nat): Option<seq<nat>>
    requires |b| >= 4 * k
    decreases k
  {
    if k == 0 then Some([])
    else
      var n := L.Number(b[..4]);
      if n > INT_MAX / 8 || UINT32_MAX - total < 8 * n then None
      else
        match Table(b[4..], k - 1, total + 8 * n)
        case None => None
        case Some(t) => Some([n] + t)
  }

  function SumOf(sizes: seq<nat>): nat {
    if sizes == [] then 0 else 8 * sizes[0] + SumOf(sizes[1..])
  }

  function WordsOf(b: seq<Byte>, n: nat): (ws: seq<Word>)
    requires |b| >= 8 * n
    ensures |ws| == n
  {
    if n == 0 then []
    else
      L.BytesOfNumber(b[..8]);
      L.Powers();
      [L.Number(b[..8])] + WordsOf(b[8..], n - 1)
  }

  /** Full segments of the given sizes, cut from the bytes. */
  function Cut(b: seq<Byte>, sizes: seq<nat>): (m: Mem)
    requires |b| >= SumOf(sizes)
    ensures |m| == |sizes|
    decreases |sizes|
  {
    if sizes == [] then [] else [Seg(WordsOf(b, sizes[0]), sizes[0])] + Cut(b[8 * sizes[0]..], sizes[1..])
  }

  /** What `capn_init_mem` rebuilds from bytes. */
  function Read(b: seq<Byte>): Option<Mem> {
    if |b| < 4 || L.Number(b[..4]) > MAX_SEGMENTS then None
    else
      var k := L.Number(b[..4]) + 1;
      var rest := b[4..];
      var table := 8 * (k / 2) + 4;
      if |rest| < table then None
      else
        match Table(rest, k, 0)
        case None => None
        case Some(sizes) => if |rest| - table < SumOf(sizes) then None else Some(Cut(rest[table..], sizes))
  }

  // ----- the round trip

  /** The segments as the reader makes them: without room to grow. */
  function Full(m: Mem): (f: Mem)
    ensures |f| == |m| && forall i :: 0 <= i < |m| ==> f[i] == Seg(m[i].words, |m[i].words|)
  {
    seq(|m|, i requires 0 <= i < |m| => Seg(m[i].words, |m[i].words|))
  }

  function LenOf(m: Mem): seq<nat> {
    if m == [] then [] else [|m[0].words|] + LenOf(m[1..])
  }

  lemma {:induction false} WordsOfRaw(ws: seq<Word>, tail: seq<Byte>)
    ensures WordsOf(Raw(ws) + tail, |ws|) == ws && (Raw(ws) + tail)[8 * |ws|..] == tail
  {
    hide L.Bytes;
    hide L.Number;
    hide L.Pow256;
    if ws != [] {
      L.Powers();
      L.NumberOfBytes(ws[0], 8);
      var b := Raw(ws) + tail;
      Joined(L.Bytes(ws[0], 8), Raw(ws[1..]), tail);
      assert b[..8] == L.Bytes(ws[0], 8) && b[8..] == Raw(ws[1..]) + tail;
      WordsOfRaw(ws[1..], tail);
      assert b[8 * |ws|..] == b[8..][8 * |ws[1..]|..];
      assert [ws[0]] + ws[1..] == ws;
    }
  }

  lemma Joined(a: seq<Byte>, b: seq<Byte>, c: seq<Byte>)
    ensures a + b + c == a + (b + c)
  {
  }

  lemma FullCons(m: Mem)
    requires m != []
    ensures Full(m) == [Seg(m[0].words, |m[0].words|)] + Full(m[1..])
  {
  }

  lemma CutCons(b: seq<Byte>, sizes: seq<nat>)
    requires sizes != [] && |b| >= SumOf(sizes)
    ensures |b| >= 8 * sizes[0] + SumOf(sizes[1..])
    ensures Cut(b, sizes) == [Seg(WordsOf(b, sizes[0]), sizes[0])] + Cut(b[8 * sizes[0]..], sizes[1..])
  {
    hide WordsOf;
  }

  lemma {:induction false} CutPayload(m: Mem, tail: seq<Byte>)
    ensures SumOf(LenOf(m)) == Total(m) && Cut(Payload(m) + tail, LenOf(m)) == Full(m)
    decreases |m|
  {
    hide Raw;
    hide WordsOf;
    hide Cut;
    if m == [] {
      CutNothing(tail);
    } else {
      CutPayload(m[1..], tail);
      var raw, rest := Raw(m[0].words), Payload(m[1..]) + tail;
      Joined(raw, Payload(m[1..]), tail);
      WordsOfRaw(m[0].words, rest);
      assert LenOf(m)[1..] == LenOf(m[1..]);
      CutCons(raw + rest, LenOf(m));
      FullCons(m);
    }
  }

  lemma CutNothing(tail: seq<Byte>)
    ensures Cut(Payload([]) + tail, LenOf([])) == Full([])
  {
  }

  lemma {:induction false} TableOfSizes(m: Mem, tail: seq<Byte>, total: nat)
    requires Sized(m) && total + Total(m) <= UINT32_MAX
    ensures Table(Sizes(m) + tail, |m|, total) == Some(LenOf(m))
    decreases |m|
  {
    hide L.Le32;
    hide L.Number;
    if m != [] {
      var b, n := Sizes(m) + tail, |m[0].words|;
      CountBack(n);
      Joined(L.Le32(n), Sizes(m[1..]), tail);
      assert b[..4] == L.Le32(n) && b[4..] == Sizes(m[1..]) + tail;
      assert 8 * n <= 8 * m[0].cap <= INT_MAX;
      TableOfSizes(m[1..], tail, total + 8 * n);
    }
  }

  /** The header's two lengths: as it is written, and as the reader takes it. */
  lemma HeaderHalves(k: nat)
    requires k > 0
    ensures 4 + (8 * (k / 2) + 4) == 4 * HeaderLen(k) == 4 + 4 * k + (if k % 2 == 0 then 4 else 0)
  {
  }

  lemma HeaderParts(m: Mem, tail: seq<Byte>)
    requires m != []
    ensures var b, k := Header(m) + tail, |m|;
      && 4 + (8 * (k / 2) + 4) == 4 * HeaderLen(k)
      && b[..4] == L.Le32(k - 1) && b[4..] == Sizes(m) + ((if k % 2 == 0 then L.Le32(0) else []) + tail)
      && b[4..][8 * (k / 2) + 4..] == tail
  {
    hide L.Le32;
    hide Sizes;
    hide HeaderLen;
    HeaderHalves(|m|);
    Behind(L.Le32(|m| - 1), Sizes(m), if |m| % 2 == 0 then L.Le32(0) else [], tail);
  }

  lemma Behind(a: seq<Byte>, s: seq<Byte>, p: seq<Byte>, t: seq<Byte>)
    ensures (a + s + p + t)[..|a|] == a && (a + s + p + t)[|a|..] == s + (p + t)
    ensures (a + s + p + t)[|a|..][|s| + |p|..] == t
  {
  }

  /** Reading what was written gives the same segments byte for byte, whatever stands behind it in the
      buffer; the size written is the header and the data. */
  lemma ReadFramed(m: Mem, tail: seq<Byte>)
    requires 1 <= |m| <= MAX_SEGMENTS && Sized(m) && Total(m) <= UINT32_MAX
    ensures Read(Framed(m) + tail) == Some(Full(m))
    ensures |Framed(m)| == 4 * HeaderLen(|m|) + Total(m)
  {
    hide Table;
    hide Cut;
    hide L.Le32;
    hide Header;
    hide HeaderLen;
    hide Payload;
    hide Sizes;
    hide Total;
    hide Full;
    hide LenOf;
    hide L.Number;
    var b := Framed(m) + tail;
    Joined(Header(m), Payload(m), tail);
    HeaderParts(m, Payload(m) + tail);
    CountBack(|m| - 1);
    TableOfSizes(m, (if |m| % 2 == 0 then L.Le32(0) else []) + (Payload(m) + tail), 0);
    CutPayload(m, tail);
  }

  lemma CountBack(n: nat)
    requires n < TWO32
    ensures L.Number(L.Le32(n)) == n
  {
    L.Powers();
    L.NumberOfBytes(n, 4);
  }

  /** The whole way: a message that `capn_write_mem` accepts is rebuilt from its buffer. */
  lemma ReadWritten(m: Mem, room: nat, tail: seq<Byte>)
    requires |m| <= MAX_SEGMENTS && Sized(m) && Written(m, room).Some? && Total(Rooted(m).value) <= UINT32_MAX
    ensures Read(Written(m, room).value + tail) == Some(Full(Rooted(m).value))
  {
    var r := Rooted(m).value;
    assert forall i :: 0 < i < |m| ==> r[i] == m[i];
    assert Sized(r);
    ReadFramed(r, tail);
  }

  // ----- writing again what was read

  lemma {:induction false} RawOfWords(b: seq<Byte>, n: nat)
    requires |b| >= 8 * n
    ensures Raw(WordsOf(b, n)) == b[..8 * n]
    decreases n
  {
    if n > 0 {
      L.BytesOfNumber(b[..8]);
      RawOfWords(b[8..], n - 1);
      assert WordsOf(b, n)[1..] == WordsOf(b[8..], n - 1);
      assert b[..8 * n] == b[..8] + b[8..][..8 * (n - 1)];
    }
  }

  lemma {:induction false} PayloadOfCut(b: seq<Byte>, sizes: seq<nat>)
    requires |b| >= SumOf(sizes)
    ensures Payload(Cut(b, sizes)) == b[..SumOf(sizes)] && LenOf(Cut(b, sizes)) == sizes
      && Total(Cut(b, sizes)) == SumOf(sizes)
    decreases |sizes|
  {
    hide Raw;
    hide WordsOf;
    if sizes != [] {
      var n := sizes[0];
      CutCons(b, sizes);
      RawOfWords(b, n);
      PayloadOfCut(b[8 * n..], sizes[1..]);
      CutTail(b, sizes);
      Prefixes(b, 8 * n, SumOf(sizes[1..]));
      assert [n] + sizes[1..] == sizes;
    }
  }

  lemma CutTail(b: seq<Byte>, sizes: seq<nat>)
    requires sizes != [] && |b| >= SumOf(sizes)
    ensures Cut(b, sizes)[0] == Seg(WordsOf(b, sizes[0]), sizes[0])
      && Cut(b, sizes)[1..] == Cut(b[8 * sizes[0]..], sizes[1..])
  {
    hide WordsOf;
    CutCons(b, sizes);
  }

  lemma Prefixes(b: seq<Byte>, n: nat, k: nat)
    requires n + k <= |b|
    ensures b[..n + k] == b[..n] + b[n..][..k]
  {
  }

  lemma {:induction false} SizesOfTable(b: seq<Byte>, m: Mem, total: nat)
    requires |b| >= 4 * |m| && Table(b, |m|, total) == Some(LenOf(m))
    ensures Sizes(m) == b[..4 * |m|]
    decreases |m|
  {
    if m != [] {
      L.BytesOfNumber(b[..4]);
      assert LenOf(m)[0] == |m[0].words| && LenOf(m)[1..] == LenOf(m[1..]);
      var n := L.Number(b[..4]);
      var t := Table(b[4..], |m| - 1, total + 8 * n).value;
      assert ([n] + t)[0] == n && ([n] + t)[1..] == t;
      SizesOfTable(b[4..], m[1..], total + 8 * n);
      assert b[..4 * |m|] == b[..4] + b[4..][..4 * (|m| - 1)];
    }
  }

  /** The padding word of an accepted message with an even number of segments. */
  function Padding(b: seq<Byte>, k: nat): seq<Byte>
    requires |b| >= 4 * HeaderLen(k)
  {
    b[4 + 4 * k..4 * HeaderLen(k)]
  }

  /** Framing again what was read gives the bytes it was read from, exactly when the padding was zero. */
  lemma FramedRead(b: seq<Byte>)
    requires Read(b).Some?
    ensures var m := Read(b).value;
      && m != [] && |b| >= |Framed(m)|
      && (Framed(m) == b[..|Framed(m)|] <==> forall x :: x in Padding(b, |m|) ==> x == 0)
  {
    hide Sizes;
    hide Payload;
    hide Cut;
    hide Table;
    hide L.Le32;
    hide L.Number;
    hide L.Bytes;
    hide HeaderLen;
    var m := Read(b).value;
    var k, rest := L.Number(b[..4]) + 1, b[4..];
    var table := 8 * (k / 2) + 4;
    var sizes := Table(rest, k, 0).value;
    TableLength(rest, k, 0);
    PayloadOfCut(rest[table..], sizes);
    SizesOfTable(rest, m, 0);
    CountForth(b);
    HeaderHalves(k);
    var len := 4 * HeaderLen(k);
    var pad := if k % 2 == 0 then L.Le32(0) else [];
    assert b[..len + Total(m)] == L.Le32(k - 1) + Sizes(m) + Padding(b, k) + Payload(m);
    Zeros4(Padding(b, k));
    Middle(L.Le32(k - 1) + Sizes(m), pad, Padding(b, k), Payload(m));
    Framing(m, pad);
  }

  lemma CountForth(b: seq<Byte>)
    requires |b| >= 4
    ensures L.Le32(L.Number(b[..4])) == b[..4]
  {
    L.BytesOfNumber(b[..4]);
  }

  lemma Framing(m: Mem, pad: seq<Byte>)
    requires m != [] && pad == if |m| % 2 == 0 then L.Le32(0) else []
    ensures Framed(m) == L.Le32(|m| - 1) + Sizes(m) + pad + Payload(m)
  {
  }

  lemma Middle(a: seq<Byte>, p: seq<Byte>, q: seq<Byte>, c: seq<Byte>)
    requires |p| == |q|
    ensures a + p + c == a + q + c <==> p == q
  {
    assert (a + p + c)[|a|..|a| + |p|] == p && (a + q + c)[|a|..|a| + |q|] == q;
  }

  lemma Zeros4(p: seq<Byte>)
    requires |p| == 4 || p == []
    ensures (forall x :: x in p ==> x == 0) <==> (p == L.Le32(0) || p == [])
  {
    if |p| == 4 {
      assert L.Le32(0) == [0, 0, 0, 0] by {
        assert L.Bytes(0, 4) == [0] + L.Bytes(0, 3) && L.Bytes(0, 3) == [0] + L.Bytes(0, 2)
          && L.Bytes(0, 2) == [0] + L.Bytes(0, 1);
      }
      assert forall i :: 0 <= i < 4 ==> p[i] in p;
    }
  }

  lemma {:induction false} TableLength(b: seq<Byte>, k: nat, total: nat)
    requires |b| >= 4 * k && Table(b, k, total).Some?
    ensures |Table(b, k, total).value| == k
    decreases k
  {
    if k > 0 {
      TableLength(b[4..], k - 1, total + 8 * L.Number(b[..4]));
    }
  }

  // ----- the reader

  /** The table loop: sizes in bytes and their sum, in 32 bits. */
  method ReadTable(b: seq<Byte>, k: nat) returns (ok: bool, sizes: seq<nat>, total: nat)
    requires |b| >= 4 * k
    ensures ok <==> Table(b, k, 0).Some?
    ensures ok ==> sizes == Table(b, k, 0).value && total == SumOf(sizes) <= UINT32_MAX
  {
    hide L.Number;
    sizes, total, ok := [], 0, false;
    var i := 0;
    assert b[0..] == b;
    PrependNone(Table(b, k, 0));
    while i < k
      invariant 0 <= i <= k && |sizes| == i && total == SumOf(sizes) <= UINT32_MAX
      invariant Table(b, k, 0) == Prepend(sizes, Table(b[4 * i..], k - i, total))
    {
      TableStep(b, k, i, sizes, total);
      var n := L.Number(b[4 * i..4 * i + 4]);
      if n > INT_MAX / 8 || UINT32_MAX - total < 8 * n {
        return;
      }
      SumSnoc(sizes, n);
      sizes := sizes + [n];
      total := total + 8 * n;
      i := i + 1;
    }
    assert sizes + [] == sizes;
    ok := true;
  }

  lemma PrependNone(o: Option<seq<nat>>)
    ensures Prepend([], o) == o
  {
    if o.Some? {
      assert [] + o.value == o.value;
    }
  }

  lemma TableStep(b: seq<Byte>, k: nat, i: nat, sizes: seq<nat>, total: nat)
    requires |b| >= 4 * k && i < k
    ensures var n := L.Number(b[4 * i..4 * i + 4]);
      Prepend(sizes, Table(b[4 * i..], k - i, total)) ==
      if n > INT_MAX / 8 || UINT32_MAX - total < 8 * n then None
      else Prepend(sizes + [n], Table(b[4 * (i + 1)..], k - i - 1, total + 8 * n))
  {
    hide L.Number;
    assert b[4 * i..][..4] == b[4 * i..4 * i + 4] && b[4 * i..][4..] == b[4 * (i + 1)..];
    var n := L.Number(b[4 * i..4 * i + 4]);
    var rest := Table(b[4 * (i + 1)..], k - i - 1, total + 8 * n);
    if rest.Some? {
      assert sizes + ([n] + rest.value) == sizes + [n] + rest.value;
    }
  }

  lemma {:induction false} SumSnoc(sizes: seq<nat>, n: nat)
    ensures SumOf(sizes + [n]) == SumOf(sizes) + 8 * n
  {
    if sizes == [] {
      assert sizes + [n] == [n];
    } else {
      assert (sizes + [n])[1..] == sizes[1..] + [n];
      SumSnoc(sizes[1..], n);
    }
  }

  /** The reader's table of 1024 words holds what is read into it, padding included, exactly for fewer than
      1024 segments. */
  lemma TableFits(k: nat)
    requires 1 <= k <= MAX_SEGMENTS + 1
    ensures 8 * (k / 2) + 4 <= 4 * 1024 <==> k <= MAX_SEGMENTS
  {
  }

  /** `capn_init_mem` without packing. */
  method InitMem(b: seq<Byte>) returns (r: Option<Mem>)
    ensures r == Read(b)
  {
    hide Cut;
    hide Table;
    hide SumOf;
    if |b| < 4 {
      return None;
    }
    var raw := L.Number(b[..4]);
    if raw > MAX_SEGMENTS {
      return None;
    }
    var k, rest := raw + 1, b[4..];
    var table := 8 * (k / 2) + 4;
    if |rest| < table {
      return None;
    }
    var ok, sizes, total := ReadTable(rest, k);
    if !ok || |rest| - table < total {
      return None;
    }
    var m := CutSegments(rest[table..], sizes);
    return Some(m);
  }

  /** The segment loop: each one's words, its capacity its length. */
  method CutSegments(b: seq<Byte>, sizes: seq<nat>) returns (m: Mem)
    requires |b| >= SumOf(sizes)
    ensures m == Cut(b, sizes)
  {
    hide WordsOf;
    m := [];
    var at, i := 0, 0;
    assert sizes[0..] == sizes && b[0..] == b;
    while i < |sizes|
      invariant 0 <= i <= |sizes| && 0 <= at && at + SumOf(sizes[i..]) <= |b|
      invariant Cut(b, sizes) == m + Cut(b[at..], sizes[i..])
    {
      assert sizes[i..][1..] == sizes[i + 1..] && b[at..][8 * sizes[i]..] == b[at + 8 * sizes[i]..];
      var s := Seg(WordsOf(b[at..], sizes[i]), sizes[i]);
      assert m + ([s] + Cut(b[at + 8 * sizes[i]..], sizes[i + 1..]))
          == m + [s] + Cut(b[at + 8 * sizes[i]..], sizes[i + 1..]);
      m := m + [s];
      at := at + 8 * sizes[i];
      i := i + 1;
    }
    assert m + [] == m;
  }
}
