/** The framed form in absolute positions: where a reader finds the count, the sizes and the words. */
module FrameLaws {
  import opened Options
  import opened SegmentTable
  import opened Pointers
  import L = LittleEndian
  import Frame

  type Byte = L.Byte

  /** The 32-bit number at a position, its lowest byte first. */
  function NumAt(b: seq<Byte>, i: nat): nat
    requires i + 4 <= |b|
  {
    var b0: int, b1: int, b2: int, b3: int := b[i], b[i + 1], b[i + 2], b[i + 3];
    b0 + 256 * b1 + 65_536 * b2 + 16_777_216 * b3
  }

  /** The 64-bit word at a position. */
  function WordIn(b: seq<Byte>, i: nat): int
    requires i + 8 <= |b|
  {
    NumAt(b, i) + 4_294_967_296 * NumAt(b, i + 4)
  }

  /** The words of the first `i` segments, as the table says. */
  function WordsBefore(b: seq<Byte>, i: nat): nat
    requires 4 + 4 * i <= |b|
  {
    if i == 0 then 0 else WordsBefore(b, i - 1) + NumAt(b, 4 * i)
  }

  /** The bytes of count, sizes and padding. */
  function Head(k: nat): nat {
    if k % 2 == 0 then 4 * k + 8 else 4 * k + 4
  }

  /** The table for `k` segments is there, no segment is of 2^31 bytes or more, and all together are of less
      than 2^32. */
  predicate SizesOk(b: seq<Byte>, k: nat) {
    && Head(k) <= |b| && 8 * WordsBefore(b, k) < 4_294_967_296
    && forall i :: 0 <= i < k ==> NumAt(b, 4 + 4 * i) <= 268_435_455
  }

  lemma NumberIs(b: seq<Byte>, i: nat)
    ensures i + 4 <= |b| ==> L.Number(b[i..i + 4]) == NumAt(b, i)
    ensures i + 8 <= |b| ==> L.Number(b[i..i + 8]) == WordIn(b, i)
  {
    if i + 4 <= |b| {
      FourMore(b[i..i + 4]);
    }
    if i + 8 <= |b| {
      var w := b[i..i + 8];
      FourMore(w);
      FourMore(w[4..]);
      assert NumAt(w, 0) == NumAt(b, i) && NumAt(w[4..], 0) == NumAt(b, i + 4);
    }
  }

  lemma FourMore(b: seq<Byte>)
    requires |b| >= 4
    ensures L.Number(b) == NumAt(b, 0) + 4_294_967_296 * L.Number(b[4..])
  {
    assert b[1..][1..] == b[2..] && b[2..][1..] == b[3..] && b[3..][1..] == b[4..];
    assert L.Number(b[3..]) == b[3] as int + 256 * L.Number(b[4..]);
    assert L.Number(b[2..]) == b[2] as int + 256 * L.Number(b[3..]);
    assert L.Number(b[1..]) == b[1] as int + 256 * L.Number(b[2..]);
  }

  lemma {:induction false} MoreBefore(b: seq<Byte>, i: nat, k: nat)
    requires i <= k && 4 + 4 * k <= |b|
    ensures WordsBefore(b, i) <= WordsBefore(b, k)
    decreases k
  {
    if i < k {
      MoreBefore(b, i, k - 1);
    }
  }

  lemma TableOpens(b: seq<Byte>, k: nat, total: nat)
    requires k > 0 && |b| >= 4 * k
    ensures var n := L.Number(b[..4]);
      Frame.Table(b, k, total) ==
      if n > 268_435_455 || total + 8 * n > 4_294_967_295 then None
      else match Frame.Table(b[4..], k - 1, total + 8 * n)
           case None => None
           case Some(t) => Some([n] + t)
  {
  }

  /** What the table from size `i` on should be. */
  ghost predicate TableOk(b: seq<Byte>, i: nat, k: nat, t: Option<seq<nat>>)
    requires i <= k && 4 + 4 * k <= |b|
  {
    && (t.Some? <==> 8 * WordsBefore(b, k) < 4_294_967_296 && InRange(b, i, k))
    && (t.Some? ==> |t.value| == k - i && forall j :: i <= j < k ==> t.value[j - i] == NumAt(b, 4 + 4 * j))
  }

  predicate InRange(b: seq<Byte>, i: nat, k: nat)
    requires i <= k && 4 + 4 * k <= |b|
  {
    forall j :: i <= j < k ==> NumAt(b, 4 + 4 * j) <= 268_435_455
  }

  lemma {:induction false} TableIs(b: seq<Byte>, i: nat, k: nat)
    requires i <= k && 4 + 4 * k <= |b| && 8 * WordsBefore(b, i) < 4_294_967_296
    ensures TableOk(b, i, k, Frame.Table(b[4 + 4 * i..], k - i, 8 * WordsBefore(b, i)))
    decreases k - i
  {
    hide TableOk;
    hide InRange;
    hide NumAt;
    hide L.Number;
    hide Frame.Table;
    if i < k {
      var rest, n := b[4 + 4 * i..], NumAt(b, 4 + 4 * i);
      NumberIs(b, 4 + 4 * i);
      assert rest[..4] == b[4 + 4 * i..4 + 4 * i + 4];
      TableOpens(rest, k - i, 8 * WordsBefore(b, i));
      assert WordsBefore(b, i + 1) == WordsBefore(b, i) + n;
      if n <= 268_435_455 && 8 * WordsBefore(b, i + 1) < 4_294_967_296 {
        assert rest[4..] == b[4 + 4 * (i + 1)..];
        TableIs(b, i + 1, k);
        TableJoin(b, i, k, Frame.Table(rest[4..], k - i - 1, 8 * WordsBefore(b, i + 1)));
      } else {
        MoreBefore(b, i + 1, k);
        TableStops(b, i, k);
      }
    } else {
      TableEnds(b, k);
    }
  }

  lemma TableEnds(b: seq<Byte>, k: nat)
    requires 4 + 4 * k <= |b| && 8 * WordsBefore(b, k) < 4_294_967_296
    ensures TableOk(b, k, k, Frame.Table(b[4 + 4 * k..], 0, 8 * WordsBefore(b, k)))
  {
  }

  lemma TableStops(b: seq<Byte>, i: nat, k: nat)
    requires i < k && 4 + 4 * k <= |b|
    requires NumAt(b, 4 + 4 * i) > 268_435_455 || 8 * WordsBefore(b, k) >= 4_294_967_296
    ensures TableOk(b, i, k, None)
  {
    hide NumAt;
    hide WordsBefore;
    assert InRange(b, i, k) ==> NumAt(b, 4 + 4 * i) <= 268_435_455;
  }

  lemma TableJoin(b: seq<Byte>, i: nat, k: nat, t: Option<seq<nat>>)
    requires i < k && 4 + 4 * k <= |b| && NumAt(b, 4 + 4 * i) <= 268_435_455 && TableOk(b, i + 1, k, t)
    ensures TableOk(b, i, k, if t.None? then None else Some([NumAt(b, 4 + 4 * i)] + t.value))
  {
    hide NumAt;
    hide WordsBefore;
    assert InRange(b, i, k) <==> InRange(b, i + 1, k) by {
      if InRange(b, i + 1, k) {
        forall j | i <= j < k
          ensures NumAt(b, 4 + 4 * j) <= 268_435_455
        {
        }
      }
    }
  }

  lemma {:induction false} WordsAre(b: seq<Byte>, at: nat, n: nat)
    requires at + 8 * n <= |b|
    ensures forall j :: 0 <= j < n ==> Frame.WordsOf(b[at..], n)[j] == WordIn(b, at + 8 * j)
    decreases n
  {
    hide WordIn;
    hide L.Number;
    if n > 0 {
      NumberIs(b, at);
      assert b[at..][..8] == b[at..at + 8] && b[at..][8..] == b[at + 8..];
      WordsAre(b, at + 8, n - 1);
      forall j | 0 < j < n
        ensures Frame.WordsOf(b[at..], n)[j] == WordIn(b, at + 8 * j)
      {
        assert Frame.WordsOf(b[at + 8..], n - 1)[j - 1] == WordIn(b, at + 8 + 8 * (j - 1));
      }
    }
  }

  /** Segment `i` of the message: its words stand behind the table and the segments before it. */
  ghost predicate SegmentAt(b: seq<Byte>, k: nat, i: nat, g: Seg)
    requires SizesOk(b, k) && i < k
  {
    && |g.words| == g.cap == NumAt(b, 4 + 4 * i) && Head(k) + 8 * WordsBefore(b, i + 1) <= |b|
    && forall j :: 0 <= j < |g.words| ==> g.words[j] == WordIn(b, Head(k) + 8 * WordsBefore(b, i) + 8 * j)
  }

  lemma SegmentIs(b: seq<Byte>, k: nat, i: nat)
    requires SizesOk(b, k) && i < k && Head(k) + 8 * WordsBefore(b, i + 1) <= |b|
    ensures WordsBefore(b, i + 1) == WordsBefore(b, i) + NumAt(b, 4 + 4 * i)
    ensures var at, n := Head(k) + 8 * WordsBefore(b, i), NumAt(b, 4 + 4 * i);
      SegmentAt(b, k, i, Seg(Frame.WordsOf(b[at..], n), n))
  {
    hide NumAt;
    hide WordIn;
    var at, n := Head(k) + 8 * WordsBefore(b, i), NumAt(b, 4 + 4 * i);
    assert WordsBefore(b, i + 1) == WordsBefore(b, i) + n;
    WordsAre(b, at, n);
  }

  /** The segments are those that are cut one after the other. */
  ghost predicate CutFrom(b: seq<Byte>, k: nat, i: nat, m: Mem)
    requires SizesOk(b, k) && i <= k
  {
    |m| == k - i && forall j :: 0 <= j < |m| ==> SegmentAt(b, k, i + j, m[j])
  }

  lemma {:induction false} SegmentsAre(b: seq<Byte>, k: nat, i: nat, sizes: seq<nat>)
    requires SizesOk(b, k) && i <= k && |sizes| == k - i && Head(k) + 8 * WordsBefore(b, k) <= |b|
    requires forall j :: i <= j < k ==> sizes[j - i] == NumAt(b, 4 + 4 * j)
    requires Head(k) + 8 * WordsBefore(b, i) + Frame.SumOf(sizes) <= |b|
    ensures CutFrom(b, k, i, Frame.Cut(b[Head(k) + 8 * WordsBefore(b, i)..], sizes))
    decreases k - i
  {
    hide SegmentAt;
    hide SizesOk;
    hide NumAt;
    hide Frame.WordsOf;
    if i < k {
      var at, n := Head(k) + 8 * WordsBefore(b, i), sizes[0];
      MoreBefore(b, i + 1, k);
      SegmentIs(b, k, i);
      assert at + 8 * n == Head(k) + 8 * WordsBefore(b, i + 1);
      SegmentsAre(b, k, i + 1, sizes[1..]);
      var rest := Frame.Cut(b[at + 8 * n..], sizes[1..]);
      assert b[at..][8 * n..] == b[at + 8 * n..];
      var m := Frame.Cut(b[at..], sizes);
      assert m == [Seg(Frame.WordsOf(b[at..], n), n)] + rest;
      forall j | 0 <= j < |m|
        ensures SegmentAt(b, k, i + j, m[j])
      {
        if j > 0 {
          assert SegmentAt(b, k, i + 1 + (j - 1), rest[j - 1]);
        }
      }
    }
  }

  lemma {:induction false} SumsAre(b: seq<Byte>, k: nat, i: nat, sizes: seq<nat>)
    requires i <= k && 4 + 4 * k <= |b| && |sizes| == k - i
    requires forall j :: i <= j < k ==> sizes[j - i] == NumAt(b, 4 + 4 * j)
    ensures 8 * WordsBefore(b, i) + Frame.SumOf(sizes) == 8 * WordsBefore(b, k)
    decreases k - i
  {
    hide NumAt;
    if i < k {
      assert WordsBefore(b, i + 1) == WordsBefore(b, i) + sizes[0];
      SumsAre(b, k, i + 1, sizes[1..]);
    }
  }

  /** The count and the sizes are as a reader accepts them, and all words are there. */
  predicate Complete(b: seq<Byte>) {
    && |b| >= 4 && NumAt(b, 0) <= 1023
    && var k := NumAt(b, 0) + 1;
    SizesOk(b, k) && Head(k) + 8 * WordsBefore(b, k) <= |b|
  }

  /** Bytes are read exactly when their count, one less than the segments, is at most 1023, the sizes are in range, and
      all words are there; bytes behind them are ignored, and so is the padding.  Every segment has its own words, the
      lowest byte first. */
  lemma ReadsWhen(b: seq<Byte>)
    ensures Frame.Read(b).Some? <==> Complete(b)
    ensures Complete(b) ==> CutFrom(b, NumAt(b, 0) + 1, 0, Frame.Read(b).value)
  {
    hide NumAt;
    hide CutFrom;
    hide Frame.Cut;
    hide WordsBefore;
    hide SizesOk;
    hide Frame.Table;
    hide Frame.SumOf;
    if |b| >= 4 {
      NumberIs(b, 0);
      assert b[0..4] == b[..4];
      hide L.Number;
      var k := NumAt(b, 0) + 1;
      if k <= 1024 && Head(k) <= |b| {
        TableReads(b, k);
        assert b[4..][8 * (k / 2) + 4..] == b[Head(k)..];
      } else if k <= 1024 {
        NoRoom(b, k);
      }
    }
  }

  lemma NoRoom(b: seq<Byte>, k: nat)
    requires Head(k) > |b|
    ensures !SizesOk(b, k)
  {
  }

  /** The table and the segments behind it. */
  lemma TableReads(b: seq<Byte>, k: nat)
    requires 1 <= k <= 1024 && Head(k) <= |b|
    ensures var t := Frame.Table(b[4..], k, 0);
      && (t.Some? <==> SizesOk(b, k))
      && (t.Some? ==>
            && Frame.SumOf(t.value) == 8 * WordsBefore(b, k)
            && (Head(k) + 8 * WordsBefore(b, k) <= |b| ==> CutFrom(b, k, 0, Frame.Cut(b[Head(k)..], t.value))))
  {
    hide NumAt;
    hide CutFrom;
    hide Frame.Cut;
    hide WordsBefore;
    hide Frame.Table;
    NoneBefore(b);
    TableIs(b, 0, k);
    assert b[4..] == b[4 + 4 * 0..];
    var t := Frame.Table(b[4..], k, 0);
    if t.Some? {
      SumsAre(b, k, 0, t.value);
      if Head(k) + 8 * WordsBefore(b, k) <= |b| {
        SegmentsAre(b, k, 0, t.value);
      }
    }
  }

  lemma NoneBefore(b: seq<Byte>)
    requires |b| >= 4
    ensures WordsBefore(b, 0) == 0
  {
  }

  lemma {:induction false} TotalsAre(b: seq<Byte>, m: Mem, i: nat)
    requires i <= |m| && 4 + 4 * |m| <= |b|
    requires forall j :: i <= j < |m| ==> |m[j].words| == NumAt(b, 4 + 4 * j)
    ensures 8 * WordsBefore(b, i) + Frame.Total(m[i..]) == 8 * WordsBefore(b, |m|)
    decreases |m| - i
  {
    hide NumAt;
    if i < |m| {
      assert m[i..][1..] == m[i + 1..];
      assert WordsBefore(b, i + 1) == WordsBefore(b, i) + |m[i].words|;
      TotalsAre(b, m, i + 1);
    }
  }

  lemma PaddingIs(m: Mem)
    requires m != []
    ensures |Frame.Framed(m)| == Head(|m|) + Frame.Total(m)
    ensures |m| % 2 == 0 ==> NumAt(Frame.Framed(m), Head(|m|) - 4) == 0
  {
    hide L.Number;
    hide L.Bytes;
    hide L.Le32;
    hide Frame.Sizes;
    hide Frame.Payload;
    hide Frame.Total;
    var count, sizes := L.Le32(|m| - 1), Frame.Sizes(m);
    if |m| % 2 == 0 {
      L.FourBytes(0);
      ZeroAt(count + sizes, Frame.Payload(m));
      assert Frame.Framed(m) == count + sizes + [0, 0, 0, 0] + Frame.Payload(m);
    }
  }

  lemma ZeroAt(a: seq<Byte>, z: seq<Byte>)
    ensures NumAt(a + [0, 0, 0, 0] + z, |a|) == 0
  {
  }

  lemma CutSize(b: seq<Byte>, k: nat, m: Mem)
    requires SizesOk(b, k) && CutFrom(b, k, 0, m)
    ensures |m| == k
  {
  }

  lemma SizesRoom(b: seq<Byte>, k: nat)
    requires SizesOk(b, k)
    ensures 4 + 4 * k <= |b|
  {
  }

  lemma SizesIn(b: seq<Byte>, m: Mem)
    requires |m| > 0 && SizesOk(b, |m|) && CutFrom(b, |m|, 0, m)
    ensures forall i :: 0 <= i < |m| ==> |m[i].words| == NumAt(b, 4 + 4 * i)
  {
    hide NumAt;
    forall i | 0 <= i < |m|
      ensures |m[i].words| == NumAt(b, 4 + 4 * i)
    {
      assert SegmentAt(b, |m|, 0 + i, m[i]);
    }
  }

  /** What the writer leaves in a buffer: as many sizes as segments, each the words of its segment, and the words in
      their places; the padding, where there is any, is zero. */
  lemma FramedIs(m: Mem)
    requires 1 <= |m| <= 1023 && Sized(m) && Frame.Total(m) <= 4_294_967_295
    ensures var b, k := Frame.Framed(m), |m|;
      && Complete(b) && NumAt(b, 0) == k - 1 && |b| == Head(k) + 8 * WordsBefore(b, k)
      && (k % 2 == 0 ==> NumAt(b, Head(k) - 4) == 0)
      && CutFrom(b, k, 0, Frame.Full(m))
  {
    hide NumAt;
    hide L.Number;
    hide Frame.Framed;
    hide Frame.Read;
    hide CutFrom;
    hide SizesOk;
    hide WordsBefore;
    hide Frame.Total;
    var b, k, full := Frame.Framed(m), |m|, Frame.Full(m);
    Frame.ReadFramed(m, []);
    assert b + [] == b;
    ReadsWhen(b);
    PaddingIs(m);
    assert CutFrom(b, NumAt(b, 0) + 1, 0, full);
    CutSize(b, NumAt(b, 0) + 1, full);
    SizesIn(b, full);
    SizesRoom(b, k);
    TotalsAre(b, m, 0);
    assert m[0..] == m;
    NoneBefore(b);
  }

  /** Writing succeeds exactly when the first segment has, or can have, a root word, and the buffer room for the
      frame; the root word that is made is null. */
  lemma WrittenWhen(m: Mem, room: nat)
    ensures var root := m != [] && m[0].cap > 0;
      var bare := root && m[0].words == [];
      && (Frame.Written(m, room).Some? <==>
            root && room >= Head(|m|) + Frame.Total(m) + if bare then 8 else 0)
      && (Frame.Written(m, room).Some? ==>
            var r := if bare then m[0 := Seg([0], m[0].cap)] else m;
            r != [] && Frame.Written(m, room).value == Frame.Framed(r))
  {
    hide Frame.Header;
    hide Frame.Payload;
    if m != [] && m[0].cap > 0 {
      if m[0].words == [] {
        assert m[0 := Seg([0], m[0].cap)][1..] == m[1..];
      }
    }
  }

  /** The size that comes back: itself up to 2^31 - 1, else what is left of it in an `int`. */
  lemma AsIntIs(n: nat)
    ensures -2_147_483_648 <= Frame.AsInt(n) <= 2_147_483_647 && (n - Frame.AsInt(n)) % 4_294_967_296 == 0
    ensures n <= 2_147_483_647 ==> Frame.AsInt(n) == n
  {
  }
}
