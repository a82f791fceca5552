/** The record framing of cpmdc_restart.c: gfortran unformatted records, cut into subrecords of at most
    a maximum length, where a negative marker says that the record goes on. */
module RestartCodec {
  import opened Ints
  import opened LittleEndian
  import opened Options

  type Record = seq<Byte>

  // ----- markers

  predicate Int32(x: int) {
    -0x8000_0000 <= x < 0x8000_0000
  }

  /** The four bytes of a two's complement `int32_t`. */
  function SignedLe32(x: int): (b: seq<Byte>)
    requires Int32(x)
    ensures |b| == 4
  {
    Le32(if x < 0 then x + 0x1_0000_0000 else x)
  }

  function FromLe32(b: seq<Byte>): (x: int)
    requires |b| >= 4
    ensures Int32(x)
  {
    BytesOfNumber(b[..4]);
    Powers();
    var u := Number(b[..4]);
    if u >= 0x8000_0000 then u - 0x1_0000_0000 else u
  }

  lemma Le32Inverse(x: int)
    requires Int32(x)
    ensures FromLe32(SignedLe32(x)) == x
  {
    Powers();
    var u := if x < 0 then x + 0x1_0000_0000 else x;
    NumberOfBytes(u, 4);
    assert Bytes(u, 4)[..4] == Bytes(u, 4);
  }

  lemma FromLe32Inverse(b: seq<Byte>)
    requires |b| == 4
    ensures SignedLe32(FromLe32(b)) == b
  {
    BytesOfNumber(b);
    assert b[..4] == b;
  }

  // ----- subrecords

  /** One subrecord; `more` when the record goes on behind it. */
  datatype Piece = Piece(more: bool, data: Record)

  predicate Framable(p: Piece) {
    |p.data| <= INT_MAX && (p.more ==> |p.data| > 0)
  }

  function Marker(p: Piece): int {
    if p.more then -|p.data| else |p.data|
  }

  function Encode(p: Piece): (b: seq<Byte>)
    requires Framable(p)
    ensures |b| == |p.data| + 8
  {
    SignedLe32(Marker(p)) + p.data + SignedLe32(Marker(p))
  }

  function EncodeAll(ps: seq<Piece>): seq<Byte>
    requires forall i :: 0 <= i < |ps| ==> Framable(ps[i])
  {
    if ps == [] then [] else Encode(ps[0]) + EncodeAll(ps[1..])
  }

  /** The subrecord at the start of `buf`, if it is well formed. */
  function FirstPiece(buf: seq<Byte>): (r: Option<Piece>)
    ensures r.Some? ==> Framable(r.value) && |r.value.data| + 8 <= |buf|
  {
    if |buf| < 4 then None
    else
      var lead := FromLe32(buf);
      var n := if lead < 0 then -lead else lead;
      if lead == -0x8000_0000 || n > |buf| - 4 || |buf| - 4 - n < 4 || FromLe32(buf[4 + n..]) != lead then None
      else Some(Piece(lead < 0, buf[4..4 + n]))
  }

  /** The subrecords of a whole stream. */
  function Pieces(buf: seq<Byte>): (r: Option<seq<Piece>>)
    ensures r.Some? ==> forall i :: 0 <= i < |r.value| ==> Framable(r.value[i])
    decreases |buf|
  {
    if buf == [] then Some([])
    else
      match FirstPiece(buf)
      case None => None
      case Some(p) =>
        match Pieces(buf[|p.data| + 8..])
        case None => None
        case Some(ps) => Some([p] + ps)
  }

  /** The records that a sequence of subrecords makes up; `open` is what an unfinished one has so far. */
  function Group(ps: seq<Piece>, open: Option<Record>): Option<seq<Record>>
    decreases |ps|
  {
    if ps == [] then if open.Some? then None else Some([])
    else
      var sofar := (if open.Some? then open.value else []) + ps[0].data;
      if ps[0].more then Group(ps[1..], Some(sofar))
      else
        match Group(ps[1..], None)
        case None => None
        case Some(rs) => Some([sofar] + rs)
  }

  /** What `parse_records` accepts, and as which records. */
  function Parse(buf: seq<Byte>): Option<seq<Record>> {
    match Pieces(buf)
    case None => None
    case Some(ps) => Group(ps, None)
  }

  /** How `emit_record` cuts a record. */
  function Split(max: int, r: Record): (ps: seq<Piece>)
    requires 0 < max <= INT_MAX
    ensures forall i :: 0 <= i < |ps| ==> Framable(ps[i])
    decreases |r|
  {
    if |r| <= max then [Piece(false, r)] else [Piece(true, r[..max])] + Split(max, r[max..])
  }

  function SplitAll(max: int, rs: seq<Record>): (ps: seq<Piece>)
    requires 0 < max <= INT_MAX
    ensures forall i :: 0 <= i < |ps| ==> Framable(ps[i])
  {
    if rs == [] then [] else Split(max, rs[0]) + SplitAll(max, rs[1..])
  }

  /** The stream that `cpmdc_restart_write_mem` makes. */
  function Emit(max: int, rs: seq<Record>): seq<Byte>
    requires 0 < max <= INT_MAX
  {
    EncodeAll(SplitAll(max, rs))
  }

  // ----- round trips

  lemma FirstOfEncoded(p: Piece, rest: seq<Byte>)
    requires Framable(p)
    ensures FirstPiece(Encode(p) + rest) == Some(p) && (Encode(p) + rest)[|p.data| + 8..] == rest
  {
    hide FromLe32;
    hide SignedLe32;
    var buf, n, m := Encode(p) + rest, |p.data|, Marker(p);
    Le32Inverse(m);
    LeadOnly(buf);
    LeadOnly(buf[4 + n..]);
    assert buf[..4] == SignedLe32(m) && buf[4..4 + n] == p.data && buf[4 + n..][..4] == SignedLe32(m);
  }

  lemma {:induction false} PiecesOfEncoded(ps: seq<Piece>)
    requires forall i :: 0 <= i < |ps| ==> Framable(ps[i])
    ensures Pieces(EncodeAll(ps)) == Some(ps)
  {
    if ps != [] {
      FirstOfEncoded(ps[0], EncodeAll(ps[1..]));
      PiecesOfEncoded(ps[1..]);
      assert [ps[0]] + ps[1..] == ps;
    }
  }

  lemma LeadOnly(b: seq<Byte>)
    requires |b| >= 4
    ensures FromLe32(b[..4]) == FromLe32(b)
  {
    assert b[..4][..4] == b[..4];
  }

  lemma EncodeFirst(buf: seq<Byte>, p: Piece)
    requires FirstPiece(buf) == Some(p)
    ensures buf == Encode(p) + buf[|p.data| + 8..]
  {
    hide FromLe32;
    hide SignedLe32;
    var n := |p.data|;
    LeadOnly(buf);
    LeadOnly(buf[4 + n..]);
    assert buf[4 + n..][..4] == buf[4 + n..8 + n];
    FromLe32Inverse(buf[..4]);
    FromLe32Inverse(buf[4 + n..8 + n]);
    assert buf == buf[..4] + buf[4..4 + n] + buf[4 + n..8 + n] + buf[8 + n..];
  }

  /** Every byte of an accepted stream is accounted for by its subrecords. */
  lemma {:induction false} EncodedPieces(buf: seq<Byte>)
    requires Pieces(buf).Some?
    ensures EncodeAll(Pieces(buf).value) == buf
    decreases |buf|
  {
    if buf != [] {
      var p := FirstPiece(buf).value;
      EncodeFirst(buf, p);
      EncodedPieces(buf[|p.data| + 8..]);
      var ps := Pieces(buf).value;
      assert ps[1..] == Pieces(buf[|p.data| + 8..]).value;
    }
  }

  lemma {:induction false} GroupSplit(max: int, r: Record, open: Option<Record>, rest: seq<Piece>)
    requires 0 < max <= INT_MAX
    ensures Group(Split(max, r) + rest, open)
         == match Group(rest, None) case None => None
                                    case Some(rs) => Some([(if open.Some? then open.value else []) + r] + rs)
    decreases |r|
  {
    var ps, sofar := Split(max, r) + rest, if open.Some? then open.value else [];
    if |r| <= max {
      assert ps[1..] == rest;
    } else {
      assert ps[1..] == Split(max, r[max..]) + rest;
      GroupSplit(max, r[max..], Some(sofar + r[..max]), rest);
      assert sofar + r[..max] + r[max..] == sofar + r;
    }
  }

  lemma {:induction false} GroupSplitAll(max: int, rs: seq<Record>)
    requires 0 < max <= INT_MAX
    ensures Group(SplitAll(max, rs), None) == Some(rs)
  {
    if rs != [] {
      GroupSplitAll(max, rs[1..]);
      GroupSplit(max, rs[0], None, SplitAll(max, rs[1..]));
      assert [] + rs[0] == rs[0] && [rs[0]] + rs[1..] == rs;
    }
  }

  /** Parsing what was written gives the records back, whatever their lengths and the maximum. */
  lemma ParseEmit(max: int, rs: seq<Record>)
    requires 0 < max <= INT_MAX
    ensures Parse(Emit(max, rs)) == Some(rs)
  {
    PiecesOfEncoded(SplitAll(max, rs));
    GroupSplitAll(max, rs);
  }

  // ----- canonical streams

  /** Every subrecord but the last of its record is as long as it can be, and the last is not empty
      unless it is the only one. */
  predicate Canonical(max: int, ps: seq<Piece>) {
    forall i :: 0 <= i < |ps| ==>
      && |ps[i].data| <= max && (ps[i].more ==> |ps[i].data| == max)
      && (!ps[i].more && i > 0 && ps[i - 1].more ==> |ps[i].data| > 0)
  }

  /** The subrecords of an open record followed by those of further ones. */
  lemma {:induction false} SplitGroup(max: int, ps: seq<Piece>)
    requires 0 < max <= INT_MAX && Group(ps, None).Some? && Canonical(max, ps)
    ensures SplitAll(max, Group(ps, None).value) == ps
    decreases |ps|
  {
    hide Canonical;
    if ps != [] {
      var n := FirstRecord(max, ps, None);
      var r := Group(ps, None).value[0];
      CanonicalTail(max, ps, n);
      SplitGroup(max, ps[n..]);
      FirstSplit(max, ps, n, r);
      assert Group(ps, None).value == [r] + Group(ps[n..], None).value;
      assert ps == ps[..n] + ps[n..];
    }
  }

  lemma CanonicalTail(max: int, ps: seq<Piece>, n: nat)
    requires Canonical(max, ps) && 0 < n <= |ps| && !ps[n - 1].more
    ensures Canonical(max, ps[n..])
  {
  }

  /** How many subrecords the first record takes. */
  lemma {:induction false} FirstRecord(max: int, ps: seq<Piece>, open: Option<Record>) returns (n: nat)
    requires ps != [] && Group(ps, open).Some?
    ensures 0 < n <= |ps| && !ps[n - 1].more && forall i :: 0 <= i < n - 1 ==> ps[i].more
    ensures Group(ps[n..], None).Some? && |Group(ps, open).value| > 0
    ensures Group(ps, open).value[1..] == Group(ps[n..], None).value
    ensures Group(ps, open).value[0] == (if open.Some? then open.value else []) + Concat(ps[..n])
    decreases |ps|
  {
    var sofar := (if open.Some? then open.value else []) + ps[0].data;
    if ps[0].more {
      n := FirstRecord(max, ps[1..], Some(sofar));
      n := n + 1;
      assert ps[1..][n - 1..] == ps[n..];
      assert ps[..n][1..] == ps[1..][..n - 1];
      assert Concat(ps[..n]) == ps[0].data + Concat(ps[1..][..n - 1]);
      forall i | 0 <= i < n - 1
        ensures ps[i].more
      {
        assert i > 0 ==> ps[i] == ps[1..][i - 1];
      }
    } else {
      n := 1;
      assert ps[..1] == [ps[0]] && Concat(ps[..1]) == ps[0].data + Concat([]);
      assert Concat(ps[..1]) == ps[0].data;
    }
  }

  function Concat(ps: seq<Piece>): Record {
    if ps == [] then [] else ps[0].data + Concat(ps[1..])
  }

  lemma {:induction false} FirstSplit(max: int, ps: seq<Piece>, n: nat, r: Record)
    requires 0 < max <= INT_MAX && Canonical(max, ps) && 0 < n <= |ps|
    requires !ps[n - 1].more && (forall i :: 0 <= i < n - 1 ==> ps[i].more) && r == Concat(ps[..n])
    ensures Split(max, r) == ps[..n]
    decreases n
  {
    if n == 1 {
      assert ps[..1] == [ps[0]] && Concat(ps[..1]) == ps[0].data + Concat([]);
      assert r == ps[0].data;
    } else {
      assert ps[..n][1..] == ps[1..n] == ps[1..][..n - 1];
      assert r == ps[0].data + Concat(ps[1..n]);
      NotEmpty(max, ps, n);
      assert r[..max] == ps[0].data && r[max..] == Concat(ps[1..n]);
      forall i | 0 <= i < |ps| - 1
        ensures ps[1..][i] == ps[i + 1]
      {
      }
      FirstSplit(max, ps[1..], n - 1, r[max..]);
      assert [ps[0]] + ps[1..n] == ps[..n];
    }
  }

  lemma {:induction false} NotEmpty(max: int, ps: seq<Piece>, n: nat)
    requires 0 < max && Canonical(max, ps) && 1 < n <= |ps| && !ps[n - 1].more && forall i :: 0 <= i < n - 1 ==>
      ps[i].more
    ensures |Concat(ps[1..n])| > 0
  {
    assert ps[1..n][0] == ps[1];
    assert ps[0].more;
  }

  lemma {:induction false} SplitCanonical(max: int, r: Record)
    requires 0 < max <= INT_MAX
    ensures Canonical(max, Split(max, r)) && !Split(max, r)[|Split(max, r)| - 1].more
    ensures |Split(max, r)| > 0 && (|Split(max, r)| > 1 ==> |r| > max) && (|r| > 0 ==> |Split(max, r)[0].data| > 0)
    decreases |r|
  {
    if |r| > max {
      SplitCanonical(max, r[max..]);
      var ps, rest := Split(max, r), Split(max, r[max..]);
      assert forall i :: 0 < i < |ps| ==> ps[i] == rest[i - 1];
    }
  }

  lemma {:induction false} SplitAllCanonical(max: int, rs: seq<Record>)
    requires 0 < max <= INT_MAX
    ensures Canonical(max, SplitAll(max, rs))
  {
    if rs != [] {
      SplitCanonical(max, rs[0]);
      SplitAllCanonical(max, rs[1..]);
      var a, b := Split(max, rs[0]), SplitAll(max, rs[1..]);
      assert forall i :: 0 <= i < |a + b| ==> (a + b)[i] == if i < |a| then a[i] else b[i - |a|];
    }
  }

  /** An accepted stream is reproduced byte for byte exactly when it was split canonically. */
  lemma EmitParse(max: int, buf: seq<Byte>)
    requires 0 < max <= INT_MAX && Parse(buf).Some?
    ensures Emit(max, Parse(buf).value) == buf <==> Canonical(max, Pieces(buf).value)
  {
    var ps, rs := Pieces(buf).value, Parse(buf).value;
    EncodedPieces(buf);
    PiecesOfEncoded(SplitAll(max, rs));
    if Canonical(max, ps) {
      SplitGroup(max, ps);
    }
    SplitAllCanonical(max, rs);
  }

  // ----- where a payload byte goes

  lemma {:induction false} EncodeJoin(a: seq<Piece>, b: seq<Piece>)
    requires (forall i :: 0 <= i < |a| ==> Framable(a[i])) && (forall i :: 0 <= i < |b| ==> Framable(b[i]))
    ensures (forall i :: 0 <= i < |a + b| ==> Framable((a + b)[i])) && EncodeAll(a + b) == EncodeAll(a) + EncodeAll(b)
  {
    hide Encode;
    if a == [] {
      assert a + b == b;
    } else {
      assert (a + b)[1..] == a[1..] + b;
      EncodeJoin(a[1..], b);
      Associative(Encode(a[0]), EncodeAll(a[1..]), EncodeAll(b));
    }
  }

  function EmitOne(max: int, r: Record): seq<Byte>
    requires 0 < max <= INT_MAX
  {
    EncodeAll(Split(max, r))
  }

  lemma EmitCons(max: int, rs: seq<Record>)
    requires 0 < max <= INT_MAX && rs != []
    ensures Emit(max, rs) == EmitOne(max, rs[0]) + Emit(max, rs[1..])
  {
    EncodeJoin(Split(max, rs[0]), SplitAll(max, rs[1..]));
  }

  lemma {:induction false} EmitJoin(max: int, a: seq<Record>, b: seq<Record>)
    requires 0 < max <= INT_MAX
    ensures Emit(max, a + b) == Emit(max, a) + Emit(max, b)
  {
    hide Emit;
    hide EmitOne;
    if a == [] {
      assert a + b == b;
      EmitNothing(max, Emit(max, b));
    } else {
      EmitCons(max, a);
      EmitCons(max, a + b);
      assert (a + b)[1..] == a[1..] + b;
      EmitJoin(max, a[1..], b);
      Associative(EmitOne(max, a[0]), Emit(max, a[1..]), Emit(max, b));
    }
  }

  lemma EmitNothing(max: int, b: seq<Byte>)
    requires 0 < max <= INT_MAX
    ensures Emit(max, []) == [] && [] + b == b
  {
  }

  lemma Associative(a: seq<Byte>, b: seq<Byte>, c: seq<Byte>)
    ensures a + (b + c) == a + b + c
  {
  }

  /** The offset of payload byte `b` behind the markers of its own record. */
  function Inside(max: int, b: nat): nat
    requires max > 0
    decreases b
  {
    if b < max then 4 + b else max + 8 + Inside(max, b - max)
  }

  /** The offset of byte `b` of record `i` in the stream. */
  function At(max: int, rs: seq<Record>, i: nat, b: nat): nat
    requires 0 < max <= INT_MAX && i < |rs|
  {
    |Emit(max, rs[..i])| + Inside(max, b)
  }

  ghost predicate SameLengths(rs: seq<Record>, rs': seq<Record>) {
    |rs| == |rs'| && forall i :: 0 <= i < |rs| ==> |rs[i]| == |rs'[i]|
  }

  lemma EmitOneCut(max: int, r: Record)
    requires 0 < max <= INT_MAX
    ensures |r| <= max ==> EmitOne(max, r) == SignedLe32(|r|) + r + SignedLe32(|r|)
    ensures |r| > max ==> EmitOne(max, r) == SignedLe32(-max) + r[..max] + SignedLe32(-max) + EmitOne(max, r[max..])
  {
    hide SignedLe32;
    if |r| <= max {
      assert EncodeAll([Piece(false, r)]) == Encode(Piece(false, r)) + EncodeAll([]);
    } else {
      EncodeJoin([Piece(true, r[..max])], Split(max, r[max..]));
      assert EncodeAll([Piece(true, r[..max])]) == Encode(Piece(true, r[..max])) + EncodeAll([]);
    }
  }

  lemma {:induction false} OneByteAt(max: int, r: Record, b: nat)
    requires 0 < max <= INT_MAX && b < |r|
    ensures Inside(max, b) < |EmitOne(max, r)| && EmitOne(max, r)[Inside(max, b)] == r[b]
    decreases |r|
  {
    hide EmitOne;
    EmitOneCut(max, r);
    if |r| > max && b >= max {
      OneByteAt(max, r[max..], b - max);
    }
  }

  /** The offset of a payload byte in the stream is where the stream has that byte. */
  lemma ByteAt(max: int, rs: seq<Record>, i: nat, b: nat)
    requires 0 < max <= INT_MAX && i < |rs| && b < |rs[i]|
    ensures At(max, rs, i, b) < |Emit(max, rs)| && Emit(max, rs)[At(max, rs, i, b)] == rs[i][b]
  {
    hide Emit;
    hide EmitOne;
    EmitJoin(max, rs[..i], rs[i..]);
    EmitCons(max, rs[i..]);
    OneByteAt(max, rs[i], b);
    assert rs[..i] + rs[i..] == rs;
  }

  /** Bytes that differ behind a common head lie in the middle parts or behind them. */
  lemma MiddleDiffers(head: seq<Byte>, x: seq<Byte>, x': seq<Byte>, tail: seq<Byte>, tail': seq<Byte>, p: nat)
    requires |x| == |x'| && |tail| == |tail'|
    ensures |head + x + tail| == |head| + |x| + |tail| == |head + x' + tail'|
    ensures p < |head + x + tail| && (head + x + tail)[p] != (head + x' + tail')[p] ==>
              || (|head| <= p < |head| + |x| && x[p - |head|] != x'[p - |head|])
              || (|head| + |x| <= p && tail[p - |head| - |x|] != tail'[p - |head| - |x|])
  {
  }

  lemma Regroup(mark: seq<Byte>, x: seq<Byte>, rest: seq<Byte>)
    ensures mark + x + mark + rest == mark + x + (mark + rest)
  {
  }

  lemma TailDiffers(mark: seq<Byte>, rest: seq<Byte>, rest': seq<Byte>, p: nat)
    requires |rest| == |rest'| && p < |mark + rest|
    ensures |mark + rest| == |mark + rest'|
    ensures (mark + rest)[p] != (mark + rest')[p] ==> |mark| <= p && rest[p - |mark|] != rest'[p - |mark|]
  {
  }

  /** Two records of one length: their streams differ only where a payload byte differs. */
  lemma {:induction false} OneDiffers(max: int, r: Record, r': Record, p: nat) returns (b: nat)
    requires 0 < max <= INT_MAX && |r| == |r'|
    ensures |EmitOne(max, r)| == |EmitOne(max, r')|
    ensures p < |EmitOne(max, r)| && EmitOne(max, r)[p] != EmitOne(max, r')[p] ==>
              b < |r| && r[b] != r'[b] && p == Inside(max, b)
    decreases |r|
  {
    hide EmitOne;
    EmitOneCut(max, r);
    EmitOneCut(max, r');
    b := if p < 4 then 0 else p - 4;
    if |r| <= max {
      var mark := SignedLe32(|r|);
      MiddleDiffers(mark, r, r', mark, mark, p);
    } else {
      var mark, rest, rest' := SignedLe32(-max), EmitOne(max, r[max..]), EmitOne(max, r'[max..]);
      var c := OneDiffers(max, r[max..], r'[max..], if p < max + 8 then 0 else p - max - 8);
      Regroup(mark, r[..max], rest);
      Regroup(mark, r'[..max], rest');
      MiddleDiffers(mark, r[..max], r'[..max], mark + rest, mark + rest', p);
      if max + 4 <= p < |EmitOne(max, r)| {
        TailDiffers(mark, rest, rest', p - max - 4);
      }
      if p >= max + 8 {
        b := c + max;
      }
    }
  }

  /** The same for whole streams. */
  lemma {:induction false} StreamDiffers(max: int, rs: seq<Record>, rs': seq<Record>, p: nat) returns (i: nat, b: nat)
    requires 0 < max <= INT_MAX && SameLengths(rs, rs')
    ensures |Emit(max, rs)| == |Emit(max, rs')|
    ensures p < |Emit(max, rs)| && Emit(max, rs)[p] != Emit(max, rs')[p] ==>
              i < |rs| && b < |rs[i]| && rs[i][b] != rs'[i][b] && p == At(max, rs, i, b)
    decreases |rs|
  {
    if rs == [] {
      i, b := 0, 0;
    } else {
      EmitCons(max, rs);
      EmitCons(max, rs');
      var n := |EmitOne(max, rs[0])|;
      b := OneDiffers(max, rs[0], rs'[0], p);
      i := 0;
      var j, c := StreamDiffers(max, rs[1..], rs'[1..], if p < n then 0 else p - n);
      if p < n {
        assert rs[..0] == [];
      } else {
        i, b := j + 1, c;
        if i < |rs| {
          EmitCons(max, rs[..i]);
          assert rs[..i][1..] == rs[1..][..j];
        }
      }
    }
  }

  // ----- growing buffers

  /** A buffer that grows by doubling: the bytes of a payload, the bytes of a stream, the records of a file. */
  class Growing<T(0)> {
    const first: nat
    var data: array<T>
    var len: nat

    ghost predicate Valid()
      reads this
    {
      len <= data.Length && first > 0
    }

    ghost function Contents(): (s: seq<T>)
      requires Valid()
      reads this, data
    {
      data[..len]
    }

    constructor (first: nat)
      requires first > 0
      ensures Valid() && fresh(data) && Contents() == []
    {
      this.first := first;
      data := new T[0];
      len := 0;
    }

    /** `append_bytes`, and `push_rec` for one record. */
    method Append(src: seq<T>)
      requires Valid()
      modifies this, data
      ensures Valid() && Contents() == old(Contents()) + src && (data == old(data) || fresh(data))
    {
      if len + |src| > data.Length {
        Grow(len + |src|);
      }
      ghost var was := Contents();
      forall i | 0 <= i < |src| {
        data[len + i] := src[i];
      }
      len := len + |src|;
      forall k | 0 <= k < len
        ensures data[k] == (was + src)[k]
      {
        assert k < |was| ==> data[k] == was[k];
      }
    }

    /** A new buffer of at least `need`, by doubling, with the same contents. */
    method Grow(need: nat)
      requires Valid() && need > data.Length
      modifies this`data
      ensures Valid() && Contents() == old(Contents()) && data.Length >= need && fresh(data)
    {
      var cap := if data.Length > 0 then data.Length else first;
      while cap < need
        invariant cap > 0
        decreases need - cap
      {
        cap := cap * 2;
      }
      var grown := new T[cap];
      forall i | 0 <= i < len {
        grown[i] := data[i];
      }
      data := grown;
    }

    method Taken() returns (s: seq<T>)
      requires Valid()
      ensures s == Contents()
    {
      s := data[..len];
    }
  }

  // ----- parse_records

  function Resume(buf: seq<Byte>, open: Option<Record>): Option<seq<Record>> {
    match Pieces(buf)
    case None => None
    case Some(ps) => Group(ps, open)
  }

  /** Reading one subrecord of an open record. */
  lemma ResumeStep(buf: seq<Byte>, open: Record)
    ensures FirstPiece(buf).None? ==> Resume(buf, Some(open)) == None
    ensures FirstPiece(buf).Some? ==>
      var p := FirstPiece(buf).value;
      var rest := buf[|p.data| + 8..];
      Resume(buf, Some(open)) == if p.more then Resume(rest, Some(open + p.data))
        else Prepend([open + p.data], Resume(rest, None))
  {
    hide FirstPiece;
    if FirstPiece(buf).Some? {
      var p := FirstPiece(buf).value;
      var rest := buf[|p.data| + 8..];
      if Pieces(rest).Some? {
        var ps := Pieces(rest).value;
        assert ([p] + ps)[1..] == ps;
      }
    }
  }

  lemma ResumeOpen(buf: seq<Byte>)
    requires buf != []
    ensures Resume(buf, Some([])) == Resume(buf, None)
  {
    hide FirstPiece;
  }

  lemma PrependTwice(a: seq<Record>, r: Record, o: Option<seq<Record>>)
    ensures Prepend(a, Prepend([r], o)) == Prepend(a + [r], o)
  {
    if o.Some? {
      assert a + ([r] + o.value) == a + [r] + o.value;
    }
  }

  /** One subrecord at a moving offset; the checks come in the order of the reads. */
  method ReadPiece(buf: seq<Byte>, off: nat) returns (r: Option<Piece>)
    requires off <= |buf|
    ensures r == FirstPiece(buf[off..])
  {
    var n := |buf|;
    if n - off < 4 {
      return None;
    }
    var lead := FromLe32(buf[off..]);
    if lead == -0x8000_0000 {
      return None;
    }
    var slen := if lead < 0 then -lead else lead;
    if slen > n - off - 4 {
      return None;
    }
    var data := buf[off + 4..off + 4 + slen];
    assert data == buf[off..][4..4 + slen];
    if n - (off + 4 + slen) < 4 {
      return None;
    }
    assert buf[off + 4 + slen..] == buf[off..][4 + slen..];
    var trail := FromLe32(buf[off + 4 + slen..]);
    if trail != lead {
      return None;
    }
    return Some(Piece(lead < 0, data));
  }

  /** `parse_records`. */
  method ParseRecords(buf: seq<Byte>) returns (r: Option<seq<Record>>)
    ensures r == Parse(buf)
  {
    hide FirstPiece;
    hide Pieces;
    hide Group;
    hide Resume;
    var off := 0;
    var recs := new Growing<Record>(64);
    assert buf[0..] == buf && Resume(buf, None) == Parse(buf) by {
      ParseIsResume(buf);
    }
    NothingYet(Resume(buf, None));
    while off < |buf|
      invariant recs.Valid() && fresh(recs) && fresh(recs.data) && 0 <= off <= |buf|
      invariant Parse(buf) == Prepend(recs.Contents(), Resume(buf[off..], None))
    {
      var payload := new Growing<Byte>(256);
      var more := true;
      ghost var done, start := recs.Contents(), off;
      ResumeOpen(buf[off..]);
      while more
        invariant payload.Valid() && fresh(payload) && fresh(payload.data) && start <= off <= |buf|
        invariant recs.Valid() && fresh(recs) && fresh(recs.data) && recs.Contents() == done
        invariant more ==> Parse(buf) == Prepend(done, Resume(buf[off..], Some(payload.Contents())))
        invariant !more ==> Parse(buf) == Prepend(done + [payload.Contents()], Resume(buf[off..], None)) && start < off
        decreases more, |buf| - off
      {
        ResumeStep(buf[off..], payload.Contents());
        var p := ReadPiece(buf, off);
        if p.None? {
          return None;
        }
        assert buf[off..][|p.value.data| + 8..] == buf[off + |p.value.data| + 8..];
        if !p.value.more {
          PrependTwice(done, payload.Contents() + p.value.data, Resume(buf[off + |p.value.data| + 8..], None));
        }
        payload.Append(p.value.data);
        off := off + |p.value.data| + 8;
        more := p.value.more;
      }
      var rec := payload.Taken();
      recs.Append([rec]);
    }
    assert buf[off..] == [];
    ResumeEnd(recs.Contents());
    var all := recs.Taken();
    return Some(all);
  }

  lemma ParseIsResume(buf: seq<Byte>)
    ensures Resume(buf, None) == Parse(buf)
  {
  }

  lemma NothingYet(o: Option<seq<Record>>)
    ensures Prepend([], o) == o
  {
    if o.Some? {
      assert [] + o.value == o.value;
    }
  }

  lemma ResumeEnd(rs: seq<Record>)
    ensures Prepend(rs, Resume([], None)) == Some(rs)
  {
    assert rs + [] == rs;
  }

  // ----- emit_record

  /** `emit_record`: subrecord after subrecord, each between its two markers. */
  method EmitRecord(out: Growing<Byte>, r: Record, max: int)
    requires out.Valid() && 0 < max <= INT_MAX
    modifies out, out.data
    ensures out.Valid() && out.Contents() == old(out.Contents()) + EmitOne(max, r)
      && (out.data == old(out.data) || fresh(out.data))
  {
    hide SignedLe32;
    hide EmitOne;
    ghost var was := out.Contents();
    if |r| == 0 {
      EmitEmpty(max, was, r);
      out.Append(SignedLe32(0));
      out.Append(SignedLe32(0));
      return;
    }
    var off := 0;
    assert r[0..] == r;
    while off < |r|
      invariant out.Valid() && 0 <= off <= |r| && (out.data == old(out.data) || fresh(out.data))
      invariant out.Contents() + Unsent(max, r, off) == was + EmitOne(max, r)
    {
      var chunk := |r| - off;
      if chunk > max {
        chunk := max;
      }
      var last := chunk == |r| - off;
      var marker := if last then chunk else -chunk;
      ChunkOut(out.Contents(), max, r, off, chunk, marker);
      out.Append(SignedLe32(marker));
      out.Append(r[off..off + chunk]);
      out.Append(SignedLe32(marker));
      off := off + chunk;
    }
  }

  /** What is still to be written of a record. */
  ghost function Unsent(max: int, r: Record, off: nat): seq<Byte>
    requires 0 < max <= INT_MAX && off <= |r|
  {
    if off < |r| then EmitOne(max, r[off..]) else []
  }

  lemma EmitEmpty(max: int, was: seq<Byte>, r: Record)
    requires 0 < max <= INT_MAX && |r| == 0
    ensures was + EmitOne(max, r) == was + SignedLe32(0) + SignedLe32(0)
  {
    EmitOneCut(max, r);
    assert SignedLe32(0) + r + SignedLe32(0) == SignedLe32(0) + SignedLe32(0);
  }

  lemma ChunkOut(before: seq<Byte>, max: int, r: Record, off: nat, chunk: nat, marker: int)
    requires 0 < max <= INT_MAX && off < |r| && chunk == (if |r| - off > max then max else |r| - off)
    requires if chunk == |r| - off then marker == chunk else marker + chunk == 0
    requires Int32(marker)
    ensures before + Unsent(max, r, off)
         == before + SignedLe32(marker) + r[off..off + chunk] + SignedLe32(marker) + Unsent(max, r, off + chunk)
  {
    hide SignedLe32;
    hide EmitOne;
    EmitOneCut(max, r[off..]);
    assert chunk == |r| - off ==> r[off..] == r[off..off + chunk];
    assert chunk < |r| - off ==> r[off..][..max] == r[off..off + chunk] && r[off..][max..] == r[off + chunk..];
  }

  /** `cpmdc_restart_write_mem`. */
  method WriteRecords(rs: seq<Record>, max: int) returns (bytes: seq<Byte>)
    requires 0 < max <= INT_MAX
    ensures bytes == Emit(max, rs)
  {
    hide EmitOne;
    var out := new Growing<Byte>(256);
    var i := 0;
    while i < |rs|
      invariant 0 <= i <= |rs| && out.Valid() && fresh(out) && fresh(out.data) && out.Contents() == Emit(max, rs[..i])
    {
      EmitRecord(out, rs[i], max);
      EmitSnoc(max, rs[..i], rs[i]);
      assert rs[..i + 1] == rs[..i] + [rs[i]];
      i := i + 1;
    }
    assert rs[..i] == rs;
    bytes := out.Taken();
  }

  lemma EmitSnoc(max: int, rs: seq<Record>, r: Record)
    requires 0 < max <= INT_MAX
    ensures Emit(max, rs + [r]) == Emit(max, rs) + EmitOne(max, r)
  {
    EmitJoin(max, rs, [r]);
    EmitCons(max, [r]);
    assert EmitOne(max, r) + [] == EmitOne(max, r);
  }
}
