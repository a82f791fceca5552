/** What it means that a pointer has the value of another one: the same sizes, the same bytes, and at every pointer
    slot the same value one level less deep. */
module CloneLaws {
  import opened Options
  import opened SegmentTable
  import opened Pointers
  import opened ObjectGraph
  import opened CloneGraph
  import L = LittleEndian

  /** A byte of a segment, words stored lowest byte first. */
  function ByteIn(m: Mem, s: nat, b: nat): L.Byte {
    L.Bytes(WordAt(m, s, b / 8), 8)[b % 8]
  }

  /** Byte `b` of an object is data: of a composite list, the first bytes of every element. */
  predicate DataAt(q: Ptr, b: nat) {
    match q.kind
    case Struct => b < q.datasz
    case BitList => b < q.datasz
    case List =>
      if q.composite then
        q.datasz > 0 && b < Times(q.len, q.datasz + 8 * q.ptrs) && b % (q.datasz + 8 * q.ptrs) < q.datasz
      else b < Times(q.len, q.datasz)
    case _ => false
  }

  /** Word `c` of an object is a pointer: of a composite list, the last words of every element. */
  predicate SlotAt(q: Ptr, c: nat) {
    match q.kind
    case Struct => q.datasz / 8 <= c < q.datasz / 8 + q.ptrs
    case PtrList => c < q.len
    case List =>
      q.composite && q.ptrs > 0
      && c < Times(q.len, q.datasz / 8 + q.ptrs) && c % (q.datasz / 8 + q.ptrs) >= q.datasz / 8
    case _ => false
  }

  lemma {:induction false} LowByte(w: Word, n: nat, k: nat)
    requires k < n <= 8
    ensures L.Bytes(w % L.Pow256(n), 8)[k] == L.Bytes(w, 8)[k]
  {
    ByteOf(w, 8, k);
    Remainder(w, L.Pow256(n));
    ByteOf(w % L.Pow256(n), 8, k);
    LowPart(w, n, k);
  }

  /** Byte `k` of a number. */
  function Digit(w: nat, k: nat): nat {
    if k == 0 then w % 256 else Digit(w / 256, k - 1)
  }

  lemma {:induction false} ByteOf(w: nat, n: nat, k: nat)
    requires k < n
    ensures L.Bytes(w, n)[k] == Digit(w, k)
  {
    if k > 0 {
      ByteOf(w / 256, n - 1, k - 1);
    }
  }

  lemma {:induction false} LowPart(w: nat, n: nat, k: nat)
    requires k < n
    ensures w % L.Pow256(n) >= 0 && Digit(w % L.Pow256(n), k) == Digit(w, k)
  {
    Parts(w, L.Pow256(n - 1));
    if k > 0 {
      LowPart(w / 256, n - 1, k - 1);
    }
  }

  /** The lowest byte and the rest of a remainder. */
  lemma Parts(w: nat, p: nat)
    requires p > 0
    ensures w % (256 * p) % 256 == w % 256 && w % (256 * p) / 256 == w / 256 % p
  {
    var high, low, byte := w / 256 / p, w / 256 % p, w % 256;
    Split(w / 256, p);
    assert w == 256 * (w / 256) + byte;
    assert w == (256 * p) * high + (256 * low + byte) by {
      Spread(p, high, low);
    }
    Unique(w, 256 * p, high, 256 * low + byte);
  }

  lemma Split(a: nat, p: nat)
    requires p > 0
    ensures a == p * (a / p) + a % p && 0 <= a % p < p
  {
  }

  lemma Spread(p: nat, high: nat, low: nat)
    ensures 256 * (p * high + low) == (256 * p) * high + 256 * low
  {
  }

  lemma Unique(w: nat, d: nat, q: nat, r: nat)
    requires w == d * q + r && r < d
    ensures w % d == r
  {
    Split(w, d);
    var q', r' := w / d, w % d;
    if q < q' {
      Step(d, q, q');
      assert false;
    } else if q' < q {
      Step(d, q', q);
      assert false;
    }
  }

  lemma Step(d: nat, a: nat, b: nat)
    requires a < b
    ensures d * b >= d * a + d
  {
    var more := b - a - 1;
    assert d * b == d * a + d + d * more;
    assert d * more >= 0;
  }

  // ----- equal values

  /** Equal values have the same kind and sizes. */
  lemma SameSizes(n: nat, m: Mem, q: Ptr, m': Mem, r: Ptr)
    requires Equal(n, m, q, m', r) && !Nil(q)
    ensures !Nil(r) && r.kind == q.kind && r.len == q.len && r.datasz == q.datasz && r.ptrs == q.ptrs
    ensures Backed(m, q) && Backed(m', r)
  {
  }

  /** Byte for byte the same data. */
  lemma SameBytes(n: nat, m: Mem, q: Ptr, m': Mem, r: Ptr, b: nat)
    requires Equal(n, m, q, m', r) && !Nil(q) && Shape(q) && DataAt(q, b)
    ensures Backed(m, q) && Backed(m', r)
    ensures ByteIn(m, q.seg.value, 8 * q.pos.value + b) == ByteIn(m', r.seg.value, 8 * r.pos.value + b)
  {
    var c := b / 8;
    hide ByteIn;
    DataWords(q, b);
    AlikeSlots(q, r);
    hide Bytes;
    hide IsSlot;
    assert IsSlot(q, c) == IsSlot(r, c);
    DataByte(m, q, b);
    DataByte(m', r, b);
  }

  /** The word that a byte of data lies in is no pointer slot. */
  lemma DataWords(q: Ptr, b: nat)
    requires Shape(q) && DataAt(q, b)
    ensures b < Bytes(q) && b / 8 < Words(q) && !IsSlot(q, b / 8)
  {
    hide Times;
    if q.kind == List && q.composite {
      var d, p := q.datasz / 8, q.ptrs;
      Eightfold(q.len, d, p);
      assert q.datasz + 8 * q.ptrs == 8 * (d + p);
      InElement(b, d, d + p);
    }
  }

  lemma Eightfold(n: int, words: int, ptrs: int)
    ensures Times(n, 8 * words + 8 * ptrs) == 8 * Times(n, words + ptrs)
  {
  }

  /** Where a byte is inside its element, and where its word is. */
  lemma InElement(b: nat, d: nat, w: nat)
    requires 0 < d <= w && b % (8 * w) < 8 * d
    ensures b / 8 % w < d
  {
    var k, r := b / (8 * w), b % (8 * w);
    Split(b, 8 * w);
    Spread8(w, k);
    Eighth(b, w * k, r);
    Unique(b / 8, w, k, r / 8);
  }

  lemma Spread8(w: nat, k: nat)
    ensures 8 * w * k == 8 * (w * k)
  {
  }

  lemma Eighth(b: nat, x: nat, r: nat)
    requires b == 8 * x + r
    ensures b / 8 == x + r / 8
  {
  }

  /** A byte of data shows in the word that belongs to the object. */
  lemma DataByte(m: Mem, q: Ptr, b: nat)
    requires Backed(m, q) && b < Bytes(q)
    ensures ByteIn(m, q.seg.value, 8 * q.pos.value + b) == L.Bytes(DataWord(m, q, b / 8), 8)[b % 8]
  {
    hide Bytes;
    hide L.Bytes;
    hide L.Pow256;
    var w, n := WordAt(m, q.seg.value, q.pos.value + b / 8), Bytes(q) - 8 * (b / 8);
    assert (8 * q.pos.value + b) / 8 == q.pos.value + b / 8 && (8 * q.pos.value + b) % 8 == b % 8;
    if n < 8 {
      LowByte(w, n, b % 8);
    }
  }

  /** At every pointer slot the same value, one level less deep. */
  lemma SamePointers(n: nat, m: Mem, q: Ptr, m': Mem, r: Ptr, c: nat)
    requires n > 0 && Equal(n, m, q, m', r) && !Nil(q) && Shape(q) && SlotAt(q, c)
    ensures Backed(m, q) && Backed(m', r)
    ensures Equal(n - 1, m, ReadPtr(m, q.seg.value, q.pos.value + c), m', ReadPtr(m', r.seg.value, r.pos.value + c))
  {
    hide ReadPtr;
    SlotWords(q, c);
    hide IsSlot;
    hide Bytes;
    hide Alike;
    assert IsSlot(q, c) == IsSlot(r, c);
  }

  lemma SlotWords(q: Ptr, c: nat)
    requires Shape(q) && SlotAt(q, c)
    ensures c < Words(q) && IsSlot(q, c)
  {
    hide Times;
  }
}
