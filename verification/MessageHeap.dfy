/** A message on the heap: segments with word buffers, filled in place.  Every method is proved
    against the value-level functions of `Pointers`. */
module MessageHeap {
  import opened Ints
  import opened RedBlackTree
  import opened SegmentTable
  import opened Options
  import P = Pointers

  /** The buffer holds the words of `g`, and zeros behind them. */
  ghost predicate Holds(b: Body, g: P.Seg)
    reads b`len, b.data
  {
    && b.data.Length == g.cap && b.len == |g.words| <= g.cap && 8 * g.cap <= INT_MAX
    && (forall k :: 0 <= k < b.len ==> b.data[k] == g.words[k])
    && (forall k :: b.len <= k < g.cap ==> b.data[k] == 0)
  }

  ghost function Buffers(segs: seq<Segment>): set<array<Word>> {
    set s | s in segs :: s.item.data
  }

  ghost predicate OwnBuffers(segs: seq<Segment>) {
    forall i, j :: 0 <= i < j < |segs| ==> segs[i].item.data != segs[j].item.data
  }

  ghost predicate AllHold(segs: seq<Segment>, mem: P.Mem)
    reads Bodies(segs)`len, Buffers(segs)
  {
    |mem| == |segs| && forall i :: 0 <= i < |mem| ==> Holds(segs[i].item, mem[i])
  }

  lemma AllHoldSnoc(segs: seq<Segment>, mem: P.Mem, s: Segment, g: P.Seg)
    requires AllHold(segs, mem) && Holds(s.item, g)
    ensures AllHold(segs + [s], mem + [g])
  {
  }

  class Message {
    const table: Table
    /** The message as a value. */
    ghost var mem: P.Mem

    ghost predicate Valid()
      reads this, table, SetOf(table.segs), Bodies(table.segs), Buffers(table.segs)
    {
      table.Valid() && OwnBuffers(table.segs) && AllHold(table.segs, mem)
    }

    constructor ()
      ensures Valid() && mem == [] && fresh(table)
    {
      table := new Table();
      mem := [];
    }

    lemma MemSized()
      requires Valid()
      ensures P.Sized(mem)
    {
      assert forall i :: 0 <= i < |mem| ==> Holds(table.segs[i].item, mem[i]);
    }

    /** A segment stands in the list at its id. */
    lemma Place(s: Segment)
      requires Valid() && s in table.segs
      ensures s.item.id < |mem| == |table.segs| && table.segs[s.item.id] == s && Holds(s.item, mem[s.item.id])
      ensures s.item.len == |mem[s.item.id].words| <= s.item.data.Length == mem[s.item.id].cap
    {
    }

    lemma IdAt(i: nat)
      requires Valid() && i < |mem|
      ensures |mem| == |table.segs| && table.segs[i].item.id == i
      ensures table.segs[i].item.next == if i + 1 < |mem| then table.segs[i + 1] else null
    {
      table.Next(i);
    }

    lemma DistinctSegments(s: Segment, g: Segment)
      requires Valid() && s in table.segs && g in table.segs && s != g
      ensures s.item != g.item && s.item.data != g.item.data && s.item.id != g.item.id
    {
    }

    /** No other segment shares the body or the buffer of segment `s`, which stands at its id. */
    ghost predicate Alone(s: Segment)
      reads table, s.item`id
    {
      && s.item.id < |table.segs| && table.segs[s.item.id] == s
      && forall i :: 0 <= i < |table.segs| && i != s.item.id ==>
           table.segs[i].item != s.item && table.segs[i].item.data != s.item.data
    }

    lemma Others(s: Segment)
      requires Valid() && s in table.segs
      ensures Alone(s)
    {
    }

    /** `*(uint64_t*)d = w` for a word inside a segment. */
    method Store(s: Segment, d: nat, w: Word)
      requires Valid() && s in table.segs && d < s.item.len
      modifies this`mem, s.item.data
      ensures Valid() && P.InMem(old(mem), s.item.id, d) && mem == P.Put(old(mem), s.item.id, d, w)
    {
      hide AllHold;
      hide Done;
      Place(s);
      Others(s);
      StoreOnly(s, d, w);
    }

    /** A word in a buffer leaves every other buffer alone. */
    method StoreOnly(s: Segment, d: nat, w: Word)
      requires AllHold(table.segs, mem) && Alone(s) && d < s.item.len
      modifies this`mem, s.item.data
      ensures P.InMem(old(mem), s.item.id, d) && mem == P.Put(old(mem), s.item.id, d, w) && AllHold(table.segs, mem)
    {
      assert Holds(s.item, mem[s.item.id]);
      s.item.data[d] := w;
      mem := P.Put(mem, s.item.id, d, w);
    }

    /** `s->len += n`, with room for it. */
    method Bump(s: Segment, n: nat)
      requires Valid() && s in table.segs && s.item.len + n <= s.item.data.Length
      modifies this`mem, s.item`len
      ensures Valid() && s.item.id < |old(mem)| && mem == P.Push(old(mem), s.item.id, P.Zeros(n))
      ensures s.item.len == old(s.item.len) + n
    {
      hide AllHold;
      hide Done;
      Place(s);
      Others(s);
      BumpOnly(s, n);
    }

    /** A longer segment leaves every other one alone. */
    method BumpOnly(s: Segment, n: nat)
      requires AllHold(table.segs, mem) && Alone(s) && s.item.len + n <= s.item.data.Length
      modifies this`mem, s.item`len
      ensures s.item.id < |old(mem)| && mem == P.Push(old(mem), s.item.id, P.Zeros(n)) && AllHold(table.segs, mem)
      ensures s.item.len == old(s.item.len) + n
    {
      assert Holds(s.item, mem[s.item.id]);
      s.item.len := s.item.len + n;
      mem := P.Push(mem, s.item.id, P.Zeros(n));
    }

    /** An empty segment joins the message. */
    method Attach(s: Segment, ghost g: P.Seg)
      requires Valid() && |mem| < UINT32_MAX && Holds(s.item, g)
      requires s !in table.segs && s.item !in Bodies(table.segs) && s.item.data !in Buffers(table.segs)
      modifies this`mem, table, SetOf(table.segs + [s])`parent, SetOf(table.segs + [s])`link,
        SetOf(table.segs + [s])`red
      modifies Bodies(table.segs)`next, s.item`next, s.item`id
      ensures Valid() && table.segs == old(table.segs) + [s] && mem == old(mem) + [g]
    {
      SegNum();
      JoinBuffers(table.segs, s);
      AllHoldSnoc(table.segs, mem, s, g);
      mem := mem + [g];
      AppendOnly(s);
    }

    /** Linking a segment into the table leaves every buffer alone. */
    method AppendOnly(s: Segment)
      requires table.Valid() && table.segnum < UINT32_MAX && AllHold(table.segs + [s], mem)
      requires s !in table.segs && s.item !in Bodies(table.segs)
      modifies table, SetOf(table.segs + [s])`parent, SetOf(table.segs + [s])`link, SetOf(table.segs + [s])`red
      modifies Bodies(table.segs)`next, s.item`next, s.item`id
      ensures table.Valid() && table.segs == old(table.segs) + [s] && AllHold(table.segs, mem)
    {
      hide Table.Valid;
      hide AllHold;
      ghost var now, m := table.segs + [s], mem;
      assert AllHold(now, m);
      assert forall b | b in Bodies(now) :: allocated(b);
      assert forall d | d in Buffers(now) :: allocated(d);
      table.Append(s);
      assert AllHold(now, m);
    }

    lemma JoinBuffers(segs: seq<Segment>, s: Segment)
      requires OwnBuffers(segs) && s.item.data !in Buffers(segs)
      ensures OwnBuffers(segs + [s])
    {
      assert forall t :: t in segs ==> t.item.data in Buffers(segs);
    }

    /** A new empty segment at the end of the message. */
    method AddSegment(cap: nat) returns (s: Segment)
      requires Valid() && |mem| < UINT32_MAX && 8 * cap <= INT_MAX
      modifies this`mem, table, SetOf(table.segs)`parent, SetOf(table.segs)`link, SetOf(table.segs)`red
      modifies Bodies(table.segs)`next
      ensures Valid() && table.segs == old(table.segs) + [s] && mem == old(mem) + [P.Seg([], cap)]
      ensures fresh(s) && fresh(s.item) && fresh(s.item.data) && s.item.len == 0 && s.item.data.Length == cap
    {
      hide Valid;
      var b := new Body(cap);
      s := new Node(b);
      assert s.item !in Bodies(table.segs) && s.item.data !in Buffers(table.segs);
      assert SetOf(table.segs + [s]) == SetOf(table.segs) + {s};
      Attach(s, P.Seg([], cap));
    }

    lemma SegNum()
      requires Valid()
      ensures table.segnum == |mem| == |table.segs|
    {
    }

    /** `seg_room` for `n` words. */
    predicate Room(b: Body, n: nat)
      reads b`len
    {
      8 * (b.len + n) <= INT_MAX && b.len + n <= b.data.Length
    }

    /** The segment loop of `new_data`. */
    method FindRoom(n: nat) returns (s: Node?<Body>)
      requires Valid()
      ensures Valid()
      ensures var i := P.FirstRoom(mem, n, 0); s == if i < |mem| then table.segs[i] else null
    {
      hide Valid;
      hide Holds;
      First();
      s := table.seglist;
      ghost var i := 0;
      while s != null && !Room(s.item, n)
        invariant Valid()
        invariant 0 <= i <= |mem| && s == if i < |mem| then table.segs[i] else null
        invariant forall j :: 0 <= j < i ==> !P.Room(mem[j], n)
        decreases |mem| - i
      {
        IdAt(i);
        Place(s);
        s := s.item.next;
        i := i + 1;
      }
      if s != null {
        IdAt(i);
        Place(s);
      }
      FirstRoomAt(mem, n, 0, i);
    }

    lemma First()
      requires Valid()
      ensures |mem| == |table.segs| && table.seglist == if |mem| == 0 then null else table.segs[0]
    {
    }

    /** A new segment for `n` words, when the allocator can make one. */
    method Create(n: nat) returns (s: Node?<Body>)
      requires Valid()
      modifies this`mem, table, SetOf(table.segs)`parent, SetOf(table.segs)`link, SetOf(table.segs)`red
      modifies Bodies(table.segs)`next
      ensures Valid() && old(table.segs) <= table.segs
      ensures var c := P.CreateCap(n);
        if c.Some? && |old(mem)| < UINT32_MAX && P.Room(P.Seg([], c.value), n)
        then s != null && fresh(s.item) && fresh(s.item.data) && table.segs == old(table.segs) + [s]
          && mem == old(mem) + [P.Seg([], c.value)]
        else s == null && mem == old(mem) && table.segs == old(table.segs)
      ensures forall t :: t in table.segs ==> t in old(table.segs) || (fresh(t) && fresh(t.item) && fresh(t.item.data))
    {
      hide Table.ListOk;
      hide Table.TreeOk;
      hide Holds;
      hide OwnBuffers;
      s := null;
      SegNum();
      var cap := CreateCap(n);
      if cap >= 0 && table.segnum < UINT32_MAX && 8 * n <= INT_MAX && n <= cap {
        s := AddSegment(cap);
      }
    }

    /** `new_data`: `n` words in the first segment with room, or in a new segment. */
    method NewData(n: nat) returns (s: Node?<Body>, pos: nat)
      requires Valid()
      modifies this`mem, table, SetOf(table.segs)`parent, SetOf(table.segs)`link, SetOf(table.segs)`red
      modifies Bodies(table.segs)`next, Bodies(table.segs)`len
      ensures Valid() && old(table.segs) <= table.segs
      ensures match P.NewData(old(mem), n)
              case NoRoom => s == null && mem == old(mem)
              case Alloc(m, g, t) => s != null && s in table.segs && s.item.id == g && pos == t && mem == m
      ensures s != null ==> s in old(table.segs) || fresh(s.item.data)
      ensures forall t :: t in table.segs ==> t in old(table.segs) || (fresh(t) && fresh(t.item) && fresh(t.item.data))
    {
      hide Valid;
      hide Holds;
      hide Table.ListOk;
      hide Table.TreeOk;
      hide P.CreateCap;
      pos := 0;
      s := FindRoom(n);
      SegNum();
      if s == null {
        s := Create(n);
        if s == null {
          return;
        }
        assert table.segs[|mem| - 1] == s;
        IdAt(|mem| - 1);
        PushEmpty(old(mem), mem[|mem| - 1].cap, n);
      } else {
        IdAt(P.FirstRoom(mem, n, 0));
      }
      Place(s);
      pos := s.item.len;
      Bump(s, n);
    }

    /** A segment found by id, as an object and as a value. */
    method Find(hint: Segment, id: nat) returns (g: Node?<Body>)
      requires Valid() && hint in table.segs
      ensures Valid()
      ensures if id < |mem| then g != null && g in table.segs && g.item.id == id && Holds(g.item, mem[id])
        else g == null
    {
      SegNum();
      ghost var visits;
      g, visits := table.Lookup(hint, id);
      if g != null {
        Place(g);
        table.Next(id);
      }
    }

    /** `lookup_far`. */
    method LookupFar(s: Segment, d: nat, val: Word) returns (h: P.Hop, g: Node?<Body>)
      requires Valid() && s in table.segs
      ensures h == P.LookupFar(mem, s.item.id, d, val) && Carries(h, g)
    {
      g := Find(s, P.Hi(val));
      if g == null {
        return P.Hop(None, (s.item.id, d), 0, true), g;
      }
      var off := P.Low(val) / 8;
      if off + 1 > g.item.len {
        return P.Hop(Some(g.item.id), (s.item.id, d), 0, true), g;
      }
      var w := g.item.data[off];
      h := P.Hop(Some(g.item.id), (g.item.id, off), w, P.Field(w) == 0);
    }

    /** `lookup_double`. */
    method LookupDouble(s: Segment, d: nat, val: Word) returns (h: P.Hop, g: Node?<Body>)
      requires Valid() && s in table.segs
      ensures h == P.LookupDouble(mem, s.item.id, d, val) && Carries(h, g)
    {
      hide Valid;
      g := Find(s, P.Hi(val));
      if g == null {
        return P.Hop(None, (s.item.id, d), 0, false), g;
      }
      var off := P.Low(val) / 8;
      if off + 2 > g.item.len {
        return P.Hop(Some(g.item.id), (s.item.id, d), 0, false), g;
      }
      var far, tag := g.item.data[off], g.item.data[off + 1];
      if far % 8 != 2 || P.Low(tag) > 1 {
        return P.Hop(Some(g.item.id), (s.item.id, d), 0, false), g;
      }
      g := Find(g, P.Hi(far));
      if g == null {
        return P.Hop(None, (s.item.id, d), 0, false), g;
      }
      var words: int := P.Low(far) / 8;
      h := P.Hop(Some(g.item.id), (g.item.id, 0), P.Pack(P.Low(tag), (words - 1) % P.TWO30, P.Hi(tag)), false);
    }

    /** `g` is the segment that `h` names. */
    ghost predicate Carries(h: P.Hop, g: Node?<Body>)
      requires Valid()
      reads this, table, SetOf(table.segs), Bodies(table.segs), Buffers(table.segs)
    {
      if h.seg.None? then g == null
      else g != null && g in table.segs && g.item.id == h.seg.value < |mem| && Holds(g.item, mem[h.seg.value])
    }

    /** `read_ptr`: follow the word in a slot to the object it names. */
    method Read(s: Segment, d: nat) returns (p: P.Ptr)
      requires Valid() && s in table.segs
      ensures s.item.id < |mem| && p == P.ReadPtr(mem, s.item.id, d)
    {
      hide Valid;
      hide P.LookupFar;
      hide P.LookupDouble;
      hide P.Object;
      Place(s);
      if d >= s.item.len {
        return P.NULL;
      }
      var val := s.item.data[d];
      var h, g: Node?<Body> := P.Hop(Some(s.item.id), (s.item.id, d), val, false), s;
      if val % 8 == 2 {
        h, g := LookupFar(s, d, val);
      } else if val % 8 == 6 {
        h, g := LookupDouble(s, d, val);
      }
      if g == null || h.at.0 != g.item.id || !(0 <= h.at.1 <= g.item.len) {
        return P.NULL;
      }
      var pos := h.at.1 + P.Signed(P.Field(h.val)) + 1;
      if !(0 <= pos <= g.item.len) {
        return P.NULL;
      }
      var tag: Word := if pos < g.item.len then g.item.data[pos] else 0;
      p := P.Object(8 * (g.item.len - pos), tag, g.item.id, pos, h.val, h.tagged);
    }

    /** One more word at the end of a segment with room for it. */
    method Append(s: Segment, w: Word)
      requires Valid() && s in table.segs && Room(s.item, 1)
      modifies this`mem, s.item`len, s.item.data
      ensures Valid() && s.item.id < |old(mem)| && mem == P.Push(old(mem), s.item.id, [w])
      ensures s.item.len == old(s.item.len) + 1
    {
      hide Valid;
      hide Holds;
      ghost var m := mem;
      Place(s);
      Bump(s, 1);
      Store(s, s.item.len - 1, w);
      PushOne(m, s.item.id, w);
    }

    /** A tag word behind the target's segment and a far word to it. */
    method LinkByTag(s: Segment, d: nat, p: P.Ptr, g: Segment, start: nat)
      requires Valid() && s in table.segs && g in table.segs && d < s.item.len && Room(g.item, 1)
      requires p.datasz < P.TWO19 && p.ptrs < P.TWO16 && s != g
      modifies this`mem, g.item`len, g.item.data, s.item.data
      ensures Valid() && P.Sized(old(mem)) && P.InMem(old(mem), s.item.id, d) && g.item.id < |old(mem)|
      ensures mem == P.WriteByTag(old(mem), s.item.id, d, p, g.item.id, start)
    {
      hide Valid;
      hide Holds;
      hide P.TagWord;
      hide P.FarWordTo;
      MemSized();
      Place(s);
      Place(g);
      DistinctSegments(s, g);
      var t := g.item.len;
      Append(g, P.TagWord(p, start - t - 1));
      Store(s, d, P.FarWordTo(g.item.data.Length, false, g.item.id, Some(t)));
    }

    /** A landing pad in the slot's own segment, else anywhere, and a double far word to it. */
    method LinkByPad(s: Segment, d: nat, p: P.Ptr, g: Segment, start: Option<nat>) returns (err: int)
      requires Valid() && s in table.segs && g in table.segs && d < s.item.len
      requires p.datasz < P.TWO19 && p.ptrs < P.TWO16
      modifies this`mem, table, SetOf(table.segs)`parent, SetOf(table.segs)`link, SetOf(table.segs)`red
      modifies Bodies(table.segs)`next, Bodies(table.segs)`len, Buffers(table.segs)
      ensures Valid() && old(table.segs) <= table.segs && s.item.id == old(s.item.id)
      ensures P.Sized(old(mem)) && P.InMem(old(mem), s.item.id, d) && old(g.item.id) < |old(mem)|
      ensures match P.WriteByPad(old(mem), s.item.id, d, p, old(g.item.id), start)
              case Wrote(m) => err == 0 && mem == m
              case Refused => err == -1 && mem == old(mem)
              case NeedToCopy => false
      ensures forall t :: t in table.segs ==> t in old(table.segs) || (fresh(t) && fresh(t.item) && fresh(t.item.data))
    {
      hide Valid;
      hide Holds;
      hide P.TagWord;
      hide P.FarWordTo;
      hide P.NewData;
      MemSized();
      Place(s);
      Place(g);
      var far := P.FarWordTo(g.item.data.Length, false, g.item.id, start);
      var tag := P.TagWord(p, 0);
      if Room(s.item, 2) {
        var t := s.item.len;
        LinkInPlace(s, d, far, tag);
        return 0;
      }
      err := LinkElsewhere(s, d, far, tag);
    }

    /** The landing pad goes where two words can be had. */
    method LinkElsewhere(s: Segment, d: nat, far: Word, tag: Word) returns (err: int)
      requires Valid() && s in table.segs && d < s.item.len
      modifies this`mem, table, SetOf(table.segs)`parent, SetOf(table.segs)`link, SetOf(table.segs)`red
      modifies Bodies(table.segs)`next, Bodies(table.segs)`len, Buffers(table.segs)
      ensures Valid() && old(table.segs) <= table.segs && s.item.id == old(s.item.id)
      ensures P.Sized(old(mem)) && P.InMem(old(mem), s.item.id, d)
      ensures match P.PadElsewhere(old(mem), s.item.id, d, far, tag)
              case Wrote(m) => err == 0 && mem == m
              case Refused => err == -1 && mem == old(mem)
              case NeedToCopy => false
      ensures forall t :: t in table.segs ==> t in old(table.segs) || (fresh(t) && fresh(t.item) && fresh(t.item.data))
    {
      hide Valid;
      hide Holds;
      hide P.FarWordTo;
      hide P.NewData;
      MemSized();
      Place(s);
      ghost var id, m := s.item.id, mem;
      var h, t := NewData(2);
      if h == null {
        return -1;
      }
      P.NewDataSized(m, 2);
      NewDataGrows(m, 2, id);
      Place(s);
      Place(h);
      Store(h, t, far);
      Store(h, t + 1, tag);
      Place(s);
      Store(s, d, P.FarWordTo(h.item.data.Length, true, h.item.id, Some(t)));
      return 0;
    }

    /** The landing pad fits behind the slot's own segment. */
    method LinkInPlace(s: Segment, d: nat, far: Word, tag: Word)
      requires Valid() && s in table.segs && d < s.item.len && Room(s.item, 2)
      modifies this`mem, s.item`len, s.item.data
      ensures Valid() && P.Sized(old(mem)) && P.InMem(old(mem), s.item.id, d)
      ensures var m, id := old(mem), s.item.id;
        mem == P.Put(P.Push(m, id, [far, tag]), id, d, P.FarWord(m, true, id, Some(|m[id].words|)))
    {
      hide Valid;
      hide Holds;
      hide P.FarWordTo;
      ghost var m := mem;
      MemSized();
      Place(s);
      var t := s.item.len;
      Bump(s, 2);
      Store(s, t, far);
      Store(s, t + 1, tag);
      PushTwo(m, s.item.id, far, tag);
      Store(s, d, P.FarWordTo(s.item.data.Length, true, s.item.id, Some(t)));
    }

    /** `write_ptr`: 0, -1, or 1 when the target must be copied first. */
    method Write(s: Segment, d: nat, p: P.Ptr, foreign: bool) returns (err: int)
      requires Valid() && s in table.segs && d < s.item.len && p.datasz < P.TWO19 && p.ptrs < P.TWO16
      requires p.seg.Some? && !foreign ==> p.seg.value < |mem|
      modifies this`mem, table, SetOf(table.segs)`parent, SetOf(table.segs)`link, SetOf(table.segs)`red
      modifies Bodies(table.segs)`next, Bodies(table.segs)`len, Buffers(table.segs)
      ensures Valid() && old(table.segs) <= table.segs && s.item.id == old(s.item.id)
      ensures P.Sized(old(mem)) && P.InMem(old(mem), s.item.id, d)
      ensures match P.WritePtr(old(mem), s.item.id, d, p, foreign)
              case Wrote(m) => err == 0 && mem == m
              case Refused => err == -1 && mem == old(mem)
              case NeedToCopy => err == 1 && mem == old(mem)
      ensures forall t :: t in table.segs ==> t in old(table.segs) || (fresh(t) && fresh(t.item) && fresh(t.item.data))
    {
      hide P.TagWord;
      hide P.FarWordTo;
      hide P.NewData;
      hide P.WriteByTag;
      hide P.WriteByPad;
      hide Valid;
      hide Holds;
      MemSized();
      Place(s);
      if p.kind == P.Null || (p.kind == P.Struct && p.datasz == 0 && p.ptrs == 0) {
        Store(s, d, P.TagWord(p, 0));
        return 0;
      } else if p.seg.None? || foreign || p.member {
        return 1;
      }
      var g := Find(s, p.seg.value);
      Place(g);
      IdAt(s.item.id);
      var start := P.DataStartIn(g.item.data.Length, p);
      if g == s {
        if start.None? || start.value > s.item.data.Length {
          return -1;
        }
        Store(s, d, P.TagWord(p, start.value - d - 1));
        return 0;
      }
      DistinctSegments(s, g);
      if p.hasTag {
        if start.None? || start.value > g.item.data.Length || start.value < 1 {
          return -1;
        }
        Store(s, d, P.FarWordTo(g.item.data.Length, false, g.item.id, Some(start.value - 1)));
        return 0;
      }
      err := WriteAway(s, d, p, g, start);
    }

    /** The target lies in another segment and has no tag word yet. */
    method WriteAway(s: Segment, d: nat, p: P.Ptr, g: Segment, start: Option<nat>) returns (err: int)
      requires Valid() && s in table.segs && g in table.segs && d < s.item.len && s != g
      requires p.datasz < P.TWO19 && p.ptrs < P.TWO16
      modifies this`mem, table, SetOf(table.segs)`parent, SetOf(table.segs)`link, SetOf(table.segs)`red
      modifies Bodies(table.segs)`next, Bodies(table.segs)`len, Buffers(table.segs)
      ensures Valid() && old(table.segs) <= table.segs && s.item.id == old(s.item.id)
      ensures P.Sized(old(mem)) && P.InMem(old(mem), s.item.id, d) && old(g.item.id) < |old(mem)|
      ensures match P.WriteTagged(old(mem), s.item.id, d, p, old(g.item.id), start)
              case Wrote(m) => err == 0 && mem == m
              case Refused => err == -1 && mem == old(mem)
              case NeedToCopy => false
      ensures forall t :: t in table.segs ==> t in old(table.segs) || (fresh(t) && fresh(t.item) && fresh(t.item.data))
    {
      hide P.WriteByTag;
      hide P.WriteByPad;
      hide Valid;
      hide Holds;
      MemSized();
      Place(s);
      Place(g);
      if Room(g.item, 1) {
        if start.None? || start.value > g.item.data.Length {
          return -1;
        }
        LinkByTag(s, d, p, g, start.value);
        return 0;
      }
      err := LinkByPad(s, d, p, g, start);
    }
  }

  /** The size arithmetic of the allocator; -1 when a segment of that size cannot be. */
  method CreateCap(n: nat) returns (cap: int)
    ensures match P.CreateCap(n) case None => cap == -1 case Some(c) => cap == c
    ensures 8 * cap <= INT_MAX
  {
    var sz := 8 * n;
    if sz > INT_MAX - 80 {
      return -1;
    }
    sz := sz + 80;
    if sz < 4096 {
      sz := 4096;
    } else {
      if sz > INT_MAX - 4095 {
        return -1;
      }
      sz := (sz + 4095) / 4096 * 4096;
    }
    cap := (sz - 80) / 8;
  }

  lemma PushOne(m: P.Mem, g: nat, w: Word)
    requires g < |m|
    ensures P.Put(P.Push(m, g, P.Zeros(1)), g, |m[g].words|, w) == P.Push(m, g, [w])
  {
    assert (m[g].words + P.Zeros(1))[|m[g].words| := w] == m[g].words + [w];
  }

  lemma NewDataGrows(m: P.Mem, n: nat, s: nat)
    requires P.Sized(m) && P.NewData(m, n).Alloc? && s < |m|
    ensures var a := P.NewData(m, n);
      && |m| <= |a.mem| && |m[s].words| <= |a.mem[s].words| && a.seg < |a.mem| && |a.mem[a.seg].words| == a.pos + n
  {
    P.NewDataFresh(m, n);
  }

  lemma PushTwo(m: P.Mem, g: nat, w0: Word, w1: Word)
    requires g < |m|
    ensures var t := |m[g].words|;
      P.Put(P.Put(P.Push(m, g, P.Zeros(2)), g, t, w0), g, t + 1, w1) == P.Push(m, g, [w0, w1])
  {
    var t := |m[g].words|;
    assert (m[g].words + P.Zeros(2))[t := w0][t + 1 := w1] == m[g].words + [w0, w1];
  }

  lemma PushEmpty(m: P.Mem, cap: nat, n: nat)
    ensures P.Push(m + [P.Seg([], cap)], |m|, P.Zeros(n)) == m + [P.Seg(P.Zeros(n), cap)]
  {
    assert [] + P.Zeros(n) == P.Zeros(n);
  }

  lemma {:induction false} FirstRoomAt(m: P.Mem, n: nat, from: nat, i: nat)
    requires from <= i <= |m| && (i < |m| ==> P.Room(m[i], n)) && forall j :: from <= j < i ==> !P.Room(m[j], n)
    ensures P.FirstRoom(m, n, from) == i
    decreases i - from
  {
    if from < i {
      FirstRoomAt(m, n, from + 1, i);
    }
  }
}
