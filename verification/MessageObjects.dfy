/** Objects made in a message on the heap: `new_object` and the constructors over it, each proved against
    the value-level functions of `Pointers`. */
module MessageObjects {
  import opened Ints
  import opened RedBlackTree
  import opened SegmentTable
  import opened MessageHeap
  import opened Options
  import P = Pointers

  /** The segment with an id: what the `seg` of a pointer points at. */
  method SegmentAt(msg: Message, id: nat) returns (g: Segment)
    requires msg.Valid() && id < |msg.mem|
    ensures msg.Valid() && g in msg.table.segs && g.item.id == id && Holds(g.item, msg.mem[id])
  {
    msg.SegNum();
    msg.IdAt(id);
    var found;
    ghost var visits;
    found, visits := msg.table.Lookup(null, id);
    g := found;
  }

  /** A word into segment number `s`. */
  method StoreAt(msg: Message, g: Segment, s: nat, d: nat, w: Word)
    requires msg.Valid() && g in msg.table.segs && g.item.id == s && P.InMem(msg.mem, s, d)
    modifies msg`mem, g.item.data
    ensures msg.Valid() && msg.mem == P.Put(old(msg.mem), s, d, w)
  {
    hide Message.Valid;
    hide Holds;
    msg.Place(g);
    msg.Store(g, d, w);
  }

  /** `new_object`: room in the pointer's segment, else in another one behind a tag word. */
  method NewObject(msg: Message, p: P.Ptr, bytes: int) returns (r: P.Ptr)
    requires msg.Valid() && p.datasz < P.TWO19 && p.ptrs < P.TWO16 && (p.seg.Some? ==> p.seg.value < |msg.mem|)
    modifies msg`mem, msg.table, SetOf(msg.table.segs)`parent, SetOf(msg.table.segs)`link, SetOf(msg.table.segs)`red
    modifies Bodies(msg.table.segs)`next, Bodies(msg.table.segs)`len, Buffers(msg.table.segs)
    ensures msg.Valid() && old(msg.table.segs) <= msg.table.segs
    ensures forall t :: t in msg.table.segs ==>
      t in old(msg.table.segs) || (fresh(t) && fresh(t.item) && fresh(t.item.data))
    ensures P.Made(msg.mem, r) == P.NewObject(old(msg.mem), p, bytes)
  {
    hide Message.Valid;
    hide Holds;
    hide P.TagWord;
    hide P.NewData;
    if p.seg.None? || bytes < 0 {
      return P.NULL;
    }
    if bytes == 0 {
      return p;
    }
    if bytes > INT_MAX - 7 {
      return P.NULL;
    }
    var s := SegmentAt(msg, p.seg.value);
    msg.Place(s);
    var n := (bytes + 7) / 8;
    if msg.Room(s.item, n) {
      var t := s.item.len;
      msg.Bump(s, n);
      return p.(pos := Some(t));
    }
    if 8 * n > INT_MAX - 8 {
      return P.NULL;
    }
    msg.MemSized();
    ghost var m := msg.mem;
    var g, t := msg.NewData(n + 1);
    if g == null {
      return P.NULL;
    }
    NewDataGrows(m, n + 1, p.seg.value);
    msg.Place(g);
    msg.Store(g, t, P.TagWord(p, 0));
    r := p.(seg := Some(g.item.id), pos := Some(t + 1), hasTag := true);
  }

  /** `capn_new_struct`. */
  method NewStruct(msg: Message, s: nat, datasz: int, ptrs: int) returns (r: P.Ptr)
    requires msg.Valid() && s < |msg.mem|
    modifies msg`mem, msg.table, SetOf(msg.table.segs)`parent, SetOf(msg.table.segs)`link, SetOf(msg.table.segs)`red
    modifies Bodies(msg.table.segs)`next, Bodies(msg.table.segs)`len, Buffers(msg.table.segs)
    ensures msg.Valid() && old(msg.table.segs) <= msg.table.segs
    ensures forall t :: t in msg.table.segs ==>
      t in old(msg.table.segs) || (fresh(t) && fresh(t.item) && fresh(t.item.data))
    ensures P.Made(msg.mem, r) == P.NewStruct(old(msg.mem), s, datasz, ptrs)
  {
    hide Message.Valid;
    hide P.NewObject;
    if datasz < 0 || ptrs < 0 || datasz > INT_MAX - 7 {
      return P.NULL;
    }
    var bytes := P.Align(datasz) + 8 * ptrs;
    if bytes > INT_MAX {
      return P.NULL;
    }
    r := NewObject(msg, P.Ptr(P.Struct, false, false, false, P.Align(datasz) % P.TWO19, ptrs % P.TWO16, 0, Some(s),
                              None), bytes);
  }

  /** The header word of a composite list. */
  method WriteHeader(msg: Message, s: nat, d: nat, w: Word)
    requires msg.Valid() && P.InMem(msg.mem, s, d)
    modifies msg`mem, Buffers(msg.table.segs)
    ensures msg.Valid() && msg.mem == P.Put(old(msg.mem), s, d, w)
  {
    hide Message.Valid;
    hide Holds;
    var g := SegmentAt(msg, s);
    StoreAt(msg, g, s, d, w);
  }

  /** `capn_new_list`: composite lists get a header word in front of their elements. */
  method NewList(msg: Message, s: nat, sz: int, datasz: int, ptrs: int) returns (r: P.Ptr)
    requires msg.Valid() && s < |msg.mem|
    modifies msg`mem, msg.table, SetOf(msg.table.segs)`parent, SetOf(msg.table.segs)`link, SetOf(msg.table.segs)`red
    modifies Bodies(msg.table.segs)`next, Bodies(msg.table.segs)`len, Buffers(msg.table.segs)
    ensures msg.Valid() && old(msg.table.segs) <= msg.table.segs
    ensures forall t :: t in msg.table.segs ==>
      t in old(msg.table.segs) || (fresh(t) && fresh(t.item) && fresh(t.item.data))
    ensures P.Made(msg.mem, r) == P.NewList(old(msg.mem), s, sz, datasz, ptrs)
  {
    hide Message.Valid;
    hide Holds;
    hide P.NewObject;
    hide P.ListHeader;
    hide P.Times;
    var p := P.Ptr(P.List, false, false, false, 0, 0, sz, Some(s), None);
    if sz == 0 {
      return p;
    }
    if ptrs != 0 || datasz > 8 {
      if datasz > INT_MAX - 7 || sz < 0 || ptrs < 0 {
        return P.NULL;
      }
      p := p.(composite := true, datasz := P.Align(datasz) % P.TWO19, ptrs := ptrs % P.TWO16);
      var bytes := P.Times(sz, p.datasz + 8 * p.ptrs) + 8;
      if bytes > INT_MAX || sz > INT_MAX {
        return P.NULL;
      }
      P.LongList(sz, p.datasz, p.ptrs);
      ghost var m := msg.mem;
      r := NewObject(msg, p, bytes);
      if r.pos.Some? {
        InNewObject(m, p, bytes);
        WriteHeader(msg, r.seg.value, r.pos.value, P.ListHeader(sz, p.datasz, p.ptrs));
        r := r.(pos := Some(r.pos.value + 1));
      }
      return;
    }
    if sz < 0 || datasz < 0 {
      return P.NULL;
    }
    var unit := if datasz > 4 then 8 else if datasz > 2 then 4 else datasz;
    if P.Times(sz, unit) > INT_MAX {
      return P.NULL;
    }
    r := NewObject(msg, p.(datasz := unit), P.Times(sz, unit));
  }

  lemma InNewObject(m: P.Mem, p: P.Ptr, bytes: int)
    requires p.datasz < P.TWO19 && p.ptrs < P.TWO16 && (p.seg.Some? ==> p.seg.value < |m|) && p.pos.None?
    ensures var r := P.NewObject(m, p, bytes);
      r.ptr.pos.Some? ==> r.ptr.seg.Some? && P.InMem(r.mem, r.ptr.seg.value, r.ptr.pos.value)
  {
    hide P.TagWord;
  }

  /** `capn_new_list1`. */
  method NewBitList(msg: Message, s: nat, sz: int) returns (r: P.Ptr)
    requires msg.Valid() && s < |msg.mem|
    modifies msg`mem, msg.table, SetOf(msg.table.segs)`parent, SetOf(msg.table.segs)`link, SetOf(msg.table.segs)`red
    modifies Bodies(msg.table.segs)`next, Bodies(msg.table.segs)`len, Buffers(msg.table.segs)
    ensures msg.Valid() && old(msg.table.segs) <= msg.table.segs
    ensures forall t :: t in msg.table.segs ==>
      t in old(msg.table.segs) || (fresh(t) && fresh(t.item) && fresh(t.item.data))
    ensures P.Made(msg.mem, r) == P.NewBitList(old(msg.mem), s, sz)
  {
    hide Message.Valid;
    hide P.NewObject;
    if sz < 0 || sz > INT_MAX - 7 {
      return P.NULL;
    }
    var bytes := (sz + 7) / 8 % P.TWO19;
    r := NewObject(msg, P.Ptr(P.BitList, false, false, false, bytes, 0, sz, Some(s), None), bytes);
  }

  /** `capn_new_ptr_list`. */
  method NewPtrList(msg: Message, s: nat, sz: int) returns (r: P.Ptr)
    requires msg.Valid() && s < |msg.mem|
    modifies msg`mem, msg.table, SetOf(msg.table.segs)`parent, SetOf(msg.table.segs)`link, SetOf(msg.table.segs)`red
    modifies Bodies(msg.table.segs)`next, Bodies(msg.table.segs)`len, Buffers(msg.table.segs)
    ensures msg.Valid() && old(msg.table.segs) <= msg.table.segs
    ensures forall t :: t in msg.table.segs ==>
      t in old(msg.table.segs) || (fresh(t) && fresh(t.item) && fresh(t.item.data))
    ensures P.Made(msg.mem, r) == P.NewPtrList(old(msg.mem), s, sz)
  {
    hide Message.Valid;
    hide P.NewObject;
    if sz < 0 || 8 * sz > INT_MAX {
      return P.NULL;
    }
    r := NewObject(msg, P.Ptr(P.PtrList, false, false, false, 0, 0, sz, Some(s), None), 8 * sz);
  }

  /** `capn_root`: the slot at the start of the first segment, made when the message is empty. */
  method Root(msg: Message) returns (r: P.Ptr)
    requires msg.Valid()
    modifies msg`mem, msg.table, SetOf(msg.table.segs)`parent, SetOf(msg.table.segs)`link, SetOf(msg.table.segs)`red
    modifies Bodies(msg.table.segs)`next, Bodies(msg.table.segs)`len, Buffers(msg.table.segs)
    ensures msg.Valid() && old(msg.table.segs) <= msg.table.segs
    ensures r == P.NULL || r == P.Ptr(P.PtrList, false, false, false, 0, 0, 1, Some(0), Some(0))
    ensures r != P.NULL ==> P.InMem(msg.mem, 0, 0)
    ensures old(msg.mem) != [] ==>
      var m := old(msg.mem);
      && (r == P.NULL <==> m[0].cap < 1)
      && msg.mem == if m[0].cap >= 1 && m[0].words == [] then m[0 := m[0].(words := [0])] else m
    ensures old(msg.mem) == [] ==>
      match P.NewData([], 1)
      case NoRoom => r == P.NULL && msg.mem == []
      case Alloc(m, _, _) => r != P.NULL && msg.mem == m
  {
    hide Message.Valid;
    hide Holds;
    hide P.CreateCap;
    r := P.Ptr(P.PtrList, false, false, false, 0, 0, 1, Some(0), Some(0));
    msg.SegNum();
    var s: Node?<Body> := null;
    if msg.table.segnum > 0 {
      s := SegmentAt(msg, 0);
    }
    if s == null {
      var t;
      s, t := msg.NewData(1);
      if s == null {
        return P.NULL;
      }
      return;
    }
    msg.Place(s);
    if s.item.data.Length < 1 {
      return P.NULL;
    }
    if s.item.len < 1 {
      FirstWord(msg, s);
    }
  }

  /** The root slot in an empty first segment. */
  method FirstWord(msg: Message, s: Segment)
    requires msg.Valid() && s in msg.table.segs && s.item.id == 0 && s.item.len == 0 && s.item.data.Length >= 1
    modifies msg`mem, s.item`len, s.item.data
    ensures msg.Valid() && old(msg.mem) != [] && old(msg.mem[0].words) == []
    ensures msg.mem == old(msg.mem)[0 := old(msg.mem)[0].(words := [0])]
  {
    hide Message.Valid;
    hide Holds;
    msg.Place(s);
    ghost var m := msg.mem;
    msg.Bump(s, 1);
    assert m[0].words + P.Zeros(1) == [0];
  }

  /** `write_ptr` into word `d` of segment number `s`. */
  method WriteAt(msg: Message, s: nat, d: nat, p: P.Ptr, foreign: bool) returns (err: int)
    requires msg.Valid() && P.InMem(msg.mem, s, d) && P.Sized(msg.mem) && p.datasz < P.TWO19 && p.ptrs < P.TWO16
    requires p.seg.Some? && !foreign ==> p.seg.value < |msg.mem|
    modifies msg`mem, msg.table, SetOf(msg.table.segs)`parent, SetOf(msg.table.segs)`link, SetOf(msg.table.segs)`red
    modifies Bodies(msg.table.segs)`next, Bodies(msg.table.segs)`len, Buffers(msg.table.segs)
    ensures msg.Valid() && old(msg.table.segs) <= msg.table.segs
    ensures forall g :: g in msg.table.segs ==>
      g in old(msg.table.segs) || (fresh(g) && fresh(g.item) && fresh(g.item.data))
    ensures match P.WritePtr(old(msg.mem), s, d, p, foreign)
            case Wrote(m) => err == 0 && msg.mem == m
            case Refused => err == -1 && msg.mem == old(msg.mem)
            case NeedToCopy => err == 1 && msg.mem == old(msg.mem)
  {
    hide Message.Valid;
    hide Holds;
    hide P.WritePtr;
    var g := SegmentAt(msg, s);
    msg.Place(g);
    err := msg.Write(g, d, p, foreign);
  }
}
