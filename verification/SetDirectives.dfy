/** How the deck renderer of cpmdc_params.c merges `SECTION.KEYWORD` directives into the sections it
    writes, and opens sections of their own for those that are left. */
module SetDirectives {
  import opened Options

  type Text = seq<char>

  const MAX_SET_DIRECTIVES: nat := 128
  const MAX_SECTION_NAME: nat := 64

  datatype Directive = Directive(section: Text, keyword: Text, value: Text)

  function Upper(c: char): char {
    if 'a' <= c <= 'z' then (c as int - 'a' as int + 'A' as int) as char else c
  }

  /** Equal but for the case of ASCII letters: `section_name_equals`, `set_sections_equal`. */
  predicate SameName(a: Text, b: Text) {
    |a| == |b| && forall i :: 0 <= i < |a| ==> Upper(a[i]) == Upper(b[i])
  }

  /** A name copied into a C string ends at its first zero character. */
  function CString(s: Text): Text {
    if s == [] || s[0] == '\0' then [] else [s[0]] + CString(s[1..])
  }

  lemma {:induction false} CStringWhole(s: Text)
    ensures CString(s) == s <==> '\0' !in s
    ensures CString(s) <= s
  {
    if s != [] && s[0] != '\0' {
      CStringWhole(s[1..]);
      assert s == [s[0]] + s[1..];
    }
  }

  // ----- the input

  /** The sections of the input, in order; a raw one may stand for some of the four standard ones. */
  datatype Section =
    | Standard(name: Text)
    | Generic(name: Text)
    | SetKey(key: Text, value: Text)
    | Raw(has: set<Text>)

  /** The place of the first dot. */
  function FirstDot(key: Text): nat {
    if key == [] || key[0] == '.' then 0 else 1 + FirstDot(key[1..])
  }

  /** `init_render_set`. */
  function Parse(key: Text, value: Text): Option<Directive> {
    var dot := FirstDot(key);
    if |key| <= 2 || dot >= |key| || dot == 0 || dot == |key| - 1 then None
    else Some(Directive(key[..dot], key[dot + 1..], value))
  }

  /** `collect_set_directives`: at most 128, in input order. */
  function Collected(sections: seq<Section>): Option<seq<Directive>> {
    if sections == [] then Some([])
    else
      match Collected(sections[..|sections| - 1])
      case None => None
      case Some(ds) =>
        match sections[|sections| - 1]
        case SetKey(key, value) =>
          if |ds| >= MAX_SET_DIRECTIVES || Parse(key, value).None? then None else Some(ds + [Parse(key, value).value])
        case _ => Some(ds)
  }

  /** A section without a dot in its name, and a keyword, both not empty. */
  lemma {:induction false} ParsedKey(key: Text, value: Text)
    requires Parse(key, value).Some?
    ensures var d := Parse(key, value).value;
      && d.section != [] && d.keyword != [] && d.section + ['.'] + d.keyword == key && '.' !in d.section
  {
    DotIs(key);
  }

  lemma {:induction false} DotIs(key: Text)
    ensures FirstDot(key) <= |key| && '.' !in key[..FirstDot(key)]
      && (FirstDot(key) < |key| ==> key[FirstDot(key)] == '.')
  {
    if key != [] && key[0] != '.' {
      DotIs(key[1..]);
      assert key[..FirstDot(key)] == [key[0]] + key[1..][..FirstDot(key[1..])];
    }
  }

  // ----- the deck

  /** The deck as far as directives are concerned: sections opened and closed, directive number `i`,
      and any other text. */
  datatype Token = Open(name: Text) | Set(i: nat) | Other | Close

  /** The section that is open after some tokens. */
  function Current(cur: Option<Text>, ts: seq<Token>): Option<Text>
    decreases |ts|
  {
    if ts == [] then cur
    else
      match ts[0]
      case Open(n) => Current(Some(n), ts[1..])
      case Close => Current(None, ts[1..])
      case _ => Current(cur, ts[1..])
  }

  /** Whether a directive is in a section of its name; without `strict`, the name as a C string will do. */
  predicate Belongs(strict: bool, d: Directive, name: Text) {
    SameName(d.section, name) || (!strict && SameName(d.section, CString(name)))
  }

  /** Every directive stands in a section of its name. */
  predicate Placed(strict: bool, ds: seq<Directive>, cur: Option<Text>, ts: seq<Token>)
    decreases |ts|
  {
    if ts == [] then true
    else
      match ts[0]
      case Open(n) => Placed(strict, ds, Some(n), ts[1..])
      case Close => Placed(strict, ds, None, ts[1..])
      case Set(i) => cur.Some? && i < |ds| && Belongs(strict, ds[i], cur.value) && Placed(strict, ds, cur, ts[1..])
      case Other => Placed(strict, ds, cur, ts[1..])
  }

  lemma {:induction false} PlacedJoin(strict: bool, ds: seq<Directive>, cur: Option<Text>, a: seq<Token>, b: seq<Token>)
    ensures Placed(strict, ds, cur, a + b) <==> Placed(strict, ds, cur, a) && Placed(strict, ds, Current(cur, a), b)
    ensures Current(cur, a + b) == Current(Current(cur, a), b)
    decreases |a|
  {
    if a == [] {
      assert a + b == b;
    } else {
      assert (a + b)[1..] == a[1..] + b;
      var cur' := match a[0] case Open(n) => Some(n) case Close => None case _ => cur;
      PlacedJoin(strict, ds, cur', a[1..], b);
    }
  }

  /** Two directives of one section. */
  predicate Alike(ds: seq<Directive>, a: Token, b: Token) {
    a.Set? && b.Set? && a.i < |ds| && b.i < |ds| && SameName(ds[a.i].section, ds[b.i].section)
  }

  /** Directives of one section keep their input order. */
  ghost predicate Ordered(ds: seq<Directive>, ts: seq<Token>) {
    forall p, q :: 0 <= p < q < |ts| && Alike(ds, ts[p], ts[q]) ==> ts[p].i < ts[q].i
  }

  /** What holds between two sections: `done` says which directives the deck has, once each; of one
      section it has all or none. */
  ghost predicate Good(ds: seq<Directive>, ts: seq<Token>, done: seq<bool>) {
    && |done| == |ds| && Current(None, ts) == None && Placed(false, ds, None, ts) && Ordered(ds, ts)
    && (forall i: nat :: i < |ds| ==> multiset(ts)[Set(i)] == if done[i] then 1 else 0)
    && (forall i, j :: 0 <= i < |ds| && 0 <= j < |ds| && SameName(ds[i].section, ds[j].section) ==> done[i] == done[j])
  }

  /** The directives of a section that are still to be written, from number `i` on. */
  function Emits(ds: seq<Directive>, done: seq<bool>, name: Text, i: nat): seq<Token>
    requires |done| == |ds| && i <= |ds|
    decreases |ds| - i
  {
    if i == |ds| then []
    else (if !done[i] && SameName(ds[i].section, name) then [Set(i)] else []) + Emits(ds, done, name, i + 1)
  }

  function Marked(ds: seq<Directive>, done: seq<bool>, name: Text): (d: seq<bool>)
    requires |done| == |ds|
  {
    seq(|ds|, i requires 0 <= i < |ds| => done[i] || SameName(ds[i].section, name))
  }

  predicate Pending(ds: seq<Directive>, done: seq<bool>, name: Text, k: nat)
    requires |done| == |ds| && k < |ds|
  {
    !done[k] && SameName(ds[k].section, name)
  }

  /** Directives that are pending, in input order. */
  ghost predicate PendingOnly(ds: seq<Directive>, done: seq<bool>, name: Text, from: nat, ts: seq<Token>)
    requires |done| == |ds|
  {
    && (forall t :: t in ts ==> t.Set? && from <= t.i < |ds| && Pending(ds, done, name, t.i))
    && (forall p, q :: 0 <= p < q < |ts| ==> ts[p].Set? && ts[q].Set? && ts[p].i < ts[q].i)
  }

  lemma {:induction false} EmitsWhat(ds: seq<Directive>, done: seq<bool>, name: Text, i: nat)
    requires |done| == |ds| && i <= |ds|
    ensures PendingOnly(ds, done, name, i, Emits(ds, done, name, i))
    decreases |ds| - i
  {
    hide PendingOnly;
    hide SameName;
    hide Emits;
    if i < |ds| {
      EmitsStep(ds, done, name, i);
      EmitsWhat(ds, done, name, i + 1);
      PendingCons(ds, done, name, i, Emits(ds, done, name, i + 1));
    } else {
      EmitsNone(ds, done, name);
      PendingNone(ds, done, name, i);
    }
  }

  lemma PendingNone(ds: seq<Directive>, done: seq<bool>, name: Text, i: nat)
    requires |done| == |ds|
    ensures PendingOnly(ds, done, name, i, [])
  {
  }

  lemma PendingCons(ds: seq<Directive>, done: seq<bool>, name: Text, i: nat, rest: seq<Token>)
    requires |done| == |ds| && i < |ds| && PendingOnly(ds, done, name, i + 1, rest)
    ensures PendingOnly(ds, done, name, i, rest)
    ensures Pending(ds, done, name, i) ==> PendingOnly(ds, done, name, i, [Set(i)] + rest)
  {
    hide SameName;
    var ts := [Set(i)] + rest;
    forall p, q | 0 <= p < q < |ts|
      ensures ts[p].Set? && ts[q].Set? && ts[p].i < ts[q].i
    {
      assert ts[q] == rest[q - 1] && rest[q - 1] in rest;
      if p > 0 {
        assert ts[p] == rest[p - 1];
      }
    }
  }

  lemma EmitsStep(ds: seq<Directive>, done: seq<bool>, name: Text, i: nat)
    requires |done| == |ds| && i < |ds|
    ensures Emits(ds, done, name, i)
         == if Pending(ds, done, name, i) then [Set(i)] + Emits(ds, done, name, i + 1) else Emits(ds, done, name, i + 1)
  {
    hide SameName;
    assert [] + Emits(ds, done, name, i + 1) == Emits(ds, done, name, i + 1);
  }

  lemma {:induction false} EmitsOnce(ds: seq<Directive>, done: seq<bool>, name: Text, i: nat, k: nat)
    requires |done| == |ds| && i <= |ds| && k < |ds|
    ensures multiset(Emits(ds, done, name, i))[Set(k)] == if k >= i && Pending(ds, done, name, k) then 1 else 0
    decreases |ds| - i
  {
    hide SameName;
    hide Emits;
    if i < |ds| {
      EmitsStep(ds, done, name, i);
      EmitsOnce(ds, done, name, i + 1, k);
    } else {
      EmitsNone(ds, done, name);
    }
  }

  lemma EmitsNone(ds: seq<Directive>, done: seq<bool>, name: Text)
    requires |done| == |ds|
    ensures Emits(ds, done, name, |ds|) == []
  {
  }

  lemma {:induction false} PlacedEmits(strict: bool, ds: seq<Directive>, name: Text, ts: seq<Token>)
    requires forall t :: t in ts ==> t.Set? && t.i < |ds|
    ensures Placed(strict, ds, Some(name), ts) <==> forall t :: t in ts ==> Belongs(strict, ds[t.i], name)
    ensures Current(Some(name), ts) == Some(name)
    decreases |ts|
  {
    hide Belongs;
    if ts != [] {
      var first, rest := ts[0], ts[1..];
      assert ts == [first] + rest && first in ts && first.Set?;
      assert forall t :: t in ts <==> t == first || t in rest;
      PlacedEmits(strict, ds, name, rest);
      assert Current(Some(name), ts) == Current(Some(name), rest);
      assert Placed(strict, ds, Some(name), ts)
        == (Belongs(strict, ds[first.i], name) && Placed(strict, ds, Some(name), rest));
    }
  }

  /** A whole section: its heading, other text, the directives, its end. */
  function Block(ds: seq<Directive>, done: seq<bool>, name: Text, key: Text): seq<Token>
    requires |done| == |ds|
  {
    [Open(name), Other] + Emits(ds, done, key, 0) + [Close]
  }

  lemma BlockPlaced(ds: seq<Directive>, done: seq<bool>, name: Text, key: Text)
    requires |done| == |ds| && (key == name || key == CString(name))
    ensures Placed(false, ds, None, Block(ds, done, name, key)) && Current(None, Block(ds, done, name, key)) == None
  {
    hide SameName;
    hide Emits;
    var es := Emits(ds, done, key, 0);
    EmitsWhat(ds, done, key, 0);
    assert forall t :: t in es ==> Belongs(false, ds[t.i], name);
    PlacedEmits(false, ds, name, es);
    FramedPlaced(false, ds, name, es);
  }

  lemma FramedPlaced(strict: bool, ds: seq<Directive>, name: Text, es: seq<Token>)
    requires Current(Some(name), es) == Some(name)
    ensures var b := [Open(name), Other] + es + [Close];
      (Placed(strict, ds, None, b) <==> Placed(strict, ds, Some(name), es)) && Current(None, b) == None
  {
    hide Belongs;
    PlacedJoin(strict, ds, None, [Open(name), Other], es);
    PlacedJoin(strict, ds, None, [Open(name), Other] + es, [Close]);
    assert [Open(name), Other][1..] == [Other];
  }

  /** A pending directive that a section of another name takes. */
  ghost predicate Strayed(ds: seq<Directive>, done: seq<bool>, name: Text, key: Text)
    requires |done| == |ds|
  {
    exists k: nat :: k < |ds| && Pending(ds, done, key, k) && !SameName(ds[k].section, name)
  }

  /** A section is strictly in order exactly when it takes no directive of another name. */
  lemma BlockStrict(ds: seq<Directive>, done: seq<bool>, name: Text, key: Text)
    requires |done| == |ds|
    ensures Placed(true, ds, None, Block(ds, done, name, key)) <==> !Strayed(ds, done, name, key)
  {
    hide SameName;
    hide Emits;
    hide Placed;
    var es := Emits(ds, done, key, 0);
    EmitsWhat(ds, done, key, 0);
    PlacedEmits(true, ds, name, es);
    FramedPlaced(true, ds, name, es);
    if k: nat :| k < |ds| && Pending(ds, done, key, k) && !SameName(ds[k].section, name) {
      EmitsOnce(ds, done, key, 0, k);
      assert Set(k) in es;
    }
  }

  lemma NameTransitive(a: Text, b: Text, c: Text)
    requires SameName(a, b)
    ensures SameName(a, c) == SameName(b, c) && SameName(b, a)
  {
  }

  lemma BlockCounts(ds: seq<Directive>, ts: seq<Token>, done: seq<bool>, name: Text, key: Text, i: nat)
    requires |done| == |ds| && i < |ds| && multiset(ts)[Set(i)] == if done[i] then 1 else 0
    ensures multiset(ts + Block(ds, done, name, key))[Set(i)] == if Marked(ds, done, key)[i] then 1 else 0
  {
    EmitsOnce(ds, done, key, 0, i);
  }

  lemma OrderedJoin(ds: seq<Directive>, a: seq<Token>, b: seq<Token>)
    requires Ordered(ds, a) && Ordered(ds, b)
    requires forall p, q :: 0 <= p < |a| && 0 <= q < |b| && Alike(ds, a[p], b[q]) ==> a[p].i < b[q].i
    ensures Ordered(ds, a + b)
  {
    hide SameName;
    var all := a + b;
    forall p, q | 0 <= p < q < |all| && Alike(ds, all[p], all[q])
      ensures all[p].i < all[q].i
    {
      if q < |a| {
        assert all[p] == a[p] && all[q] == a[q];
      } else if p >= |a| {
        assert all[p] == b[p - |a|] && all[q] == b[q - |a|];
      } else {
        assert all[p] == a[p] && all[q] == b[q - |a|];
      }
    }
  }

  /** A section's own directives come in input order. */
  lemma BlockInner(ds: seq<Directive>, done: seq<bool>, name: Text, key: Text)
    requires |done| == |ds|
    ensures var b := Block(ds, done, name, key);
      && Ordered(ds, b)
      && forall q :: 0 <= q < |b| && b[q].Set? ==> b[q].i < |ds| && Pending(ds, done, key, b[q].i)
  {
    hide SameName;
    EmitsWhat(ds, done, key, 0);
    var es := Emits(ds, done, key, 0);
    var b := Block(ds, done, name, key);
    assert forall q :: 0 <= q < |b| && b[q].Set? ==> 2 <= q < 2 + |es| && b[q] == es[q - 2] && es[q - 2] in es;
  }

  lemma BlockOrdered(ds: seq<Directive>, ts: seq<Token>, done: seq<bool>, name: Text, key: Text)
    requires Good(ds, ts, done)
    ensures Ordered(ds, ts + Block(ds, done, name, key))
  {
    hide SameName;
    hide Placed;
    hide Current;
    hide Block;
    BlockInner(ds, done, name, key);
    var b := Block(ds, done, name, key);
    forall p, q | 0 <= p < |ts| && 0 <= q < |b|
      ensures !Alike(ds, ts[p], b[q])
    {
      assert ts[p] in multiset(ts);
      assert ts[p].Set? && ts[p].i < |ds| ==> done[ts[p].i];
      assert b[q].Set? ==> b[q].i < |ds| && !done[b[q].i];
    }
    OrderedJoin(ds, ts, b);
  }

  /** Writing a section keeps what holds between sections. */
  lemma BlockKeeps(ds: seq<Directive>, ts: seq<Token>, done: seq<bool>, name: Text, key: Text)
    requires Good(ds, ts, done) && (key == name || key == CString(name))
    ensures Good(ds, ts + Block(ds, done, name, key), Marked(ds, done, key))
  {
    hide SameName;
    hide Block;
    hide Ordered;
    BlockPlaced(ds, done, name, key);
    PlacedJoin(false, ds, None, ts, Block(ds, done, name, key));
    BlockOrdered(ds, ts, done, name, key);
    forall i: nat | i < |ds|
      ensures multiset(ts + Block(ds, done, name, key))[Set(i)] == if Marked(ds, done, key)[i] then 1 else 0
    {
      BlockCounts(ds, ts, done, name, key, i);
    }
    forall i, j | 0 <= i < |ds| && 0 <= j < |ds| && SameName(ds[i].section, ds[j].section)
      ensures Marked(ds, done, key)[i] == Marked(ds, done, key)[j]
    {
      NameTransitive(ds[i].section, ds[j].section, key);
    }
  }

  /** Other text between sections. */
  lemma OtherKeeps(ds: seq<Directive>, ts: seq<Token>, done: seq<bool>)
    requires Good(ds, ts, done)
    ensures Good(ds, ts + [Other], done)
  {
    hide SameName;
    PlacedJoin(false, ds, None, ts, [Other]);
    OrderedJoin(ds, ts, [Other]);
  }

  // ----- the deck

  /** The deck so far, and which directives it has. */
  datatype Deck = Deck(tokens: seq<Token>, done: seq<bool>)

  function WithBlock(ds: seq<Directive>, d: Deck, name: Text, key: Text): (r: Deck)
    requires |d.done| == |ds|
    ensures |r.done| == |ds|
  {
    Deck(d.tokens + Block(ds, d.done, name, key), Marked(ds, d.done, key))
  }

  /** One section of the input. */
  function WithSection(ds: seq<Directive>, d: Deck, s: Section): (r: Deck)
    requires |d.done| == |ds|
    ensures |r.done| == |ds|
  {
    match s
    case Standard(n) => WithBlock(ds, d, n, n)
    case Generic(n) => if n == [] then d.(tokens := d.tokens + [Open([]), Other, Close])
      else WithBlock(ds, d, n, CString(n))
    case SetKey(_, _) => d
    case Raw(_) => d.(tokens := d.tokens + [Other])
  }

  function WithInput(ds: seq<Directive>, d: Deck, sections: seq<Section>): (r: Deck)
    requires |d.done| == |ds|
    ensures |r.done| == |ds|
  {
    if sections == [] then d
    else WithSection(ds, WithInput(ds, d, sections[..|sections| - 1]), sections[|sections| - 1])
  }

  const DEFAULTS: seq<Text> := ["CPMD", "SYSTEM", "DFT", "ATOMS"]

  /** The first `k` standard sections, as far as the input has none of that name. */
  function WithDefaults(ds: seq<Directive>, d: Deck, has: set<Text>, k: nat): (r: Deck)
    requires |d.done| == |ds| && k <= |DEFAULTS|
    ensures |r.done| == |ds|
  {
    if k == 0 then d
    else
      var e := WithDefaults(ds, d, has, k - 1);
      if DEFAULTS[k - 1] in has then e else WithBlock(ds, e, DEFAULTS[k - 1], DEFAULTS[k - 1])
  }

  /** Sections of their own for the directives from number `i` on that are left. */
  function WithRest(ds: seq<Directive>, d: Deck, i: nat): (r: Deck)
    requires |d.done| == |ds| && i <= |ds|
    ensures |r.done| == |ds|
    decreases |ds| - i
  {
    if i == |ds| then d
    else WithRest(ds, if d.done[i] then d else WithBlock(ds, d, ds[i].section, ds[i].section), i + 1)
  }

  /** Which standard sections the input has, by its own sections or inside raw text. */
  function Has(sections: seq<Section>): set<Text> {
    if sections == [] then {}
    else
      Has(sections[..|sections| - 1]) +
      match sections[|sections| - 1]
      case Standard(n) => {n}
      case Raw(h) => h
      case _ => {}
  }

  function Unset(n: nat): seq<bool> {
    seq(n, i => false)
  }

  /** The deck before the last pass. */
  function Early(ds: seq<Directive>, sections: seq<Section>): (r: Deck)
    ensures |r.done| == |ds|
  {
    WithDefaults(ds, WithInput(ds, Deck([], Unset(|ds|)), sections), Has(sections), |DEFAULTS|)
  }

  function Whole(ds: seq<Directive>, sections: seq<Section>): (r: Deck)
    ensures |r.done| == |ds|
  {
    WithRest(ds, Early(ds, sections), 0)
  }

  predicate NameFits(s: Section) {
    s.Generic? ==> |s.name| < MAX_SECTION_NAME
  }

  predicate NamesFit(sections: seq<Section>) {
    forall i :: 0 <= i < |sections| ==> NameFits(sections[i])
  }

  // ----- the passes

  /** `append_set_directives_for_section`. */
  method AppendForSection(ds: seq<Directive>, rendered: array<bool>, key: Text, deck: seq<Token>, roomy: bool)
    returns (ok: bool, deck': seq<Token>)
    requires rendered.Length == |ds|
    modifies rendered
    ensures roomy ==> ok
    ensures ok ==>
      deck' == deck + Emits(ds, old(rendered[..]), key, 0) && rendered[..] == Marked(ds, old(rendered[..]), key)
  {
    ghost var was := rendered[..];
    deck' := deck;
    var i := 0;
    assert deck + Emits(ds, was, key, 0) == deck' + Emits(ds, was, key, i);
    while i < |ds|
      invariant 0 <= i <= |ds| && deck + Emits(ds, was, key, 0) == deck' + Emits(ds, was, key, i)
      invariant forall k :: 0 <= k < |ds| ==> rendered[k] == (was[k] || (k < i && SameName(ds[k].section, key)))
    {
      if !rendered[i] && SameName(ds[i].section, key) {
        var fits: bool := *;
        if !roomy && !fits {
          return false, deck';
        }
        assert deck' + ([Set(i)] + Emits(ds, was, key, i + 1)) == deck' + [Set(i)] + Emits(ds, was, key, i + 1);
        deck' := deck' + [Set(i)];
        rendered[i] := true;
      } else {
        assert [] + Emits(ds, was, key, i + 1) == Emits(ds, was, key, i + 1);
      }
      i := i + 1;
    }
    assert deck' + [] == deck';
    return true, deck';
  }

  /** One section of the input, or one that is added because it is missing.  Its own fields are other text;
      `roomy` says that none of them is refused and that every append fits. */
  method RenderSection(ds: seq<Directive>, rendered: array<bool>, name: Text, key: Text, deck: seq<Token>, roomy: bool)
    returns (ok: bool, deck': seq<Token>)
    requires rendered.Length == |ds|
    modifies rendered
    ensures roomy ==> ok
    ensures ok ==> Deck(deck', rendered[..]) == WithBlock(ds, Deck(deck, old(rendered[..])), name, key)
  {
    var fits: bool := *;
    if !roomy && !fits {
      return false, deck;
    }
    ghost var was := rendered[..];
    ok, deck' := AppendForSection(ds, rendered, key, deck + [Open(name), Other], roomy);
    if ok {
      assert deck' + [Close] == deck + Block(ds, was, name, key);
      deck' := deck' + [Close];
      fits := *;
      ok := roomy || fits;
    }
  }

  /** `render_generic_section` without its own directives; a name of 64 characters or more is refused. */
  method RenderGeneric(ds: seq<Directive>, rendered: array<bool>, name: Text, deck: seq<Token>, roomy: bool)
    returns (ok: bool, deck': seq<Token>)
    requires rendered.Length == |ds|
    modifies rendered
    ensures roomy ==> (ok <==> NameFits(Generic(name)))
    ensures ok ==> NameFits(Generic(name))
                   && Deck(deck', rendered[..]) == WithSection(ds, Deck(deck, old(rendered[..])), Generic(name))
  {
    if |name| >= MAX_SECTION_NAME {
      return false, deck;
    }
    if |name| == 0 {
      var fits: bool := *;
      return roomy || fits, deck + [Open([]), Other, Close];
    }
    ok, deck' := RenderSection(ds, rendered, name, CString(name), deck, roomy);
  }

  lemma NamelessKeeps(ds: seq<Directive>, ts: seq<Token>, done: seq<bool>)
    requires Good(ds, ts, done)
    ensures Good(ds, ts + [Open([]), Other, Close], done)
  {
    hide SameName;
    FramedPlaced(false, ds, [], []);
    var b := [Open([]), Other, Close];
    assert [Open([]), Other] + [] + [Close] == b;
    PlacedJoin(false, ds, None, ts, b);
    OrderedJoin(ds, ts, b);
  }

  /** `render_remaining_set_sections`: a section of its own for every name that is left. */
  method RenderRemaining(ds: seq<Directive>, rendered: array<bool>, deck: seq<Token>, roomy: bool)
    returns (ok: bool, deck': seq<Token>)
    requires rendered.Length == |ds|
    modifies rendered
    ensures roomy ==> ok
    ensures ok ==> Deck(deck', rendered[..]) == WithRest(ds, Deck(deck, old(rendered[..])), 0)
  {
    hide WithBlock;
    ghost var start := Deck(deck, rendered[..]);
    deck' := deck;
    var i := 0;
    while i < |ds|
      invariant 0 <= i <= |ds| && (forall k :: 0 <= k < i ==> rendered[k])
      invariant WithRest(ds, start, 0) == WithRest(ds, Deck(deck', rendered[..]), i)
    {
      if !rendered[i] {
        ok, deck' := RenderOwn(ds, rendered, i, deck', roomy);
        if !ok {
          return;
        }
      }
      i := i + 1;
    }
    ok := true;
  }

  /** One section for all that is left of directive `i`'s section. */
  method RenderOwn(ds: seq<Directive>, rendered: array<bool>, i: nat, deck: seq<Token>, roomy: bool)
    returns (ok: bool, deck': seq<Token>)
    requires rendered.Length == |ds| && i < |ds| && forall k :: 0 <= k < i ==> rendered[k]
    modifies rendered
    ensures roomy ==> ok
    ensures ok ==>
      Deck(deck', rendered[..]) == WithBlock(ds, Deck(deck, old(rendered[..])), ds[i].section, ds[i].section)
    ensures ok ==> forall k :: 0 <= k <= i ==> rendered[k]
  {
    hide Emits;
    var fits: bool := *;
    if !roomy && !fits {
      return false, deck;
    }
    ghost var was := rendered[..];
    ok, deck' := AppendFrom(ds, rendered, i, deck + [Open(ds[i].section), Other], roomy);
    if !ok {
      return;
    }
    deck' := deck' + [Close];
    BlockIs(ds, was, ds[i].section, deck, deck');
    assert forall k :: 0 <= k < |ds| ==> rendered[k] == rendered[..][k];
  }

  lemma BlockIs(ds: seq<Directive>, was: seq<bool>, name: Text, before: seq<Token>, after: seq<Token>)
    requires |was| == |ds| && after == before + [Open(name), Other] + Emits(ds, was, name, 0) + [Close]
    ensures after == before + Block(ds, was, name, name)
  {
  }

  /** The inner loop of the last pass starts at the directive that opened the section. */
  method AppendFrom(ds: seq<Directive>, rendered: array<bool>, i: nat, deck: seq<Token>, roomy: bool)
    returns (ok: bool, deck': seq<Token>)
    requires rendered.Length == |ds| && i < |ds| && forall k :: 0 <= k < i ==> rendered[k]
    modifies rendered
    ensures roomy ==> ok
    ensures ok ==> deck' == deck + Emits(ds, old(rendered[..]), ds[i].section, 0)
                   && rendered[..] == Marked(ds, old(rendered[..]), ds[i].section)
  {
    ghost var was, key := rendered[..], ds[i].section;
    EmitsSkip(ds, was, key, 0, i);
    deck' := deck;
    var j := i;
    while j < |ds|
      invariant i <= j <= |ds| && deck + Emits(ds, was, key, 0) == deck' + Emits(ds, was, key, j)
      invariant forall k :: 0 <= k < |ds| ==> rendered[k] == (was[k] || (k < j && SameName(ds[k].section, key)))
    {
      if !rendered[j] && SameName(ds[i].section, ds[j].section) {
        var fits: bool := *;
        if !roomy && !fits {
          return false, deck';
        }
        NameTransitive(ds[i].section, ds[j].section, key);
        assert deck' + ([Set(j)] + Emits(ds, was, key, j + 1)) == deck' + [Set(j)] + Emits(ds, was, key, j + 1);
        deck' := deck' + [Set(j)];
        rendered[j] := true;
      } else {
        assert [] + Emits(ds, was, key, j + 1) == Emits(ds, was, key, j + 1);
      }
      j := j + 1;
    }
    assert deck' + [] == deck';
    return true, deck';
  }

  lemma {:induction false} EmitsSkip(ds: seq<Directive>, done: seq<bool>, name: Text, from: nat, i: nat)
    requires |done| == |ds| && from <= i <= |ds| && forall k :: from <= k < i ==> done[k]
    ensures Emits(ds, done, name, from) == Emits(ds, done, name, i)
    decreases i - from
  {
    if from < i {
      EmitsSkip(ds, done, name, from + 1, i);
    }
  }

  /** The names of the sections that some tokens open. */
  function Openings(ts: seq<Token>): seq<Text> {
    if ts == [] then [] else (if ts[0].Open? then [ts[0].name] else []) + Openings(ts[1..])
  }

  lemma {:induction false} OpeningsJoin(a: seq<Token>, b: seq<Token>)
    ensures Openings(a + b) == Openings(a) + Openings(b)
    decreases |a|
  {
    if a == [] {
      assert a + b == b;
    } else {
      assert (a + b)[1..] == a[1..] + b;
      OpeningsJoin(a[1..], b);
    }
  }

  lemma {:induction false} NoOpenings(ts: seq<Token>)
    requires forall p :: 0 <= p < |ts| ==> !ts[p].Open?
    ensures Openings(ts) == []
    decreases |ts|
  {
    if ts != [] {
      NoOpenings(ts[1..]);
    }
  }

  lemma BlockOpens(ds: seq<Directive>, done: seq<bool>, name: Text, before: seq<Token>)
    requires |done| == |ds|
    ensures Openings(before + Block(ds, done, name, name)) == Openings(before) + [name]
  {
    hide Emits;
    hide Pending;
    var es := Emits(ds, done, name, 0);
    EmitsWhat(ds, done, name, 0);
    assert forall p :: 0 <= p < |es| ==> es[p] in es;
    NoOpenings([Other] + es + [Close]);
    assert Block(ds, done, name, name) == [Open(name)] + ([Other] + es + [Close]);
    OpeningsJoin([Open(name)], [Other] + es + [Close]);
    assert Openings([Open(name)]) == [name];
    OpeningsJoin(before, Block(ds, done, name, name));
  }

  // ----- the whole deck

  /** `collect_set_directives`. */
  method Collect(sections: seq<Section>) returns (ok: bool, ds: seq<Directive>)
    ensures ok <==> Collected(sections).Some?
    ensures ok ==> ds == Collected(sections).value
  {
    ds := [];
    var i := 0;
    while i < |sections|
      invariant 0 <= i <= |sections| && Collected(sections[..i]) == Some(ds)
    {
      assert sections[..i + 1][..i] == sections[..i];
      if sections[i].SetKey? {
        if |ds| >= MAX_SET_DIRECTIVES {
          CollectedPrefix(sections, i + 1);
          return false, ds;
        }
        var d := Parse(sections[i].key, sections[i].value);
        if d.None? {
          CollectedPrefix(sections, i + 1);
          return false, ds;
        }
        ds := ds + [d.value];
      }
      i := i + 1;
    }
    assert sections[..i] == sections;
    return true, ds;
  }

  lemma {:induction false} CollectedPrefix(sections: seq<Section>, k: nat)
    requires k <= |sections| && Collected(sections[..k]).None?
    ensures Collected(sections).None?
    decreases |sections|
  {
    if k < |sections| {
      assert sections[..|sections| - 1][..k] == sections[..k];
      CollectedPrefix(sections[..|sections| - 1], k);
    } else {
      assert sections[..k] == sections;
    }
  }

  lemma {:induction false} StartGood(ds: seq<Directive>)
    ensures Good(ds, [], seq(|ds|, i => false))
  {
  }

  lemma {:induction false} InputGood(ds: seq<Directive>, d: Deck, sections: seq<Section>)
    requires Good(ds, d.tokens, d.done)
    ensures var r := WithInput(ds, d, sections); Good(ds, r.tokens, r.done)
    decreases |sections|
  {
    hide Good;
    GoodSize(ds, d.tokens, d.done);
    if sections != [] {
      InputGood(ds, d, sections[..|sections| - 1]);
      var e := WithInput(ds, d, sections[..|sections| - 1]);
      match sections[|sections| - 1]
      case Standard(n) => BlockKeeps(ds, e.tokens, e.done, n, n);
      case Generic(n) =>
        NamelessKeeps(ds, e.tokens, e.done);
        BlockKeeps(ds, e.tokens, e.done, n, CString(n));
      case SetKey(_, _) =>
      case Raw(_) => OtherKeeps(ds, e.tokens, e.done);
    }
  }

  lemma GoodSize(ds: seq<Directive>, ts: seq<Token>, done: seq<bool>)
    requires Good(ds, ts, done)
    ensures |done| == |ds|
  {
  }

  lemma {:induction false} DefaultsGood(ds: seq<Directive>, d: Deck, has: set<Text>, k: nat)
    requires Good(ds, d.tokens, d.done) && k <= |DEFAULTS|
    ensures var r := WithDefaults(ds, d, has, k); Good(ds, r.tokens, r.done)
  {
    hide Good;
    GoodSize(ds, d.tokens, d.done);
    if k > 0 {
      DefaultsGood(ds, d, has, k - 1);
      var e := WithDefaults(ds, d, has, k - 1);
      BlockKeeps(ds, e.tokens, e.done, DEFAULTS[k - 1], DEFAULTS[k - 1]);
    }
  }

  /** The last pass leaves no directive out. */
  lemma {:induction false} RestGood(ds: seq<Directive>, d: Deck, i: nat)
    requires Good(ds, d.tokens, d.done) && i <= |ds| && forall k :: 0 <= k < i ==> d.done[k]
    ensures var r := WithRest(ds, d, i); Good(ds, r.tokens, r.done) && forall k :: 0 <= k < |ds| ==> r.done[k]
    decreases |ds| - i
  {
    hide Good;
    GoodSize(ds, d.tokens, d.done);
    if i < |ds| {
      BlockKeeps(ds, d.tokens, d.done, ds[i].section, ds[i].section);
      RestGood(ds, if d.done[i] then d else WithBlock(ds, d, ds[i].section, ds[i].section), i + 1);
    }
  }

  lemma EarlyGood(ds: seq<Directive>, sections: seq<Section>)
    ensures Good(ds, Early(ds, sections).tokens, Early(ds, sections).done)
  {
    hide Good;
    StartGood(ds);
    InputGood(ds, Deck([], Unset(|ds|)), sections);
    DefaultsGood(ds, WithInput(ds, Deck([], Unset(|ds|)), sections), Has(sections), |DEFAULTS|);
  }

  // ----- which section takes a directive

  /** A section of the input takes directive `k`, if no earlier one does. */
  predicate Claims(ds: seq<Directive>, s: Section, k: nat)
    requires k < |ds|
  {
    match s
    case Standard(n) => SameName(ds[k].section, n)
    case Generic(n) => n != [] && SameName(ds[k].section, CString(n))
    case _ => false
  }

  /** Section `i` is a generic one whose name holds a zero character, and it is the first to claim
      directive `k`, by the part of its name before that character. */
  predicate Strays(ds: seq<Directive>, sections: seq<Section>, i: nat, k: nat)
    requires i < |sections| && k < |ds|
  {
    && sections[i].Generic? && '\0' in sections[i].name && Claims(ds, sections[i], k)
    && forall j :: 0 <= j < i ==> !Claims(ds, sections[j], k)
  }

  ghost predicate NoStrays(ds: seq<Directive>, sections: seq<Section>) {
    forall i: nat, k: nat :: i < |sections| && k < |ds| ==> !Strays(ds, sections, i, k)
  }

  function Start(ds: seq<Directive>): Deck {
    Deck([], Unset(|ds|))
  }

  lemma {:induction false} DoneIs(ds: seq<Directive>, sections: seq<Section>, k: nat)
    requires k < |ds|
    ensures WithInput(ds, Start(ds), sections).done[k] <==>
      exists j :: 0 <= j < |sections| && Claims(ds, sections[j], k)
    decreases |sections|
  {
    hide SameName;
    hide Block;
    if sections != [] {
      var before, s := sections[..|sections| - 1], sections[|sections| - 1];
      DoneIs(ds, before, k);
      assert forall j :: 0 <= j < |before| ==> before[j] == sections[j];
      assert WithInput(ds, Start(ds), sections).done[k] <==>
        WithInput(ds, Start(ds), before).done[k] || Claims(ds, s, k);
      if j :| 0 <= j < |sections| && Claims(ds, sections[j], k) {
        assert j < |before| ==> Claims(ds, before[j], k);
      }
    }
  }

  /** A generic section goes astray exactly when its name holds a zero character and it claims something. */
  lemma GenericStrays(ds: seq<Directive>, done: seq<bool>, n: Text)
    requires |done| == |ds|
    ensures Strayed(ds, done, n, CString(n)) <==>
      '\0' in n && exists k: nat :: k < |ds| && Pending(ds, done, CString(n), k)
    ensures !Strayed(ds, done, n, n)
  {
    CStringWhole(n);
    if '\0' in n {
      assert |CString(n)| < |n|;
    }
  }

  lemma {:induction false} InputStrict(ds: seq<Directive>, sections: seq<Section>)
    ensures Placed(true, ds, None, WithInput(ds, Start(ds), sections).tokens) <==> NoStrays(ds, sections)
    decreases |sections|
  {
    hide SameName;
    hide Block;
    hide Placed;
    hide Good;
    hide Strays;
    hide CString;
    if sections == [] {
      NothingPlaced(ds);
    } else {
      var before, s := sections[..|sections| - 1], sections[|sections| - 1];
      var e := WithInput(ds, Start(ds), before);
      InputStrict(ds, before);
      StartGood(ds);
      InputGood(ds, Start(ds), before);
      GoodCloses(ds, e.tokens, e.done);
      match s {
        case Standard(n) =>
          BlockStrict(ds, e.done, n, n);
          GenericStrays(ds, e.done, n);
          PlacedJoin(true, ds, None, e.tokens, Block(ds, e.done, n, n));
        case Generic(n) =>
          BlockStrict(ds, e.done, n, CString(n));
          GenericStrays(ds, e.done, n);
          PlacedJoin(true, ds, None, e.tokens, Block(ds, e.done, n, CString(n)));
          NamelessStrict(ds);
          PlacedJoin(true, ds, None, e.tokens, [Open([]), Other, Close]);
        case SetKey(_, _) =>
        case Raw(_) =>
          NamelessStrict(ds);
          PlacedJoin(true, ds, None, e.tokens, [Other]);
      }
      LastStrays(ds, sections, e.done);
    }
  }

  lemma NothingPlaced(ds: seq<Directive>)
    ensures Placed(true, ds, None, [])
  {
  }

  lemma NamelessStrict(ds: seq<Directive>)
    ensures Placed(true, ds, None, [Open([]), Other, Close]) && Placed(true, ds, None, [Other])
  {
    assert [Open([]), Other, Close][1..] == [Other, Close] && [Other, Close][1..] == [Close];
  }

  lemma GoodCloses(ds: seq<Directive>, ts: seq<Token>, done: seq<bool>)
    requires Good(ds, ts, done)
    ensures Current(None, ts) == None && |done| == |ds|
  {
  }

  /** What the last section adds. */
  lemma LastStrays(ds: seq<Directive>, sections: seq<Section>, done: seq<bool>)
    requires sections != [] && |done| == |ds| && done == WithInput(ds, Start(ds), sections[..|sections| - 1]).done
    ensures var before, s := sections[..|sections| - 1], sections[|sections| - 1];
      NoStrays(ds, sections) <==>
        && NoStrays(ds, before)
        && !(s.Generic? && '\0' in s.name && exists k: nat :: k < |ds| && Pending(ds, done, CString(s.name), k))
  {
    hide SameName;
    hide WithInput;
    var n, before, s := |sections| - 1, sections[..|sections| - 1], sections[|sections| - 1];
    assert forall j :: 0 <= j < n ==> before[j] == sections[j];
    forall i: nat, k: nat | i < n && k < |ds|
      ensures Strays(ds, sections, i, k) == Strays(ds, before, i, k)
    {
    }
    forall k: nat | k < |ds|
      ensures Strays(ds, sections, n, k) <==> s.Generic? && '\0' in s.name && Pending(ds, done, CString(s.name), k)
    {
      DoneIs(ds, before, k);
    }
    hide Strays;
    if NoStrays(ds, sections) {
      forall i: nat, k: nat | i < |before| && k < |ds|
        ensures !Strays(ds, before, i, k)
      {
        assert !Strays(ds, sections, i, k);
      }
      forall k: nat | k < |ds| && s.Generic? && '\0' in s.name
        ensures !Pending(ds, done, CString(s.name), k)
      {
        assert !Strays(ds, sections, n, k);
      }
    } else {
      var i: nat, k: nat :| i < |sections| && k < |ds| && Strays(ds, sections, i, k);
      if i < n {
        assert Strays(ds, before, i, k);
      } else {
        assert Pending(ds, done, CString(s.name), k);
      }
    }
  }

  lemma {:induction false} DefaultsStrict(ds: seq<Directive>, d: Deck, has: set<Text>, k: nat)
    requires Good(ds, d.tokens, d.done) && |d.done| == |ds| && k <= |DEFAULTS|
    ensures Placed(true, ds, None, WithDefaults(ds, d, has, k).tokens) <==> Placed(true, ds, None, d.tokens)
  {
    hide Good;
    hide Placed;
    hide Block;
    if k > 0 {
      DefaultsStrict(ds, d, has, k - 1);
      DefaultsGood(ds, d, has, k - 1);
      var e, n := WithDefaults(ds, d, has, k - 1), DEFAULTS[k - 1];
      OwnStrict(ds, e, n);
    }
  }

  lemma OwnStrict(ds: seq<Directive>, d: Deck, name: Text)
    requires Good(ds, d.tokens, d.done) && |d.done| == |ds|
    ensures Placed(true, ds, None, WithBlock(ds, d, name, name).tokens) <==> Placed(true, ds, None, d.tokens)
  {
    hide Good;
    hide Placed;
    hide Block;
    GoodCloses(ds, d.tokens, d.done);
    BlockStrict(ds, d.done, name, name);
    GenericStrays(ds, d.done, name);
    PlacedJoin(true, ds, None, d.tokens, Block(ds, d.done, name, name));
  }

  lemma {:induction false} RestStrict(ds: seq<Directive>, d: Deck, i: nat)
    requires Good(ds, d.tokens, d.done) && |d.done| == |ds| && i <= |ds|
    ensures Placed(true, ds, None, WithRest(ds, d, i).tokens) <==> Placed(true, ds, None, d.tokens)
    decreases |ds| - i
  {
    hide Good;
    hide Placed;
    hide WithBlock;
    if i < |ds| {
      var e := if d.done[i] then d else WithBlock(ds, d, ds[i].section, ds[i].section);
      if !d.done[i] {
        OwnStrict(ds, d, ds[i].section);
        OwnGood(ds, d, ds[i].section);
      }
      RestStrict(ds, e, i + 1);
    }
  }

  lemma OwnGood(ds: seq<Directive>, d: Deck, name: Text)
    requires Good(ds, d.tokens, d.done) && |d.done| == |ds|
    ensures Good(ds, WithBlock(ds, d, name, name).tokens, WithBlock(ds, d, name, name).done)
  {
    hide Good;
    BlockKeeps(ds, d.tokens, d.done, name, name);
  }

  /** Every directive is in the deck exactly once, after those of the same section that came before it.  It
      is in a section of its own name, exactly when no generic section whose name holds a zero character is
      the first to claim a directive; without such names, always. */
  lemma EveryDirectiveOnce(ds: seq<Directive>, sections: seq<Section>)
    ensures var deck := Whole(ds, sections).tokens;
      && (forall i: nat :: i < |ds| ==> multiset(deck)[Set(i)] == 1) && Ordered(ds, deck)
      && Placed(false, ds, None, deck)
      && (Placed(true, ds, None, deck) <==> NoStrays(ds, sections))
    ensures (forall i :: 0 <= i < |sections| && sections[i].Generic? ==> '\0' !in sections[i].name) ==>
              Placed(true, ds, None, Whole(ds, sections).tokens)
  {
    hide Good;
    hide Placed;
    hide Claims;
    EarlyGood(ds, sections);
    RestGood(ds, Early(ds, sections), 0);
    AllDone(ds, Whole(ds, sections).tokens, Whole(ds, sections).done);
    RestStrict(ds, Early(ds, sections), 0);
    StartGood(ds);
    InputGood(ds, Start(ds), sections);
    DefaultsStrict(ds, WithInput(ds, Start(ds), sections), Has(sections), |DEFAULTS|);
    InputStrict(ds, sections);
  }

  /** A deck in which a directive of section A stands in the generic section named A, zero character, C. */
  lemma StrayDeck()
    ensures var sections := [Generic("A\0C"), SetKey("A.K", "v")];
      && Collected(sections) == Some([Directive("A", "K", "v")]) && NamesFit(sections)
      && var ds := [Directive("A", "K", "v")];
         var deck := Whole(ds, sections).tokens;
      && [Open("A\0C"), Other, Set(0), Close] <= deck && !Placed(true, ds, None, deck)
  {
    hide Placed;
    hide Whole;
    var sections, ds := [Generic("A\0C"), SetKey("A.K", "v")], [Directive("A", "K", "v")];
    StrayCollected();
    StrayClaim();
    assert Strays(ds, sections, 0, 0);
    EveryDirectiveOnce(ds, sections);
    StrayTokens();
  }

  lemma StrayCollected()
    ensures Collected([Generic("A\0C"), SetKey("A.K", "v")]) == Some([Directive("A", "K", "v")])
  {
    var sections := [Generic("A\0C"), SetKey("A.K", "v")];
    var one := [Generic("A\0C")];
    assert one[..0] == [] && Collected([]) == Some([]);
    assert Collected(one) == Some([]);
    assert sections[..|sections| - 1] == one;
    var key := "A.K";
    assert key[1..] == ".K" && FirstDot(key[1..]) == 0 && key[..1] == "A" && key[2..] == "K";
    assert Parse(key, "v") == Some(Directive("A", "K", "v"));
    assert [] + [Directive("A", "K", "v")] == [Directive("A", "K", "v")];
  }

  lemma StrayClaim()
    ensures CString("A\0C") == "A" && SameName("A", CString("A\0C"))
  {
    var n := "A\0C";
    assert n[1..] == "\0C" && CString(n[1..]) == [];
    assert CString(n) == ['A'] + CString(n[1..]);
  }

  lemma StrayTokens()
    ensures [Open("A\0C"), Other, Set(0), Close]
         <= Whole([Directive("A", "K", "v")], [Generic("A\0C"), SetKey("A.K", "v")]).tokens
  {
    hide Block;
    var sections, ds, n := [Generic("A\0C"), SetKey("A.K", "v")], [Directive("A", "K", "v")], "A\0C";
    StrayClaim();
    assert sections[..1] == [Generic(n)] && sections[..1][..0] == [];
    var d := WithInput(ds, Start(ds), sections);
    assert d == WithInput(ds, Start(ds), sections[..1]) == WithBlock(ds, Start(ds), n, CString(n));
    StrayBlock();
    DefaultsExtend(ds, d, Has(sections), |DEFAULTS|);
    var rest := RestOpens(ds, Early(ds, sections), 0);
  }

  lemma StrayBlock()
    ensures Block([Directive("A", "K", "v")], Unset(1), "A\0C", "A") == [Open("A\0C"), Other, Set(0), Close]
  {
    var ds := [Directive("A", "K", "v")];
    assert Emits(ds, Unset(1), "A", 1) == [];
    assert Emits(ds, Unset(1), "A", 0) == [Set(0)];
  }

  lemma {:induction false} DefaultsExtend(ds: seq<Directive>, d: Deck, has: set<Text>, k: nat)
    requires |d.done| == |ds| && k <= |DEFAULTS|
    ensures d.tokens <= WithDefaults(ds, d, has, k).tokens
  {
    hide Block;
    if k > 0 {
      DefaultsExtend(ds, d, has, k - 1);
    }
  }

  predicate NamesLeft(ds: seq<Directive>, done: seq<bool>, from: nat, names: seq<Text>)
    requires |done| == |ds|
  {
    && (forall n :: n in names ==> exists j :: from <= j < |ds| && !done[j] && ds[j].section == n)
    && (forall j :: from <= j < |ds| && !done[j] ==> exists a :: 0 <= a < |names| && SameName(ds[j].section, names[a]))
  }

  /** The last pass opens one section for every name that is left, and no other. */
  lemma {:induction false} RestOpens(ds: seq<Directive>, d: Deck, i: nat) returns (rest: seq<Token>)
    requires |d.done| == |ds| && i <= |ds|
    ensures WithRest(ds, d, i).tokens == d.tokens + rest && NamesLeft(ds, d.done, i, Openings(rest))
    ensures forall a, b :: 0 <= a < b < |Openings(rest)| ==> !SameName(Openings(rest)[a], Openings(rest)[b])
    decreases |ds| - i
  {
    hide Block;
    if i == |ds| {
      rest := [];
    } else if d.done[i] {
      rest := RestOpens(ds, d, i + 1);
      NamesSkip(ds, d.done, i, Openings(rest));
    } else {
      var name := ds[i].section;
      var e := WithBlock(ds, d, name, name);
      var more := RestOpens(ds, e, i + 1);
      rest := Block(ds, d.done, name, name) + more;
      BlockOpens(ds, d.done, name, []);
      OpeningsJoin(Block(ds, d.done, name, name), more);
      assert [] + Block(ds, d.done, name, name) == Block(ds, d.done, name, name);
      NamesCons(ds, d.done, i, Openings(more));
      assert Openings(rest) == [name] + Openings(more);
    }
  }

  lemma NamesSkip(ds: seq<Directive>, done: seq<bool>, i: nat, names: seq<Text>)
    requires |done| == |ds| && i < |ds| && done[i] && NamesLeft(ds, done, i + 1, names)
    ensures NamesLeft(ds, done, i, names)
  {
    forall n | n in names
      ensures exists j :: i <= j < |ds| && !done[j] && ds[j].section == n
    {
      var j :| i + 1 <= j < |ds| && !done[j] && ds[j].section == n;
    }
  }

  lemma NamesCons(ds: seq<Directive>, done: seq<bool>, i: nat, names: seq<Text>)
    requires |done| == |ds| && i < |ds| && !done[i] && NamesLeft(ds, Marked(ds, done, ds[i].section), i + 1, names)
    ensures NamesLeft(ds, done, i, [ds[i].section] + names)
    ensures forall a :: 0 <= a < |names| ==> !SameName(ds[i].section, names[a])
  {
    var name, was := ds[i].section, Marked(ds, done, ds[i].section);
    forall n | n in names
      ensures (exists j :: i <= j < |ds| && !done[j] && ds[j].section == n) && !SameName(name, n)
    {
      var j :| i + 1 <= j < |ds| && !was[j] && ds[j].section == n;
      assert !done[j];
      if SameName(name, n) {
        NameTransitive(name, n, name);
      }
    }
    forall j | i <= j < |ds| && !done[j]
      ensures exists a :: 0 <= a < |[name] + names| && SameName(ds[j].section, ([name] + names)[a])
    {
      if SameName(ds[j].section, name) {
        assert ([name] + names)[0] == name;
      } else {
        var a :| 0 <= a < |names| && SameName(ds[j].section, names[a]);
        assert ([name] + names)[a + 1] == names[a];
      }
    }
    assert name in [name] + names;
  }

  /** Behind the sections of the input and the missing standard ones come those that are left, each
      name opened once. */
  lemma LeftoversOnce(ds: seq<Directive>, sections: seq<Section>) returns (rest: seq<Token>)
    ensures Whole(ds, sections).tokens == Early(ds, sections).tokens + rest
    ensures NamesLeft(ds, Early(ds, sections).done, 0, Openings(rest))
    ensures forall a, b :: 0 <= a < b < |Openings(rest)| ==> !SameName(Openings(rest)[a], Openings(rest)[b])
  {
    rest := RestOpens(ds, Early(ds, sections), 0);
  }

  /** `cpmdc_params_render_input_deck`, as far as set directives go; `roomy` says that every append fits
      and that no section body refuses a field, such as a pseudopotential without path or element. */
  method RenderDeck(sections: seq<Section>, roomy: bool) returns (ok: bool, deck: seq<Token>)
    ensures ok ==> Collected(sections).Some? && NamesFit(sections)
    ensures roomy && Collected(sections).Some? && NamesFit(sections) ==> ok
    ensures ok ==> deck == Whole(Collected(sections).value, sections).tokens
  {
    hide WithBlock;
    var collected, ds := Collect(sections);
    ok, deck := false, [];
    if !collected {
      return;
    }
    var rendered := new bool[|ds|](_ => false);
    assert rendered[..] == Unset(|ds|);
    var i, has := 0, {};
    while i < |sections|
      invariant 0 <= i <= |sections| && has == Has(sections[..i]) && NamesFit(sections[..i])
      invariant Deck(deck, rendered[..]) == WithInput(ds, Deck([], Unset(|ds|)), sections[..i])
    {
      assert sections[..i + 1][..i] == sections[..i];
      var done;
      match sections[i] {
        case Standard(n) => done, deck := RenderSection(ds, rendered, n, n, deck, roomy);
        case Generic(n) => done, deck := RenderGeneric(ds, rendered, n, deck, roomy);
        case SetKey(_, _) => done := true;
        case Raw(_) =>
          deck := deck + [Other];
          done := *;
          done := roomy || done;
      }
      if !done {
        return;
      }
      match sections[i] {
        case Standard(n) => has := has + {n};
        case Raw(h) => has := has + h;
        case _ =>
      }
      i := i + 1;
    }
    assert sections[..i] == sections;
    ghost var input := Deck(deck, rendered[..]);
    i := 0;
    while i < |DEFAULTS|
      invariant 0 <= i <= |DEFAULTS| && Deck(deck, rendered[..]) == WithDefaults(ds, input, has, i)
    {
      if DEFAULTS[i] !in has {
        var done;
        done, deck := RenderSection(ds, rendered, DEFAULTS[i], DEFAULTS[i], deck, roomy);
        if !done {
          return;
        }
      }
      i := i + 1;
    }
    ok, deck := RenderRemaining(ds, rendered, deck, roomy);
  }

  lemma AllDone(ds: seq<Directive>, ts: seq<Token>, done: seq<bool>)
    requires Good(ds, ts, done) && forall i :: 0 <= i < |ds| ==> done[i]
    ensures (forall i: nat :: i < |ds| ==> multiset(ts)[Set(i)] == 1) && Placed(false, ds, None, ts) && Ordered(ds, ts)
  {
  }
}
