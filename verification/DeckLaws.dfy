/** What the input has to do with the deck: which directives there are, in which order, and which sections are
    opened. */
module DeckLaws {
  import opened Options
  import opened SetDirectives

  // ----- the directives of the input

  /** The key has a dot inside, and its first one is not its first character. */
  ghost predicate Splits(key: Text) {
    exists dot :: 0 < dot < |key| - 1 && key[dot] == '.' && '.' !in key[..dot]
  }

  /** The positions of the directives among the sections, in order. */
  ghost predicate Positions(sections: seq<Section>, ps: seq<nat>) {
    && (forall i :: 0 <= i < |ps| ==> ps[i] < |sections| && sections[ps[i]].SetKey?)
    && (forall i, j :: 0 <= i < j < |ps| ==> ps[i] < ps[j])
    && (forall p: nat :: p < |sections| && sections[p].SetKey? ==> p in ps)
  }

  /** Directive `d` is what section `s` says. */
  ghost predicate Says(s: Section, d: Directive) {
    && s.SetKey? && d.section + "." + d.keyword == s.key && d.value == s.value
    && d.section != [] && d.keyword != [] && '.' !in d.section
  }

  lemma ParsedWhen(key: Text, value: Text)
    ensures Parse(key, value).Some? <==> Splits(key)
    ensures Parse(key, value).Some? ==> Says(SetKey(key, value), Parse(key, value).value)
  {
    DotIs(key);
    if Parse(key, value).Some? {
      ParsedKey(key, value);
      assert 0 < FirstDot(key) < |key| - 1;
    }
    if Splits(key) {
      var dot :| 0 < dot < |key| - 1 && key[dot] == '.' && '.' !in key[..dot];
      FirstDotIs(key, dot);
    }
  }

  lemma {:induction false} FirstDotIs(key: Text, dot: nat)
    requires dot < |key| && key[dot] == '.' && '.' !in key[..dot]
    ensures FirstDot(key) == dot
  {
    if dot > 0 {
      assert key[0] in key[..dot];
      assert forall c :: c in key[1..][..dot - 1] ==> c in key[..dot];
      FirstDotIs(key[1..], dot - 1);
    }
  }

  /** The directives are those of the input in its order: as many as there are, each what its section says.
      Collecting fails exactly when there are more than 128, or a key does not split. */
  lemma {:induction false} CollectedAre(sections: seq<Section>) returns (ps: seq<nat>)
    ensures Positions(sections, ps)
    ensures Collected(sections).Some? <==> |ps| <= 128 && AllSplit(sections, ps)
    ensures Collected(sections).Some? ==>
      && |Collected(sections).value| == |ps|
      && forall i :: 0 <= i < |ps| ==> Says(sections[ps[i]], Collected(sections).value[i])
    decreases |sections|
  {
    hide Parse;
    hide Splits;
    hide Says;
    hide Positions;
    if sections == [] {
      ps := [];
      NoPositions();
    } else {
      var n := |sections| - 1;
      var qs := CollectedAre(sections[..n]);
      ps := if sections[n].SetKey? then qs + [n] else qs;
      PositionsMore(sections, qs);
      assert forall i :: 0 <= i < |qs| ==> ps[i] == qs[i];
      SplitsMore(sections, qs);
      hide AllSplit;
      if sections[n].SetKey? {
        ParsedWhen(sections[n].key, sections[n].value);
      }
    }
  }

  /** The keys at all positions split. */
  ghost predicate AllSplit(sections: seq<Section>, ps: seq<nat>) {
    forall i :: 0 <= i < |ps| ==> ps[i] < |sections| && sections[ps[i]].SetKey? && Splits(sections[ps[i]].key)
  }

  lemma SplitsMore(sections: seq<Section>, qs: seq<nat>)
    requires sections != [] && Positions(sections[..|sections| - 1], qs)
    ensures var n := |sections| - 1;
      AllSplit(sections, if sections[n].SetKey? then qs + [n] else qs)
      <==> AllSplit(sections[..n], qs) && (sections[n].SetKey? ==> Splits(sections[n].key))
  {
    hide Splits;
    var n := |sections| - 1;
    var ps := if sections[n].SetKey? then qs + [n] else qs;
    assert forall i :: 0 <= i < |qs| ==> qs[i] < n && ps[i] == qs[i] && sections[..n][qs[i]] == sections[qs[i]];
    hide Positions;
    assert sections[n].SetKey? ==> ps[|qs|] == n;
    if AllSplit(sections, ps) {
      forall i | 0 <= i < |qs|
        ensures Splits(sections[..n][qs[i]].key)
      {
        assert Splits(sections[ps[i]].key);
      }
    }
  }

  lemma NoPositions()
    ensures Positions([], []) && AllSplit([], [])
  {
  }

  lemma PositionsMore(sections: seq<Section>, qs: seq<nat>)
    requires sections != [] && Positions(sections[..|sections| - 1], qs)
    ensures var n := |sections| - 1;
      && Positions(sections, if sections[n].SetKey? then qs + [n] else qs)
      && forall i :: 0 <= i < |qs| ==> qs[i] < n && sections[qs[i]] == sections[..n][qs[i]]
  {
    var n := |sections| - 1;
    var ps := if sections[n].SetKey? then qs + [n] else qs;
    forall p: nat | p < |sections| && sections[p].SetKey?
      ensures p in ps
    {
      if p < n {
        assert sections[..n][p] == sections[p] && p in qs;
      } else {
        assert ps[|qs|] == n;
      }
    }
  }

  // ----- their order in the deck

  /** Directive `i` is token `p` of the deck. */
  predicate At(deck: seq<Token>, p: nat, i: nat) {
    p < |deck| && deck[p] == Set(i)
  }

  /** In the deck the directives of one section stand in the order in which the input has them. */
  lemma DeckOrder(sections: seq<Section>, ps: seq<nat>, ds: seq<Directive>, p: nat, q: nat, i: nat, j: nat)
    requires Collected(sections) == Some(ds) && Positions(sections, ps) && |ps| == |ds|
    requires i < |ds| && j < |ds| && i != j && SameName(ds[i].section, ds[j].section)
    requires At(Whole(ds, sections).tokens, p, i) && At(Whole(ds, sections).tokens, q, j)
    ensures ps[i] < ps[j] <==> p < q
  {
    hide Whole;
    hide SameName;
    EveryDirectiveOnce(ds, sections);
    var deck := Whole(ds, sections).tokens;
    NameSymmetric(ds[i].section, ds[j].section);
    if p < q {
      assert Alike(ds, deck[p], deck[q]);
    } else if q < p {
      assert Alike(ds, deck[q], deck[p]);
    }
  }

  lemma NameSymmetric(a: Text, b: Text)
    requires SameName(a, b)
    ensures SameName(b, a)
  {
  }

  /** Names agree when every character does, or is the other one's capital or small letter. */
  lemma NamesAgree(a: Text, b: Text)
    ensures SameName(a, b) <==>
      |a| == |b| && forall i :: 0 <= i < |a| ==>
        || a[i] == b[i]
        || ('a' <= a[i] <= 'z' && a[i] as int == b[i] as int + 32)
        || ('a' <= b[i] <= 'z' && b[i] as int == a[i] as int + 32)
  {
  }

  // ----- which sections are opened

  /** The names under which the sections of the input are opened. */
  function Opened(sections: seq<Section>): seq<Text> {
    if sections == [] then []
    else
      Opened(sections[..|sections| - 1]) +
      match sections[|sections| - 1]
      case Standard(n) => [n]
      case Generic(n) => [n]
      case _ => []
  }

  /** The section is in the input, or inside raw text of it. */
  predicate InInput(sections: seq<Section>, n: Text) {
    exists i :: 0 <= i < |sections| && Brings(sections[i], n)
  }

  predicate Brings(s: Section, n: Text) {
    s == Standard(n) || (s.Raw? && n in s.has)
  }

  function Missing(sections: seq<Section>, n: Text): seq<Text> {
    if InInput(sections, n) then [] else [n]
  }

  lemma {:induction false} HasIs(sections: seq<Section>, n: Text)
    ensures n in Has(sections) <==> InInput(sections, n)
    decreases |sections|
  {
    if sections != [] {
      var k := |sections| - 1;
      HasIs(sections[..k], n);
      assert forall i :: 0 <= i < k ==> sections[..k][i] == sections[i];
      if InInput(sections, n) && !Brings(sections[k], n) {
        var i :| 0 <= i < |sections| && Brings(sections[i], n);
        assert Brings(sections[..k][i], n);
      }
      if InInput(sections[..k], n) {
        var i :| 0 <= i < k && Brings(sections[..k][i], n);
        assert Brings(sections[i], n);
      }
    }
  }

  lemma BlockOpening(ds: seq<Directive>, d: Deck, name: Text, key: Text)
    requires |d.done| == |ds|
    ensures Openings(WithBlock(ds, d, name, key).tokens) == Openings(d.tokens) + [name]
  {
    hide Emits;
    hide Marked;
    hide SetDirectives.Pending;
    var es := Emits(ds, d.done, key, 0);
    EmitsWhat(ds, d.done, key, 0);
    assert forall p :: 0 <= p < |es| ==> es[p] in es;
    NoOpenings([Other] + es + [Close]);
    assert Block(ds, d.done, name, key) == [Open(name)] + ([Other] + es + [Close]);
    OpeningsJoin([Open(name)], [Other] + es + [Close]);
    assert Openings([Open(name)]) == [name];
    OpeningsJoin(d.tokens, Block(ds, d.done, name, key));
  }

  lemma {:induction false} InputOpens(ds: seq<Directive>, d: Deck, sections: seq<Section>)
    requires |d.done| == |ds|
    ensures Openings(WithInput(ds, d, sections).tokens) == Openings(d.tokens) + Opened(sections)
    decreases |sections|
  {
    hide WithBlock;
    hide Openings;
    if sections == [] {
      assert Openings(d.tokens) + [] == Openings(d.tokens);
    } else {
      var k := |sections| - 1;
      InputOpens(ds, d, sections[..k]);
      SectionOpens(ds, WithInput(ds, d, sections[..k]), sections[k]);
    }
  }

  lemma SectionOpens(ds: seq<Directive>, d: Deck, s: Section)
    requires |d.done| == |ds|
    ensures Openings(WithSection(ds, d, s).tokens) == Openings(d.tokens) +
      match s case Standard(n) => [n] case Generic(n) => [n] case _ => []
  {
    hide WithBlock;
    match s
    case Standard(n) => BlockOpening(ds, d, n, n);
    case Generic(n) =>
      if n == [] {
        OpeningsJoin(d.tokens, [Open([]), Other, Close]);
        OpeningsJoin([Open([])], [Other, Close]);
        NoOpenings([Other, Close]);
        assert [Open([])] + [Other, Close] == [Open([]), Other, Close];
        assert Openings([Open([])]) == [[]];
      } else {
        BlockOpening(ds, d, n, CString(n));
      }
    case SetKey(_, _) =>
      assert Openings(d.tokens) + [] == Openings(d.tokens);
    case Raw(_) =>
      OpeningsJoin(d.tokens, [Other]);
      NoOpenings([Other]);
  }

  lemma DefaultOpens(ds: seq<Directive>, d: Deck, sections: seq<Section>, k: nat)
    requires |d.done| == |ds| && 0 < k <= |DEFAULTS|
    ensures Openings(WithDefaults(ds, d, Has(sections), k).tokens)
         == Openings(WithDefaults(ds, d, Has(sections), k - 1).tokens) + Missing(sections, DEFAULTS[k - 1])
  {
    hide WithBlock;
    hide Openings;
    HasIs(sections, DEFAULTS[k - 1]);
    var e := WithDefaults(ds, d, Has(sections), k - 1);
    BlockOpening(ds, e, DEFAULTS[k - 1], DEFAULTS[k - 1]);
    assert Openings(e.tokens) + [] == Openings(e.tokens);
  }

  /** The sections of the input are opened in their order; behind them those of the four standard ones that the
      input has neither as a section nor inside raw text, and no other. */
  lemma StandardOpened(ds: seq<Directive>, sections: seq<Section>)
    ensures Openings(Early(ds, sections).tokens)
         == Opened(sections) + Missing(sections, "CPMD") + Missing(sections, "SYSTEM") + Missing(sections, "DFT")
            + Missing(sections, "ATOMS")
  {
    hide WithBlock;
    hide WithInput;
    hide Openings;
    var d := WithInput(ds, Deck([], Unset(|ds|)), sections);
    InputOpens(ds, Deck([], Unset(|ds|)), sections);
    NoOpenings([]);
    assert [] + Opened(sections) == Opened(sections);
    DefaultOpens(ds, d, sections, 1);
    DefaultOpens(ds, d, sections, 2);
    DefaultOpens(ds, d, sections, 3);
    DefaultOpens(ds, d, sections, 4);
  }

  /** The deck of an input whose sections refuse nothing and whose appends fit is rendered exactly when there are
      at most 128 directives, every key splits, and no generic name has 64 or more characters. */
  lemma RenderedWhen(sections: seq<Section>) returns (ps: seq<nat>)
    ensures Positions(sections, ps)
    ensures Collected(sections).Some? && NamesFit(sections) <==>
      && |ps| <= 128 && AllSplit(sections, ps)
      && forall i :: 0 <= i < |sections| && sections[i].Generic? ==> |sections[i].name| <= 63
  {
    hide Splits;
    hide Positions;
    ps := CollectedAre(sections);
    if NamesFit(sections) {
      assert forall i :: 0 <= i < |sections| ==> NameFits(sections[i]);
    }
  }
}
