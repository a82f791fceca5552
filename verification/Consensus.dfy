/** The rank consensus of cpmdc.c: the ranks of one calculator answer a force call together, through a
    fixed sequence of collectives.  Every rank runs the same program on its own data. */
module Consensus {
  import opened Options

  // ----- numbers

  /** A double: a real number, an infinity or no number. */
  datatype Double = Fin(x: real) | PosInf | NegInf | NaN

  predicate Same(a: Double, b: Double) {
    a != NaN && a == b
  }

  /** `rank_difference`: zero where equal, otherwise the distance, infinite where there is none. */
  function Difference(local: Double, root: Double): (d: Double)
    ensures d == PosInf || (d.Fin? && d.x >= 0.0)
  {
    if Same(local, root) then Fin(0.0)
    else if local.Fin? && root.Fin? then Fin(if local.x < root.x then root.x - local.x else local.x - root.x)
    else PosInf
  }

  /** A distance is |x - y| for finite numbers, nothing between equal infinities, and infinite everywhere else. */
  lemma DifferenceIs(a: Double, b: Double)
    ensures a.Fin? && b.Fin? && a.x >= b.x ==> Difference(a, b) == Fin(a.x - b.x)
    ensures a.Fin? && b.Fin? && a.x <= b.x ==> Difference(a, b) == Fin(b.x - a.x)
    ensures a == b && !a.Fin? && !a.NaN? ==> Difference(a, b) == Fin(0.0)
    ensures NoDistance(a, b) ==> Difference(a, b) == PosInf
  {
  }

  /** The order of distances. */
  predicate AtMost(a: Double, b: Double) {
    b == PosInf || (a.Fin? && b.Fin? && a.x <= b.x)
  }

  function Larger(a: Double, b: Double): Double {
    if AtMost(a, b) then b else a
  }

  /** The largest of some distances, zero when there are none. */
  function MaxOf(s: seq<Double>): (d: Double) {
    if s == [] then Fin(0.0) else Larger(MaxOf(s[..|s| - 1]), s[|s| - 1])
  }

  function Differences(grad: seq<Double>, root: seq<Double>): (s: seq<Double>)
    requires |grad| == |root|
  {
    seq(|grad|, i requires 0 <= i < |grad| => Difference(grad[i], root[i]))
  }

  /** The deviation loop of `rank_consensus`. */
  method Deviation(grad: seq<Double>, root: seq<Double>) returns (dev: Double)
    requires |grad| == |root|
    ensures dev == MaxOf(Differences(grad, root))
  {
    dev := Fin(0.0);
    ghost var all := Differences(grad, root);
    var i := 0;
    while i < |grad|
      invariant 0 <= i <= |grad| && dev == MaxOf(all[..i])
    {
      var d := Difference(grad[i], root[i]);
      assert all[..i + 1][..i] == all[..i];
      if !AtMost(d, dev) {
        dev := d;
      }
      MaxIs(all[..i]);
      i := i + 1;
    }
    assert all[..i] == all;
  }

  predicate Distance(d: Double) {
    d == PosInf || (d.Fin? && d.x >= 0.0)
  }

  /** No distance exceeds the maximum, and it is one of them. */
  lemma {:induction false} MaxIs(s: seq<Double>)
    requires forall i :: 0 <= i < |s| ==> Distance(s[i])
    ensures Distance(MaxOf(s)) && forall i :: 0 <= i < |s| ==> AtMost(s[i], MaxOf(s))
    ensures MaxOf(s) == Fin(0.0) || MaxOf(s) in s
  {
    if s != [] {
      var n := |s| - 1;
      MaxIs(s[..n]);
      forall i | 0 <= i < |s|
        ensures AtMost(s[i], MaxOf(s))
      {
        assert i < n ==> s[..n][i] == s[i];
      }
    }
  }

  // ----- one rank

  /** A stored result for a request of type `G`. */
  datatype Cached<G> = Cached(request: G, energy: Double, grad: seq<Double>)

  /** How a stored gradient fits another request, if it does. */
  type Reuse<!G> = (Cached<G>, G) -> Option<seq<Double>>

  /** What one rank's own part of a call comes to: whether its topology guard and its engine setup accept,
      whether the engine is up, how its evaluation ends, whether it has memory for the root's result, and for
      its own cache. */
  datatype Local = Local(accepts: bool, configures: bool, up: bool, ok: bool, stop: bool, room: bool,
                         energy: Double, grad: seq<Double>, stores: bool)
  {
    /** The rank gets as far as the collectives of `rank_consensus`. */
    predicate Enters() { configures && up }
  }

  datatype Reply = Failed | Ok(energy: Double, grad: seq<Double>)

  datatype Kind = MinHit | MaxFlags | BcastResult | BcastImage | MaxDeviation

  /** Where a rank stands: at a collective with its contribution, or done. */
  datatype Point =
    | AtHit(hit: bool)
    | AtFlags(bad: bool, stop: bool)
    | AtResult
    | AtImage(energy: Double, grad: seq<Double>)
    | AtSpread(energy: Double, grad: seq<Double>, devEnergy: Double, devGrad: Double)
    | Done(reply: Reply)

  function Collective(p: Point): Option<Kind> {
    match p
    case AtHit(_) => Some(MinHit)
    case AtFlags(_, _) => Some(MaxFlags)
    case AtResult => Some(BcastResult)
    case AtImage(_, _) => Some(BcastImage)
    case AtSpread(_, _, _, _) => Some(MaxDeviation)
    case Done(_) => None
  }

  /** What a collective gives back to every rank. */
  datatype Answer = AllHit(all: bool) | AnyFlag(bad: bool, stop: bool) | Root(energy: Double, grad: seq<Double>)
                  | RootImage | Spread(devEnergy: Double, devGrad: Double)

  function Fit<G(!new)>(reuse: Reuse<G>, cache: Option<Cached<G>>, request: G): Option<Reply> {
    match cache
    case None => None
    case Some(c) =>
      match reuse(c, request)
      case None => None
      case Some(g) => Some(Ok(c.energy, g))
  }

  function Begin<G(!new)>(reuse: Reuse<G>, cache: Option<Cached<G>>, request: G, local: Local): Point {
    if !local.accepts then Done(Failed) else AtHit(Fit(reuse, cache, request).Some?)
  }

  /** The program of one rank from one collective to the next. */
  function Resume<G(!new)>(reuse: Reuse<G>, cache: Option<Cached<G>>, request: G, local: Local, p: Point,
                           a: Answer): Point {
    match (p, a)
    case (AtHit(hit), AllHit(all)) =>
      if all then Done(if Fit(reuse, cache, request).Some? then Fit(reuse, cache, request).value else Failed)
      else if !local.Enters() then Done(Failed)
      else AtFlags(!local.ok || !local.room, local.stop)
    case (AtFlags(_, _), AnyFlag(bad, stop)) => if bad || stop then Done(Failed) else AtResult
    case (AtResult, Root(e, g)) => AtImage(e, g)
    case (AtImage(e, g), RootImage) =>
      AtSpread(e, g, Difference(local.energy, e),
               if |local.grad| == |g| then MaxOf(Differences(local.grad, g)) else PosInf)
    case (AtSpread(e, g, _, _), Spread(_, _)) => Done(Ok(e, g))
    case _ => p
  }

  // ----- all ranks

  /** The calculator before a request: each rank's cache, and its part of the call. */
  datatype Call<G> = Call(request: G, caches: seq<Option<Cached<G>>>, locals: seq<Local>)

  predicate CallOk<G>(c: Call<G>) {
    |c.caches| == |c.locals| > 0
    && forall r :: 0 <= r < |c.locals| ==> |c.locals[r].grad| == |c.locals[0].grad|
  }

  predicate Aligned(ps: seq<Point>) {
    forall r :: 0 <= r < |ps| ==> Collective(ps[r]) == Collective(ps[0])
  }

  /** What the collective at which all ranks stand computes. */
  function Combine<G>(c: Call<G>, ps: seq<Point>): Answer
    requires |ps| == |c.locals| > 0
  {
    match ps[0]
    case AtHit(_) => AllHit(forall r :: 0 <= r < |ps| ==> ps[r].AtHit? && ps[r].hit)
    case AtFlags(_, _) => AnyFlag(exists r :: 0 <= r < |ps| && ps[r].AtFlags? && ps[r].bad,
                                  exists r :: 0 <= r < |ps| && ps[r].AtFlags? && ps[r].stop)
    case AtResult => Root(c.locals[0].energy, c.locals[0].grad)
    case AtImage(_, _) => RootImage
    case AtSpread(_, _, _, _) =>
      Spread(MaxOf(seq(|ps|, r requires 0 <= r < |ps| => if ps[r].AtSpread? then ps[r].devEnergy else Fin(0.0))),
             MaxOf(seq(|ps|, r requires 0 <= r < |ps| => if ps[r].AtSpread? then ps[r].devGrad else Fin(0.0))))
    case Done(_) => RootImage
  }

  function Advance<G(!new)>(reuse: Reuse<G>, c: Call<G>, ps: seq<Point>): (qs: seq<Point>)
    requires CallOk(c) && |ps| == |c.locals|
    ensures |qs| == |ps|
  {
    var a := Combine(c, ps);
    seq(|ps|, r requires 0 <= r < |ps| => Resume(reuse, c.caches[r], c.request, c.locals[r], ps[r], a))
  }

  function Stage(p: Point): nat {
    match p
    case AtHit(_) => 5
    case AtFlags(_, _) => 4
    case AtResult => 3
    case AtImage(_, _) => 2
    case AtSpread(_, _, _, _) => 1
    case Done(_) => 0
  }

  /** How a call ends: the ranks' replies, the collectives that every rank issued, and the last answer. */
  datatype Outcome = Outcome(replies: seq<Point>, trace: seq<Kind>, last: Option<Answer>)

  /** The ranks go from collective to collective together; None when one of them waits for a rank that
      never comes. */
  function Go<G(!new)>(reuse: Reuse<G>, c: Call<G>, ps: seq<Point>, sofar: Outcome): Option<Outcome>
    requires CallOk(c) && |ps| == |c.locals|
    decreases Stage(ps[0])
  {
    if !Aligned(ps) then None
    else if ps[0].Done? then Some(sofar.(replies := ps))
    else
      var qs := Advance(reuse, c, ps);
      Go(reuse, c, qs, Outcome([], sofar.trace + [Collective(ps[0]).value], Some(Combine(c, ps))))
  }

  function Start<G(!new)>(reuse: Reuse<G>, c: Call<G>): (ps: seq<Point>)
    requires CallOk(c)
    ensures |ps| == |c.locals|
  {
    seq(|c.locals|, r requires 0 <= r < |c.locals| => Begin(reuse, c.caches[r], c.request, c.locals[r]))
  }

  function Run<G(!new)>(reuse: Reuse<G>, c: Call<G>): Option<Outcome>
    requires CallOk(c)
  {
    Go(reuse, c, Start(reuse, c), Outcome([], [], None))
  }

  // ----- what a call comes to

  predicate AllFit<G(!new)>(reuse: Reuse<G>, c: Call<G>)
    requires CallOk(c)
  {
    forall r :: 0 <= r < |c.locals| ==> Fit(reuse, c.caches[r], c.request).Some?
  }

  predicate Sound(l: Local) {
    l.ok && l.room && !l.stop
  }

  predicate AllSound<G>(c: Call<G>) {
    forall r :: 0 <= r < |c.locals| ==> Sound(c.locals[r])
  }

  predicate AllAccept<G>(c: Call<G>) { forall r :: 0 <= r < |c.locals| ==> c.locals[r].accepts }
  predicate NoneAccepts<G>(c: Call<G>) { forall r :: 0 <= r < |c.locals| ==> !c.locals[r].accepts }
  predicate AllEnter<G>(c: Call<G>) { forall r :: 0 <= r < |c.locals| ==> c.locals[r].Enters() }
  predicate NoneEnters<G>(c: Call<G>) { forall r :: 0 <= r < |c.locals| ==> !c.locals[r].Enters() }

  /** Rank `r` gives this reply. */
  predicate Replies(o: Outcome, r: nat, reply: Reply) {
    r < |o.replies| && o.replies[r] == Done(reply)
  }

  predicate Unanimous(o: Outcome, n: nat, reply: Reply) {
    |o.replies| == n && forall r :: 0 <= r < n ==> Replies(o, r, reply)
  }

  function Full(): seq<Kind> {
    [MinHit, MaxFlags, BcastResult, BcastImage, MaxDeviation]
  }

  lemma Points<G(!new)>(reuse: Reuse<G>, c: Call<G>, ps: seq<Point>)
    requires CallOk(c) && |ps| == |c.locals|
    ensures var qs := Advance(reuse, c, ps);
      forall r :: 0 <= r < |ps| ==> qs[r] == Resume(reuse, c.caches[r], c.request, c.locals[r], ps[r], Combine(c, ps))
  {
  }

  /** How far each rank's own energy is from rank 0's. */
  function EnergyDevs<G>(c: Call<G>): (s: seq<Double>)
    requires CallOk(c)
  {
    seq(|c.locals|, r requires 0 <= r < |c.locals| => Difference(c.locals[r].energy, c.locals[0].energy))
  }

  /** How far each rank's own gradient is from rank 0's, in its worst component. */
  function GradDevs<G>(c: Call<G>): (s: seq<Double>)
    requires CallOk(c)
  {
    seq(|c.locals|, r requires 0 <= r < |c.locals| => MaxOf(Differences(c.locals[r].grad, c.locals[0].grad)))
  }

  /** From the broadcast on nothing can go wrong: rank 0's result for all, and the spread. */
  lemma FromResult<G(!new)>(reuse: Reuse<G>, c: Call<G>, ps: seq<Point>, sofar: Outcome)
    requires CallOk(c) && |ps| == |c.locals| && forall r :: 0 <= r < |ps| ==> ps[r] == AtResult
    ensures var root := c.locals[0];
      var o := Go(reuse, c, ps, sofar);
      && o.Some? && o.value.trace == sofar.trace + [BcastResult, BcastImage, MaxDeviation]
      && |o.value.replies| == |ps| && (forall r :: 0 <= r < |ps| ==> Replies(o.value, r, Ok(root.energy, root.grad)))
      && o.value.last == Some(Spread(MaxOf(EnergyDevs(c)), MaxOf(GradDevs(c))))
  {
    hide MaxOf;
    hide Difference;
    Points(reuse, c, ps);
    var images := Advance(reuse, c, ps);
    Points(reuse, c, images);
    var spreads := Advance(reuse, c, images);
    Points(reuse, c, spreads);
    var done := Advance(reuse, c, spreads);
    assert seq(|ps|, r requires 0 <= r < |ps| => if spreads[r].AtSpread? then spreads[r].devEnergy else Fin(0.0))
      == EnergyDevs(c);
    assert seq(|ps|, r requires 0 <= r < |ps| => if spreads[r].AtSpread? then spreads[r].devGrad else Fin(0.0))
      == GradDevs(c);
    var o1 := Outcome([], sofar.trace + [BcastResult], Some(Combine(c, ps)));
    var o2 := Outcome([], o1.trace + [BcastImage], Some(Combine(c, images)));
    var o3 := Outcome([], o2.trace + [MaxDeviation], Some(Combine(c, spreads)));
    assert Go(reuse, c, ps, sofar) == Go(reuse, c, images, o1);
    assert Go(reuse, c, images, o1) == Go(reuse, c, spreads, o2);
    assert Go(reuse, c, spreads, o2) == Go(reuse, c, done, o3);
    assert o3.trace == sofar.trace + [BcastResult, BcastImage, MaxDeviation];
  }

  /** From the flags on: one verdict for all ranks. */
  lemma FromFlags<G(!new)>(reuse: Reuse<G>, c: Call<G>, ps: seq<Point>, sofar: Outcome)
    requires CallOk(c) && |ps| == |c.locals|
    requires forall r :: 0 <= r < |ps| ==> ps[r] == AtFlags(!c.locals[r].ok || !c.locals[r].room, c.locals[r].stop)
    ensures var root := c.locals[0];
      var o := Go(reuse, c, ps, sofar);
      && o.Some? && |o.value.replies| == |ps|
      && (AllSound(c) ==>
            && o.value.trace == sofar.trace + [MaxFlags, BcastResult, BcastImage, MaxDeviation]
            && (forall r :: 0 <= r < |ps| ==> Replies(o.value, r, Ok(root.energy, root.grad)))
            && o.value.last == Some(Spread(MaxOf(EnergyDevs(c)), MaxOf(GradDevs(c)))))
      && (!AllSound(c) ==>
            o.value.trace == sofar.trace + [MaxFlags] && forall r :: 0 <= r < |ps| ==> Replies(o.value, r, Failed))
  {
    hide MaxOf;
    Points(reuse, c, ps);
    var qs, a := Advance(reuse, c, ps), Combine(c, ps);
    var o1 := Outcome([], sofar.trace + [MaxFlags], Some(a));
    assert Go(reuse, c, ps, sofar) == Go(reuse, c, qs, o1);
    if AllSound(c) {
      assert forall r :: 0 <= r < |ps| ==> Sound(c.locals[r]);
      FromResult(reuse, c, qs, o1);
      assert sofar.trace + [MaxFlags] + [BcastResult, BcastImage, MaxDeviation]
          == sofar.trace + [MaxFlags, BcastResult, BcastImage, MaxDeviation];
    } else {
      var r :| 0 <= r < |c.locals| && !Sound(c.locals[r]);
      assert ps[r].bad || ps[r].stop;
      assert qs[0] == Done(Failed);
    }
  }

  /** A call is answered, with the same collectives on every rank, exactly when the topology guard
      accepts on all ranks or on none and, unless every rank has a fitting result stored, all ranks have an
      engine that is set up and up, or none has. */
  lemma CallCompletes<G(!new)>(reuse: Reuse<G>, c: Call<G>)
    requires CallOk(c)
    ensures Run(reuse, c).Some? <==>
      NoneAccepts(c) || (AllAccept(c) && (AllFit(reuse, c) || AllEnter(c) || NoneEnters(c)))
    ensures NoneAccepts(c) ==>
      Run(reuse, c).Some? && Run(reuse, c).value.trace == [] && AllReply(c, Run(reuse, c).value, Failed)
    ensures AllAccept(c) && !AllFit(reuse, c) && NoneEnters(c) ==>
      Run(reuse, c).Some? && Run(reuse, c).value.trace == [MinHit] && AllReply(c, Run(reuse, c).value, Failed)
    ensures AllAccept(c) && !AllFit(reuse, c) && AllEnter(c) && !AllSound(c) ==>
      Run(reuse, c).Some? && Run(reuse, c).value.trace == [MinHit, MaxFlags] && AllReply(c, Run(reuse, c).value, Failed)
    ensures AllAccept(c) && !AllFit(reuse, c) && AllEnter(c) && AllSound(c) ==>
      && Run(reuse, c).Some? && Run(reuse, c).value.trace == [MinHit, MaxFlags, BcastResult, BcastImage, MaxDeviation]
      && AllReply(c, Run(reuse, c).value, Ok(c.locals[0].energy, c.locals[0].grad))
      && Run(reuse, c).value.last == Some(Spread(MaxOf(EnergyDevs(c)), MaxOf(GradDevs(c))))
    ensures AllAccept(c) && AllFit(reuse, c) ==>
      Run(reuse, c).Some? && Run(reuse, c).value.trace == [MinHit] && |Run(reuse, c).value.replies| == |c.locals|
      && forall r :: 0 <= r < |c.locals| ==> Replies(Run(reuse, c).value, r, Fit(reuse, c.caches[r], c.request).value)
  {
    hide MaxOf;
    hide Fit;
    var ps := Start(reuse, c);
    assert forall r :: 0 <= r < |ps| ==> ps[r] == Begin(reuse, c.caches[r], c.request, c.locals[r]);
    if AllAccept(c) {
      FromHit(reuse, c, ps);
    } else if !NoneAccepts(c) {
      var r :| 0 <= r < |c.locals| && !c.locals[r].accepts;
      var q :| 0 <= q < |c.locals| && c.locals[q].accepts;
      assert Collective(ps[r]) != Collective(ps[q]);
    }
  }

  predicate AllReply<G>(c: Call<G>, o: Outcome, reply: Reply) {
    Unanimous(o, |c.locals|, reply)
  }

  lemma FromHit<G(!new)>(reuse: Reuse<G>, c: Call<G>, ps: seq<Point>)
    requires CallOk(c) && AllAccept(c) && ps == Start(reuse, c)
    ensures var o := Run(reuse, c);
      && (o.Some? <==> AllFit(reuse, c) || AllEnter(c) || NoneEnters(c))
      && (AllFit(reuse, c) ==>
            && o.Some? && o.value.trace == [MinHit] && |o.value.replies| == |c.locals|
            && forall r :: 0 <= r < |c.locals| ==> Replies(o.value, r, Fit(reuse, c.caches[r], c.request).value))
      && (!AllFit(reuse, c) && NoneEnters(c) ==> o.Some? && o.value.trace == [MinHit] && AllReply(c, o.value, Failed))
      && (!AllFit(reuse, c) && AllEnter(c) && !AllSound(c) ==>
            o.Some? && o.value.trace == [MinHit, MaxFlags] && AllReply(c, o.value, Failed))
      && (!AllFit(reuse, c) && AllEnter(c) && AllSound(c) ==>
            && o.Some? && o.value.trace == [MinHit, MaxFlags, BcastResult, BcastImage, MaxDeviation]
            && AllReply(c, o.value, Ok(c.locals[0].energy, c.locals[0].grad))
            && o.value.last == Some(Spread(MaxOf(EnergyDevs(c)), MaxOf(GradDevs(c)))))
  {
    hide MaxOf;
    hide Fit;
    hide Go;
    hide AllSound;
    var qs := AfterHit(reuse, c, ps);
    var o1 := Outcome([], [MinHit], Some(AllHit(AllFit(reuse, c))));
    GoDone(reuse, c, qs, o1);
    if !AllFit(reuse, c) {
      if AllEnter(c) {
        FromFlags(reuse, c, qs, o1);
      } else if !NoneEnters(c) {
        var r :| 0 <= r < |c.locals| && !c.locals[r].Enters();
        var q :| 0 <= q < |c.locals| && c.locals[q].Enters();
        assert Collective(qs[r]) != Collective(qs[q]);
      }
    }
  }

  /** The first collective. */
  lemma AfterHit<G(!new)>(reuse: Reuse<G>, c: Call<G>, ps: seq<Point>) returns (qs: seq<Point>)
    requires CallOk(c) && AllAccept(c) && ps == Start(reuse, c)
    ensures |qs| == |c.locals|
    ensures Run(reuse, c) == Go(reuse, c, qs, Outcome([], [MinHit], Some(AllHit(AllFit(reuse, c)))))
    ensures forall r :: 0 <= r < |qs| ==>
      qs[r] == if AllFit(reuse, c) then Done(Fit(reuse, c.caches[r], c.request).value)
               else if !c.locals[r].Enters() then Done(Failed)
               else AtFlags(!c.locals[r].ok || !c.locals[r].room, c.locals[r].stop)
  {
    hide MaxOf;
    hide Fit;
    assert forall r :: 0 <= r < |ps| ==> ps[r] == AtHit(Fit(reuse, c.caches[r], c.request).Some?);
    Points(reuse, c, ps);
    qs := Advance(reuse, c, ps);
    assert Combine(c, ps) == AllHit(AllFit(reuse, c));
    assert [] + [MinHit] == [MinHit];
  }

  lemma GoDone<G(!new)>(reuse: Reuse<G>, c: Call<G>, ps: seq<Point>, sofar: Outcome)
    requires CallOk(c) && |ps| == |c.locals|
    ensures (forall r :: 0 <= r < |ps| ==> ps[r].Done?) ==> Go(reuse, c, ps, sofar) == Some(sofar.(replies := ps))
    ensures !Aligned(ps) ==> Go(reuse, c, ps, sofar) == None
  {
  }

  // ----- runs of calls

  /** Stored results, where there are any, are the same on all ranks. */
  ghost predicate Agree<G(!new)>(caches: seq<Option<Cached<G>>>) {
    forall r, q :: 0 <= r < |caches| && 0 <= q < |caches| && caches[r].Some? && caches[q].Some? ==>
      caches[r] == caches[q]
  }

  /** The caches after a completed call: kept on a hit and where the engine refuses the setup, else stored
      where there is memory, else dropped, also where the engine is not up. */
  function Stored<G(!new)>(reuse: Reuse<G>, c: Call<G>, o: Outcome): (caches: seq<Option<Cached<G>>>)
    requires CallOk(c) && |o.replies| == |c.locals|
    ensures |caches| == |c.locals|
  {
    seq(|c.locals|, r requires 0 <= r < |c.locals| =>
      if !c.locals[r].accepts || AllFit(reuse, c) || !c.locals[r].configures then c.caches[r]
      else if o.replies[r].Done? && o.replies[r].reply.Ok? && c.locals[r].stores then
        Some(Cached(c.request, o.replies[r].reply.energy, o.replies[r].reply.grad))
      else None)
  }

  /** The guards give every rank the same answer. */
  predicate Uniform<G>(c: Call<G>) {
    && (AllAccept(c) || NoneAccepts(c)) && (AllEnter(c) || NoneEnters(c))
  }

  /** Rank 0's own result of a call. */
  function Own<G>(c: Call<G>): Reply
    requires CallOk(c)
  {
    Ok(c.locals[0].energy, c.locals[0].grad)
  }

  /** How good replies come about: rank 0's own result through all five collectives, the last of which gives
      the greatest deviations of the ranks; or the stored result after the first one. */
  predicate Sourced<G(!new)>(reuse: Reuse<G>, c: Call<G>, o: Outcome, reply: Reply)
    requires CallOk(c)
  {
    reply.Ok? ==>
      || (reply == Own(c) && o.trace == Full() && o.last == Some(Spread(MaxOf(EnergyDevs(c)), MaxOf(GradDevs(c)))))
      || (Fit(reuse, c.caches[0], c.request) == Some(reply) && o.trace == [MinHit])
  }

  /** One call: all ranks answer alike, a good answer is rank 0's own or the stored one, and what is stored
      afterwards was stored before or is rank 0's own. */
  lemma CallAgrees<G(!new)>(reuse: Reuse<G>, c: Call<G>)
    requires CallOk(c) && Agree(c.caches) && Uniform(c)
    ensures Run(reuse, c).Some? && |Run(reuse, c).value.replies| == |c.locals|
    ensures var o := Run(reuse, c).value;
      && o.trace <= Full()
      && (exists reply :: AllReply(c, o, reply) && Sourced(reuse, c, o, reply))
      && Agree(Stored(reuse, c, o))
      && forall r :: 0 <= r < |c.locals| ==>
           Stored(reuse, c, o)[r] in {None, c.caches[r], Some(Cached(c.request, c.locals[0].energy, c.locals[0].grad))}
  {
    hide Run;
    hide MaxOf;
    CallCompletes(reuse, c);
    var o := Run(reuse, c).value;
    if AllAccept(c) && AllFit(reuse, c) {
      var reply := Fit(reuse, c.caches[0], c.request).value;
      forall r | 0 <= r < |c.locals|
        ensures Replies(o, r, reply)
      {
        assert c.caches[r].Some? && c.caches[0].Some? && c.caches[r] == c.caches[0];
      }
      assert AllReply(c, o, reply);
    } else if AllAccept(c) && AllEnter(c) && AllSound(c) {
      assert AllReply(c, o, Ok(c.locals[0].energy, c.locals[0].grad));
      forall r | 0 <= r < |c.locals|
        ensures Stored(reuse, c, o)[r] in {None, Some(Cached(c.request, c.locals[0].energy, c.locals[0].grad))}
      {
        assert Replies(o, r, Ok(c.locals[0].energy, c.locals[0].grad));
      }
    } else {
      assert AllReply(c, o, Failed);
      forall r | 0 <= r < |c.locals|
        ensures Stored(reuse, c, o)[r] in {None, c.caches[r]}
      {
        assert Replies(o, r, Failed);
      }
    }
  }

  /** The requests of a run, with every rank's own part of each. */
  datatype Step<G> = Step(request: G, locals: seq<Local>)

  function At<G>(caches: seq<Option<Cached<G>>>, s: Step<G>): Call<G> {
    Call(s.request, caches, s.locals)
  }

  /** The outcomes of a run, as far as it gets. */
  function RunAll<G(!new)>(reuse: Reuse<G>, caches: seq<Option<Cached<G>>>, steps: seq<Step<G>>): seq<Outcome>
    decreases |steps|
  {
    if steps == [] || !CallOk(At(caches, steps[0])) then []
    else
      var c := At(caches, steps[0]);
      var o := Run(reuse, c);
      if o.None? || |o.value.replies| != |c.locals| then []
      else [o.value] + RunAll(reuse, Stored(reuse, c, o.value), steps[1..])
  }

  ghost predicate StepsOk<G(!new)>(n: nat, steps: seq<Step<G>>) {
    forall i :: 0 <= i < |steps| ==>
      && |steps[i].locals| == n > 0
      && (forall r :: 0 <= r < n ==> |steps[i].locals[r].grad| == |steps[i].locals[0].grad|)
      && (forall r :: 0 <= r < n ==> steps[i].locals[r].accepts == steps[i].locals[0].accepts
                                     && steps[i].locals[r].Enters() == steps[i].locals[0].Enters())
  }

  /** A stored result that was there before the run, or that is rank 0's own of an earlier step. */
  ghost predicate Earlier<G(!new)>(caches: seq<Option<Cached<G>>>, steps: seq<Step<G>>, i: nat, x: Cached<G>) {
    || Some(x) in caches
    || exists j :: 0 <= j < i && j < |steps| && |steps[j].locals| > 0
         && x == Cached(steps[j].request, steps[j].locals[0].energy, steps[j].locals[0].grad)
  }

  /** The caches that the ranks hold before step `i` of a run that gets that far. */
  function CachesAt<G(!new)>(reuse: Reuse<G>, caches: seq<Option<Cached<G>>>, steps: seq<Step<G>>, i: nat)
    : seq<Option<Cached<G>>>
    requires i <= |steps|
    decreases i
  {
    if i == 0 || !CallOk(At(caches, steps[0])) then caches
    else
      var c := At(caches, steps[0]);
      var o := Run(reuse, c);
      if o.None? || |o.value.replies| != |c.locals| then caches
      else CachesAt(reuse, Stored(reuse, c, o.value), steps[1..], i - 1)
  }

  /** Step `i` of a run: all ranks give one reply, of known origin, and so is what they have stored by then. */
  ghost predicate Answered<G(!new)>(reuse: Reuse<G>, caches: seq<Option<Cached<G>>>, steps: seq<Step<G>>, i: nat,
                                    o: Outcome)
    requires i < |steps|
  {
    var cs := CachesAt(reuse, caches, steps, i);
    var c := At(cs, steps[i]);
    && CallOk(c) && Run(reuse, c) == Some(o) && o.trace <= Full()
    && (exists reply :: AllReply(c, o, reply) && Sourced(reuse, c, o, reply))
    && Agree(cs) && forall r :: 0 <= r < |cs| && cs[r].Some? ==> Earlier(caches, steps, i, cs[r].value)
  }

  /** Over any run of the same requests on all ranks, with the same verdict of the guards, no rank ever
      waits for another.  In every call all ranks give one and the same reply; a good one is rank 0's own,
      with the spread of that call, or what the ranks have stored, which was rank 0's own in an earlier call. */
  lemma {:induction false} RunAgrees<G(!new)>(reuse: Reuse<G>, caches: seq<Option<Cached<G>>>, steps: seq<Step<G>>,
                                              n: nat)
    requires n > 0 && |caches| == n && Agree(caches) && StepsOk(n, steps)
    ensures |RunAll(reuse, caches, steps)| == |steps|
    ensures forall i :: 0 <= i < |steps| ==> Answered(reuse, caches, steps, i, RunAll(reuse, caches, steps)[i])
    decreases |steps|
  {
    hide Run;
    hide Stored;
    hide Sourced;
    hide Earlier;
    hide Agree;
    if steps != [] {
      var c := At(caches, steps[0]);
      CallAgrees(reuse, c);
      var o := Run(reuse, c).value;
      var next := Stored(reuse, c, o);
      RunAgrees(reuse, next, steps[1..], n);
      var all, rest := RunAll(reuse, caches, steps), RunAll(reuse, next, steps[1..]);
      StartEarlier(caches, steps);
      forall i | 0 <= i < |steps|
        ensures Answered(reuse, caches, steps, i, all[i])
      {
        if i > 0 {
          assert all[i] == rest[i - 1] && steps[1..][i - 1] == steps[i];
          assert Answered(reuse, next, steps[1..], i - 1, rest[i - 1]);
          var cs := CachesAt(reuse, next, steps[1..], i - 1);
          assert cs == CachesAt(reuse, caches, steps, i);
          forall r | 0 <= r < |cs| && cs[r].Some?
            ensures Earlier(caches, steps, i, cs[r].value)
          {
            EarlierStep(caches, next, steps, i, cs[r].value);
          }
        }
      }
    }
  }

  lemma StartEarlier<G(!new)>(caches: seq<Option<Cached<G>>>, steps: seq<Step<G>>)
    ensures forall r :: 0 <= r < |caches| && caches[r].Some? ==> Earlier(caches, steps, 0, caches[r].value)
  {
  }

  lemma EarlierStep<G(!new)>(caches: seq<Option<Cached<G>>>, next: seq<Option<Cached<G>>>, steps: seq<Step<G>>, i: nat,
                             x: Cached<G>)
    requires 0 < i < |steps| && |steps[0].locals| > 0 && |next| == |caches| && Earlier(next, steps[1..], i - 1, x)
    requires forall r :: 0 <= r < |next| ==>
      next[r] in {None, caches[r], Some(Cached(steps[0].request, steps[0].locals[0].energy, steps[0].locals[0].grad))}
    ensures Earlier(caches, steps, i, x)
  {
    if Some(x) in next {
      var r :| 0 <= r < |next| && next[r] == Some(x);
      if next[r] != caches[r] {
        assert x == Cached(steps[0].request, steps[0].locals[0].energy, steps[0].locals[0].grad);
      }
    } else {
      var j :| 0 <= j < i - 1 && j < |steps[1..]| && |steps[1..][j].locals| > 0
        && x == Cached(steps[1..][j].request, steps[1..][j].locals[0].energy, steps[1..][j].locals[0].grad);
      assert steps[1..][j] == steps[j + 1];
    }
  }

  lemma EnergySpread<G(!new)>(c: Call<G>)
    requires CallOk(c)
    ensures forall r :: 0 <= r < |c.locals| ==>
      AtMost(Difference(c.locals[r].energy, c.locals[0].energy), MaxOf(EnergyDevs(c)))
    ensures MaxOf(EnergyDevs(c)) == Fin(0.0)
            || exists r :: 0 <= r < |c.locals|
                 && MaxOf(EnergyDevs(c)) == Difference(c.locals[r].energy, c.locals[0].energy)
  {
    hide MaxOf;
    hide AtMost;
    hide Difference;
    var devs := EnergyDevs(c);
    assert forall r :: 0 <= r < |devs| ==> devs[r] == Difference(c.locals[r].energy, c.locals[0].energy);
    MaxIs(devs);
  }

  lemma GradRank<G(!new)>(c: Call<G>, r: nat)
    requires CallOk(c) && r < |c.locals|
    ensures var d := GradDevs(c)[r];
      && Distance(d)
      && (forall i :: 0 <= i < |c.locals[r].grad| ==> AtMost(Difference(c.locals[r].grad[i], c.locals[0].grad[i]), d))
      && (d == Fin(0.0) || exists i :: 0 <= i < |c.locals[r].grad|
                             && d == Difference(c.locals[r].grad[i], c.locals[0].grad[i]))
  {
    hide MaxOf;
    hide AtMost;
    hide Difference;
    var own := Differences(c.locals[r].grad, c.locals[0].grad);
    assert forall i :: 0 <= i < |own| ==> own[i] == Difference(c.locals[r].grad[i], c.locals[0].grad[i]);
    MaxIs(own);
  }

  lemma AtMostTrans(a: Double, b: Double, c: Double)
    requires AtMost(a, b) && AtMost(b, c)
    ensures AtMost(a, c)
  {
  }

  lemma GradSpread<G(!new)>(c: Call<G>)
    requires CallOk(c)
    ensures forall r, i :: 0 <= r < |c.locals| && 0 <= i < |c.locals[r].grad| ==>
              AtMost(Difference(c.locals[r].grad[i], c.locals[0].grad[i]), MaxOf(GradDevs(c)))
    ensures MaxOf(GradDevs(c)) == Fin(0.0)
            || exists r, i :: 0 <= r < |c.locals| && 0 <= i < |c.locals[r].grad|
                 && MaxOf(GradDevs(c)) == Difference(c.locals[r].grad[i], c.locals[0].grad[i])
  {
    hide MaxOf;
    hide AtMost;
    hide Difference;
    hide Differences;
    var devs := GradDevs(c);
    forall r | 0 <= r < |devs|
      ensures Distance(devs[r])
    {
      GradRank(c, r);
    }
    MaxIs(devs);
    forall r, i | 0 <= r < |c.locals| && 0 <= i < |c.locals[r].grad|
      ensures AtMost(Difference(c.locals[r].grad[i], c.locals[0].grad[i]), MaxOf(devs))
    {
      GradRank(c, r);
      AtMostTrans(Difference(c.locals[r].grad[i], c.locals[0].grad[i]), devs[r], MaxOf(devs));
    }
    if MaxOf(devs) != Fin(0.0) {
      var r :| 0 <= r < |devs| && devs[r] == MaxOf(devs);
      GradRank(c, r);
    }
  }

  /** Every deviation of finite numbers, written out: |x - y| <= m. */
  predicate Off(x: Double, y: Double, m: real) {
    x.Fin? && y.Fin? && -m <= x.x - y.x <= m
  }

  /** One that is attained: |x - y| == m. */
  predicate Reached(x: Double, y: Double, m: real) {
    x.Fin? && y.Fin? && (x.x - y.x == m || y.x - x.x == m)
  }

  /** No distance: one is no number, or they differ and are not both finite. */
  predicate NoDistance(x: Double, y: Double) {
    x.NaN? || y.NaN? || (x != y && !(x.Fin? && y.Fin?))
  }

  lemma DistanceOff(x: Double, y: Double, d: Double)
    ensures x.Fin? && y.Fin? && d.Fin? && AtMost(Difference(x, y), d) ==> Off(x, y, d.x)
    ensures x.Fin? && y.Fin? ==> Difference(x, y).Fin? && Reached(x, y, Difference(x, y).x)
    ensures AtMost(Difference(x, y), d) && d.Fin? && !(x.Fin? && y.Fin?) ==> x == y && x != NaN
  {
  }

  /** The reported energy spread of finite energies is the largest |e[r] - e[0]|, and some rank has it; a rank
      whose energy is no number, or another infinity than rank 0's, makes it infinite. */
  lemma EnergySpreadIs<G(!new)>(c: Call<G>)
    requires CallOk(c)
    ensures (forall r :: 0 <= r < |c.locals| ==> c.locals[r].energy.Fin?) ==>
      && MaxOf(EnergyDevs(c)).Fin?
      && (forall r :: 0 <= r < |c.locals| ==>
            Off(c.locals[r].energy, c.locals[0].energy, MaxOf(EnergyDevs(c)).x))
      && (exists r :: 0 <= r < |c.locals|
            && Reached(c.locals[r].energy, c.locals[0].energy, MaxOf(EnergyDevs(c)).x))
    ensures (exists r :: 0 <= r < |c.locals| && NoDistance(c.locals[r].energy, c.locals[0].energy)) ==>
              MaxOf(EnergyDevs(c)) == PosInf
  {
    hide MaxOf;
    EnergySpread(c);
    hide Difference;
    var m := MaxOf(EnergyDevs(c));
    forall r | 0 <= r < |c.locals|
      ensures AtMost(Difference(c.locals[r].energy, c.locals[0].energy), m)
    {
    }
    forall r | 0 <= r < |c.locals|
      ensures c.locals[r].energy.Fin? && c.locals[0].energy.Fin? && m.Fin? ==>
                Off(c.locals[r].energy, c.locals[0].energy, m.x)
      ensures NoDistance(c.locals[r].energy, c.locals[0].energy) ==> m == PosInf
    {
      DistanceOff(c.locals[r].energy, c.locals[0].energy, m);
      DifferenceIs(c.locals[r].energy, c.locals[0].energy);
    }
    if forall r :: 0 <= r < |c.locals| ==> c.locals[r].energy.Fin? {
      if m == Fin(0.0) {
        assert Reached(c.locals[0].energy, c.locals[0].energy, m.x);
      } else {
        var r :| 0 <= r < |c.locals| && m == Difference(c.locals[r].energy, c.locals[0].energy);
        DistanceOff(c.locals[r].energy, c.locals[0].energy, m);
      }
    }
  }

  predicate FiniteGrads<G>(c: Call<G>) {
    forall r, i :: 0 <= r < |c.locals| && 0 <= i < |c.locals[r].grad| ==> c.locals[r].grad[i].Fin?
  }

  /** The same for the gradients, over all their components. */
  lemma GradSpreadIs<G(!new)>(c: Call<G>)
    requires CallOk(c)
    ensures FiniteGrads(c) ==>
      && MaxOf(GradDevs(c)).Fin?
      && (forall r, i :: 0 <= r < |c.locals| && 0 <= i < |c.locals[r].grad| ==>
            Off(c.locals[r].grad[i], c.locals[0].grad[i], MaxOf(GradDevs(c)).x))
      && (|c.locals[0].grad| > 0 ==>
            exists r, i :: 0 <= r < |c.locals| && 0 <= i < |c.locals[r].grad| &&
              Reached(c.locals[r].grad[i], c.locals[0].grad[i], MaxOf(GradDevs(c)).x))
      && (|c.locals[0].grad| == 0 ==> MaxOf(GradDevs(c)) == Fin(0.0))
    ensures forall r, i :: 0 <= r < |c.locals| && 0 <= i < |c.locals[r].grad| ==>
              NoDistance(c.locals[r].grad[i], c.locals[0].grad[i]) ==> MaxOf(GradDevs(c)) == PosInf
  {
    hide MaxOf;
    GradSpread(c);
    hide Difference;
    var m := MaxOf(GradDevs(c));
    forall r, i | 0 <= r < |c.locals| && 0 <= i < |c.locals[r].grad|
      ensures c.locals[r].grad[i].Fin? && c.locals[0].grad[i].Fin? && m.Fin? ==>
                Off(c.locals[r].grad[i], c.locals[0].grad[i], m.x)
      ensures NoDistance(c.locals[r].grad[i], c.locals[0].grad[i]) ==> m == PosInf
    {
      DistanceOff(c.locals[r].grad[i], c.locals[0].grad[i], m);
      DifferenceIs(c.locals[r].grad[i], c.locals[0].grad[i]);
    }
    if FiniteGrads(c) {
      if m == Fin(0.0) {
        assert |c.locals[0].grad| > 0 ==> Reached(c.locals[0].grad[0], c.locals[0].grad[0], m.x);
      } else {
        var r, i :| 0 <= r < |c.locals| && 0 <= i < |c.locals[r].grad|
          && m == Difference(c.locals[r].grad[i], c.locals[0].grad[i]);
        DistanceOff(c.locals[r].grad[i], c.locals[0].grad[i], m);
      }
    }
  }

  /** The spread that a good call reports is the largest deviation of any rank from rank 0. */
  lemma SpreadIs<G(!new)>(c: Call<G>)
    requires CallOk(c)
    ensures forall r :: 0 <= r < |c.locals| ==>
      AtMost(Difference(c.locals[r].energy, c.locals[0].energy), MaxOf(EnergyDevs(c)))
    ensures forall r, i :: 0 <= r < |c.locals| && 0 <= i < |c.locals[r].grad| ==>
              AtMost(Difference(c.locals[r].grad[i], c.locals[0].grad[i]), MaxOf(GradDevs(c)))
    ensures MaxOf(EnergyDevs(c)) == Fin(0.0)
            || exists r :: 0 <= r < |c.locals|
                 && MaxOf(EnergyDevs(c)) == Difference(c.locals[r].energy, c.locals[0].energy)
    ensures MaxOf(GradDevs(c)) == Fin(0.0)
            || exists r, i :: 0 <= r < |c.locals| && 0 <= i < |c.locals[r].grad|
                 && MaxOf(GradDevs(c)) == Difference(c.locals[r].grad[i], c.locals[0].grad[i])
  {
    hide MaxOf;
    hide AtMost;
    hide Difference;
    EnergySpread(c);
    GradSpread(c);
  }
}
