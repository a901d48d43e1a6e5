/**
  The three-stream water balance around a cyclone: a feed F of dilution
  ratio f splits into an underflow U of ratio u and an overflow V of ratio
  v. The caller leaves exactly two of the six quantities unknown (the
  moisture m is not one of them); the solver handles the three pairs of
  flows and, when m is given, derives the water flows of the circuit.
 */
module WaterBalance {
  import opened Options
  import Rounding
  import Algebra

  /** The six counted quantities; the moisture m is supplied beside them. */
  datatype Field = Feed | Under | Over | FeedRatio | UnderRatio | OverRatio

  datatype Inputs = Inputs(F: Option<real>, U: Option<real>, V: Option<real>,
                           f: Option<real>, u: Option<real>, v: Option<real>,
                           m: Option<real>)

  /** All six quantities once the two unknown flows have been solved for. */
  datatype Balance = Balance(F: real, U: real, V: real, f: real, u: real, v: real)

  /** The water flows, each rounded to one decimal as the source rounds them. */
  datatype Water = Water(ballMillFeed: real, cycloneFeed: real, requirement: real)

  /** The branches of the case chain, named by the unknown pair each one tests. */
  datatype Branch = UnderAndOver | FeedAndUnder | FeedAndOver

  /**
    A successful solve: the branch that fired, the exact solved flows, and
    the water flows, or None for the note that they were skipped.
   */
  datatype Solution = Solution(solved: Branch, balance: Balance, water: Option<Water>)

  datatype Outcome =
    | InvalidUnknownCount     // not exactly two unknowns among the six
    | SkippedOnly             // the {U, V} branch found a required input missing: only the skipped note
    | Unsupported             // no branch matched
    | DivisionUndefined       // a formula divided by zero
    | Solved(solution: Solution)

  function Get(x: Inputs, k: Field): Option<real>
  {
    match k
    case Feed => x.F
    case Under => x.U
    case Over => x.V
    case FeedRatio => x.f
    case UnderRatio => x.u
    case OverRatio => x.v
  }

  function Value(b: Balance, k: Field): real
  {
    match k
    case Feed => b.F
    case Under => b.U
    case Over => b.V
    case FeedRatio => b.f
    case UnderRatio => b.u
    case OverRatio => b.v
  }

  /** The order in which the unknowns are collected; m is not among them. */
  const Order: seq<Field> := [Feed, Under, Over, FeedRatio, UnderRatio, OverRatio]

  lemma EveryFieldInOrder(k: Field)
    ensures k in Order
  {
  }

  predicate Distinct(ks: seq<Field>)
  {
    forall i, j :: 0 <= i < j < |ks| ==> ks[i] != ks[j]
  }

  /** The fields of `ks` that `x` leaves unknown, in the order of `ks`. */
  function MissingAmong(x: Inputs, ks: seq<Field>): (u: seq<Field>)
    ensures forall k :: k in u <==> k in ks && Get(x, k).None?
    ensures |u| <= |ks|
    ensures Distinct(ks) ==> Distinct(u)
  {
    if ks == [] then []
    else (if Get(x, ks[0]).None? then [ks[0]] else []) + MissingAmong(x, ks[1..])
  }

  /** The list of unknown quantities; the moisture is never counted. */
  function Unknowns(x: Inputs): (u: seq<Field>)
    ensures forall k :: k in u <==> Get(x, k).None?
    ensures Distinct(u)
  {
    forall k: Field ensures k in Order { EveryFieldInOrder(k); }
    MissingAmong(x, Order)
  }

  function UnknownSet(x: Inputs): set<Field>
  {
    set k | k in Unknowns(x)
  }

  function PairOf(p: Branch): set<Field>
  {
    match p
    case UnderAndOver => {Under, Over}
    case FeedAndUnder => {Feed, Under}
    case FeedAndOver => {Feed, Over}
  }

  /** The condition of each branch of the chain, as the source writes it. */
  predicate Condition(x: Inputs, p: Branch)
  {
    var u := Unknowns(x);
    match p
    case UnderAndOver =>
      Under in u && Over in u && x.F.Some?
    case FeedAndUnder =>
      Feed in u && Under in u && x.V.Some? && x.f.Some? && x.u.Some? && x.v.Some?
    case FeedAndOver =>
      Feed in u && Over in u && x.U.Some? && x.f.Some? && x.u.Some? && x.v.Some?
  }

  /** The mass balance and the water balance. */
  predicate Balanced(b: Balance)
  {
    b.F == b.U + b.V && b.F * b.f == b.U * b.u + b.V * b.v
  }

  /**
    The water flows for moisture m: the ball-mill feed water V*m/(100 - m) + U*u
    and the cyclone feed water (U + V)*f, each rounded to one decimal (so
    within 0.05 of its exact value), and the requirement exactly their
    difference.
   */
  predicate WaterMeaning(b: Balance, m: real, w: Water)
  {
    100.0 - m != 0.0 &&
    w.ballMillFeed == Rounding.Round(b.V * (m / (100.0 - m)) + b.U * b.u, 1) &&
    w.cycloneFeed == Rounding.Round((b.V + b.U) * b.f, 1) &&
    Rounding.OnGrid(w.ballMillFeed, 1) && Rounding.OnGrid(w.cycloneFeed, 1) &&
    -Rounding.HalfUnit(1) <= w.ballMillFeed - (b.V * (m / (100.0 - m)) + b.U * b.u) <= Rounding.HalfUnit(1) &&
    -Rounding.HalfUnit(1) <= w.cycloneFeed - (b.V + b.U) * b.f <= Rounding.HalfUnit(1) &&
    w.requirement == w.cycloneFeed - w.ballMillFeed
  }

  /**
    The secondary result: the water flows when the moisture is supplied,
    otherwise the skipped note; a moisture of 100 divides by zero.
   */
  function WithWater(p: Branch, b: Balance, m: Option<real>): (r: Outcome)
    ensures r.Solved? || r == DivisionUndefined
    ensures r == DivisionUndefined <==> m == Some(100.0)
    ensures r.Solved? ==> r.solution.solved == p && r.solution.balance == b
    ensures r.Solved? ==> (r.solution.water.Some? <==> m.Some?)
    ensures r.Solved? && m.Some? ==> WaterMeaning(b, m.value, r.solution.water.value)
  {
    if m.None? then
      Solved(Solution(p, b, None))
    else if 100.0 - m.value == 0.0 then
      DivisionUndefined
    else
      var ballMill := Rounding.Round(b.V * (m.value / (100.0 - m.value)) + b.U * b.u, 1);
      var cyclone := Rounding.Round((b.V + b.U) * b.f, 1);
      var requirement := Rounding.Round(cyclone - ballMill, 1);
      assert requirement == cyclone - ballMill by {
        Rounding.RoundDifferenceOfRounded(b.V * (m.value / (100.0 - m.value)) + b.U * b.u, (b.V + b.U) * b.f, 1);
        Rounding.RoundDifferenceOfRounded((b.V + b.U) * b.f, b.V * (m.value / (100.0 - m.value)) + b.U * b.u, 1);
      }
      Solved(Solution(p, b, Some(Water(ballMill, cyclone, requirement))))
  }

  /** Branch {U, V}: the underflow from the feed, the overflow by difference. */
  function SolveUnderAndOver(F: real, f: real, u: real, v: real, m: Option<real>): (r: Outcome)
    ensures r.Solved? || r == DivisionUndefined
    ensures r == DivisionUndefined <==> u == v || m == Some(100.0)
    ensures r.Solved? ==> var b := r.solution.balance;
              r.solution.solved == UnderAndOver && Balanced(b) &&
              b.F == F && b.f == f && b.u == u && b.v == v
    ensures r.Solved? ==> (r.solution.water.Some? <==> m.Some?)
    ensures r.Solved? && m.Some? ==> WaterMeaning(r.solution.balance, m.value, r.solution.water.value)
  {
    if u - v == 0.0 then DivisionUndefined
    else
      var U := F * (f - v) / (u - v);
      var V := F - U;
      assert F * f == U * u + V * v by { Algebra.SplitOfKnownFeed(F, f, u, v); }
      WithWater(UnderAndOver, Balance(F, U, V, f, u, v), m)
  }

  /** Branch {F, U}: the feed from the overflow, the underflow by difference. */
  function SolveFeedAndUnder(V: real, f: real, u: real, v: real, m: Option<real>): (r: Outcome)
    ensures r.Solved? || r == DivisionUndefined
    ensures r == DivisionUndefined <==> f == u || m == Some(100.0)
    ensures r.Solved? ==> var b := r.solution.balance;
              r.solution.solved == FeedAndUnder && Balanced(b) &&
              b.V == V && b.f == f && b.u == u && b.v == v
    ensures r.Solved? ==> (r.solution.water.Some? <==> m.Some?)
    ensures r.Solved? && m.Some? ==> WaterMeaning(r.solution.balance, m.value, r.solution.water.value)
  {
    if f - u == 0.0 then DivisionUndefined
    else
      var F := V * (v - u) / (f - u);
      var U := F - V;
      assert F * f == U * u + V * v by { Algebra.FeedFromSecondStream(V, f, u, v); }
      WithWater(FeedAndUnder, Balance(F, U, V, f, u, v), m)
  }

  /** Branch {F, V}: the feed from the underflow, the overflow by difference. */
  function SolveFeedAndOver(U: real, f: real, u: real, v: real, m: Option<real>): (r: Outcome)
    ensures r.Solved? || r == DivisionUndefined
    ensures r == DivisionUndefined <==> f == v || m == Some(100.0)
    ensures r.Solved? ==> var b := r.solution.balance;
              r.solution.solved == FeedAndOver && Balanced(b) &&
              b.U == U && b.f == f && b.u == u && b.v == v
    ensures r.Solved? ==> (r.solution.water.Some? <==> m.Some?)
    ensures r.Solved? && m.Some? ==> WaterMeaning(r.solution.balance, m.value, r.solution.water.value)
  {
    if f - v == 0.0 then DivisionUndefined
    else
      var F := U * (u - v) / (f - v);
      var V := F - U;
      assert F * f == U * u + V * v by { Algebra.FeedFromFirstStream(U, f, u, v); }
      WithWater(FeedAndOver, Balance(F, U, V, f, u, v), m)
  }

  /**
    The solver: count the unknowns among the six flows and ratios, then run
    the case chain. Every solve meets the mass balance and the water balance
    exactly, and carries the water flows exactly when the moisture is given.
   */
  function Solve(x: Inputs): (r: Outcome)
    ensures r == InvalidUnknownCount <==> |Unknowns(x)| != 2
    ensures r.Solved? ==> Balanced(r.solution.balance)
    ensures r.Solved? ==> (r.solution.water.Some? <==> x.m.Some?)
    ensures r.Solved? && x.m.Some? ==> WaterMeaning(r.solution.balance, x.m.value, r.solution.water.value)
  {
    if |Unknowns(x)| != 2 then InvalidUnknownCount
    else if Condition(x, UnderAndOver) then
      if x.f.Some? && x.u.Some? && x.v.Some? then
        SolveUnderAndOver(x.F.value, x.f.value, x.u.value, x.v.value, x.m)
      else SkippedOnly
    else if Condition(x, FeedAndUnder) then
      SolveFeedAndUnder(x.V.value, x.f.value, x.u.value, x.v.value, x.m)
    else if Condition(x, FeedAndOver) then
      SolveFeedAndOver(x.U.value, x.f.value, x.u.value, x.v.value, x.m)
    else
      Unsupported
  }

  // ---------------------------------------------------------------------------
  // The unknown pair decides everything

  lemma TwoUnknowns(x: Inputs)
    requires |Unknowns(x)| == 2
    ensures forall k :: Get(x, k).None? <==> k == Unknowns(x)[0] || k == Unknowns(x)[1]
    ensures UnknownSet(x) == {Unknowns(x)[0], Unknowns(x)[1]}
    ensures Unknowns(x)[0] != Unknowns(x)[1]
  {
    var u := Unknowns(x);
    assert forall k :: k in u <==> k == u[0] || k == u[1];
  }

  /**
    With exactly two unknowns, a branch's condition holds exactly when its
    pair is the unknown pair: the checks that the other inputs are present
    never fail.
   */
  lemma ConditionIsPair(x: Inputs, p: Branch)
    requires |Unknowns(x)| == 2
    ensures Condition(x, p) <==> UnknownSet(x) == PairOf(p)
  {
    TwoUnknowns(x);
    var u := Unknowns(x);
    if Condition(x, p) {
      match p
      case UnderAndOver => assert Under in u && Over in u;
      case FeedAndUnder => assert Feed in u && Under in u;
      case FeedAndOver => assert Feed in u && Over in u;
    }
    if UnknownSet(x) == PairOf(p) {
      assert forall k :: k in PairOf(p) <==> Get(x, k).None?;
      assert x.F.None? <==> Feed in PairOf(p);
      assert x.U.None? <==> Under in PairOf(p);
      assert x.V.None? <==> Over in PairOf(p);
      assert x.f.None? <==> FeedRatio in PairOf(p);
      assert x.u.None? <==> UnderRatio in PairOf(p);
      assert x.v.None? <==> OverRatio in PairOf(p);
    }
  }

  /** The "skipped only" path of the {U, V} branch cannot be reached. */
  lemma SkippedOnlyUnreachable(x: Inputs)
    ensures Solve(x) != SkippedOnly
  {
    if |Unknowns(x)| == 2 && Condition(x, UnderAndOver) {
      TwoUnknowns(x);
      assert Get(x, FeedRatio).Some? && Get(x, UnderRatio).Some? && Get(x, OverRatio).Some?;
    }
  }

  /**
    With exactly two unknowns, the call is unsupported exactly when a
    dilution ratio is among them; otherwise the branch of the unknown flow
    pair solves it or fails on a zero divisor.
   */
  lemma DispatchByPair(x: Inputs)
    requires |Unknowns(x)| == 2
    ensures Solve(x) == Unsupported <==> exists k :: k in UnknownSet(x) && k in {FeedRatio, UnderRatio, OverRatio}
    ensures Solve(x).Solved? || Solve(x) == DivisionUndefined || Solve(x) == Unsupported
  {
    TwoUnknowns(x);
    SkippedOnlyUnreachable(x);
    ConditionIsPair(x, UnderAndOver);
    ConditionIsPair(x, FeedAndUnder);
    ConditionIsPair(x, FeedAndOver);
    var s := UnknownSet(x);
    var u := Unknowns(x);
    if forall k :: k in s ==> k in {Feed, Under, Over} {
      assert u[0] in {Feed, Under, Over} && u[1] in {Feed, Under, Over};
    }
  }

  /** The known inputs are kept and the solved flows are exactly the unknowns. */
  lemma SolvedKeepsKnowns(x: Inputs)
    requires Solve(x).Solved?
    ensures PairOf(Solve(x).solution.solved) == UnknownSet(x)
    ensures forall k :: Get(x, k).Some? ==> Value(Solve(x).solution.balance, k) == Get(x, k).value
  {
    ConditionIsPair(x, Solve(x).solution.solved);
  }

  /** The divisions of each branch and of the water flows, on the inputs alone. */
  predicate ZeroDivisor(x: Inputs)
  {
    var s := UnknownSet(x);
    if s == PairOf(UnderAndOver) then x.u == x.v || x.m == Some(100.0)
    else if s == PairOf(FeedAndUnder) then x.f == x.u || x.m == Some(100.0)
    else if s == PairOf(FeedAndOver) then x.f == x.v || x.m == Some(100.0)
    else false
  }

  /**
    A call fails on a division by zero exactly when u = v for {U, V},
    f = u for {F, U}, f = v for {F, V}, or the moisture is 100.
   */
  lemma DivisionUndefinedExactly(x: Inputs)
    ensures Solve(x) == DivisionUndefined <==> |Unknowns(x)| == 2 && ZeroDivisor(x)
  {
    if |Unknowns(x)| == 2 {
      TwoUnknowns(x);
      SkippedOnlyUnreachable(x);
      var s := UnknownSet(x);
      assert x.F.Some? <==> Feed !in s;
      assert x.U.Some? <==> Under !in s;
      assert x.V.Some? <==> Over !in s;
      assert x.f.Some? <==> FeedRatio !in s;
      assert x.u.Some? <==> UnderRatio !in s;
      assert x.v.Some? <==> OverRatio !in s;
      ConditionIsPair(x, UnderAndOver);
      ConditionIsPair(x, FeedAndUnder);
      ConditionIsPair(x, FeedAndOver);
    }
  }

  // ---------------------------------------------------------------------------
  // What is displayed

  datatype Reading = Reading(field: Field, shown: real)

  /** The displayed result: the two solved flows, then the water flows or the skipped note. */
  datatype Report = Report(readings: seq<Reading>, water: Option<Water>)

  function Listed(p: Branch): seq<Field>
  {
    match p
    case UnderAndOver => [Under, Over]
    case FeedAndUnder => [Feed, Under]
    case FeedAndOver => [Feed, Over]
  }

  /** The solved flows are shown with two decimals; the water flows are already rounded. */
  function ReportOf(s: Solution): (rep: Report)
    ensures |rep.readings| == 2
    ensures forall i :: 0 <= i < 2 ==> rep.readings[i].field == Listed(s.solved)[i]
    ensures (set i | 0 <= i < 2 :: rep.readings[i].field) == PairOf(s.solved)
    ensures forall i :: 0 <= i < 2 ==>
              Rounding.OnGrid(rep.readings[i].shown, 2) &&
              -Rounding.HalfUnit(2) <= rep.readings[i].shown - Value(s.balance, rep.readings[i].field) <= Rounding.HalfUnit(2)
    ensures rep.water == s.water
  {
    var ks := Listed(s.solved);
    var rep := Report([Reading(ks[0], Rounding.Round(Value(s.balance, ks[0]), 2)),
                       Reading(ks[1], Rounding.Round(Value(s.balance, ks[1]), 2))],
                      s.water);
    assert (set i | 0 <= i < 2 :: rep.readings[i].field) == {ks[0], ks[1]} by {
      assert rep.readings[0].field == ks[0] && rep.readings[1].field == ks[1];
    }
    rep
  }

  // ---------------------------------------------------------------------------
  // Worked example

  /** With the last three fields of the order known, none of them is listed as unknown. */
  lemma LastThreeKnown(x: Inputs)
    requires x.f.Some? && x.u.Some? && x.v.Some?
    ensures MissingAmong(x, Order[3..]) == []
  {
    assert MissingAmong(x, Order[5..]) == [] by { assert Order[5..][1..] == []; }
    assert MissingAmong(x, Order[4..]) == [] by { assert Order[4..][1..] == Order[5..]; }
    assert Order[3..][1..] == Order[4..];
  }

  lemma ExampleUnknowns(m: Option<real>)
    ensures Unknowns(Inputs(Some(100.0), None, None, Some(30.0), Some(60.0), Some(10.0), m)) == [Under, Over]
  {
    var x := Inputs(Some(100.0), None, None, Some(30.0), Some(60.0), Some(10.0), m);
    LastThreeKnown(x);
    assert MissingAmong(x, Order[2..]) == [Over] by { assert Order[2..][1..] == Order[3..]; }
    assert MissingAmong(x, Order[1..]) == [Under, Over] by { assert Order[1..][1..] == Order[2..]; }
    assert MissingAmong(x, Order) == [Under, Over] by { assert Get(x, Order[0]).Some?; }
  }

  /** The example call is routed to the {U, V} branch whatever the moisture. */
  lemma ExampleDispatch(m: Option<real>)
    ensures Solve(Inputs(Some(100.0), None, None, Some(30.0), Some(60.0), Some(10.0), m))
            == SolveUnderAndOver(100.0, 30.0, 60.0, 10.0, m)
  {
    ExampleUnknowns(m);
    assert Condition(Inputs(Some(100.0), None, None, Some(30.0), Some(60.0), Some(10.0), m), UnderAndOver);
  }

  /** In the example, U = 100*(30 - 10)/(60 - 10) = 40 and V = 60. */
  lemma ExampleFlows(m: Option<real>)
    ensures SolveUnderAndOver(100.0, 30.0, 60.0, 10.0, m)
            == WithWater(UnderAndOver, Balance(100.0, 40.0, 60.0, 30.0, 60.0, 10.0), m)
  {
    assert 100.0 * (30.0 - 10.0) / (60.0 - 10.0) == 40.0;
  }

  /** F = 100, f = 30, u = 60, v = 10 with U and V unknown and no moisture: U = 40, V = 60, water skipped. */
  lemma WaterExampleSkipped()
    ensures Solve(Inputs(Some(100.0), None, None, Some(30.0), Some(60.0), Some(10.0), None))
            == Solved(Solution(UnderAndOver, Balance(100.0, 40.0, 60.0, 30.0, 60.0, 10.0), None))
  {
    ExampleDispatch(None);
    ExampleFlows(None);
  }

  /** The water flows of the worked example: 60*20/80 + 40*60 = 2415, 100*30 = 3000, and 585 between them. */
  lemma WaterFlowsAt(b: Balance, m: real)
    requires b == Balance(100.0, 40.0, 60.0, 30.0, 60.0, 10.0) && m == 20.0
    ensures WithWater(UnderAndOver, b, Some(m)) == Solved(Solution(UnderAndOver, b, Some(Water(2415.0, 3000.0, 585.0))))
  {
    assert b.V * (m / (100.0 - m)) + b.U * b.u == 2415.0;
    assert (b.V + b.U) * b.f == 3000.0;
    Rounding.RoundInteger(2415, 1);
    Rounding.RoundInteger(3000, 1);
  }

  /** The same call with moisture 20: ball-mill feed water 2415, cyclone feed water 3000, requirement 585. */
  lemma WaterExampleWithMoisture()
    ensures Solve(Inputs(Some(100.0), None, None, Some(30.0), Some(60.0), Some(10.0), Some(20.0)))
            == Solved(Solution(UnderAndOver, Balance(100.0, 40.0, 60.0, 30.0, 60.0, 10.0),
                               Some(Water(2415.0, 3000.0, 585.0))))
  {
    ExampleDispatch(Some(20.0));
    ExampleFlows(Some(20.0));
    WaterFlowsAt(Balance(100.0, 40.0, 60.0, 30.0, 60.0, 10.0), 20.0);
  }
}
