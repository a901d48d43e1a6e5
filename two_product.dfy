/**
  The two-product formula: a feed stream F of grade f is split into a
  concentrate C of grade c and tailings T of grade t. The caller leaves
  exactly two of the six quantities unknown; the solver picks the formula
  for that pair from a fixed chain of cases, solves it, and derives the
  recovery of the valuable component into the concentrate.
 */
module TwoProduct {
  import opened Options
  import Rounding
  import Algebra

  /** The six named quantities of the balance. */
  datatype Field = Feed | Conc | Tails | FeedGrade | ConcGrade | TailsGrade

  /** What the caller supplies: each quantity known or unknown. */
  datatype Inputs = Inputs(F: Option<real>, C: Option<real>, T: Option<real>,
                           f: Option<real>, c: Option<real>, t: Option<real>)

  /** All six quantities once the two unknowns have been solved for. */
  datatype Balance = Balance(F: real, C: real, T: real, f: real, c: real, t: real)

  /** The branches of the case chain, named by the unknown pair each one tests. */
  datatype Branch =
    | ConcAndTails
    | FeedAndConc
    | FeedAndTails
    | ConcAndFeedGrade
    | FeedAndFeedGrade
    | FeedGradeAndTailsGrade

  /**
    A successful solve: which branch fired, the exact solved quantities, and
    the recovery in percent, or None for the note that it cannot be calculated.
   */
  datatype Solution = Solution(solved: Branch, balance: Balance, recovery: Option<real>)

  datatype Outcome =
    | InvalidUnknownCount     // not exactly two unknowns
    | InsufficientData        // the {C, T} branch found a required input missing
    | Underdetermined         // {f, t}: no unique solution
    | Unsupported             // no branch matched
    | DivisionUndefined       // a formula divided by zero
    | Solved(solution: Solution)

  function Get(x: Inputs, k: Field): Option<real>
  {
    match k
    case Feed => x.F
    case Conc => x.C
    case Tails => x.T
    case FeedGrade => x.f
    case ConcGrade => x.c
    case TailsGrade => x.t
  }

  function Value(b: Balance, k: Field): real
  {
    match k
    case Feed => b.F
    case Conc => b.C
    case Tails => b.T
    case FeedGrade => b.f
    case ConcGrade => b.c
    case TailsGrade => b.t
  }

  /** The order in which the unknowns are collected. */
  const Order: seq<Field> := [Feed, Conc, Tails, FeedGrade, ConcGrade, TailsGrade]

  lemma EveryFieldInOrder(k: Field)
    ensures k in Order
  {
  }

  predicate Distinct(ks: seq<Field>)
  {
    forall i, j :: 0 <= i < j < |ks| ==> ks[i] != ks[j]
  }

  /** The fields of `ks` that `x` leaves unknown, in the order of `ks`. */
  function MissingAmong(x: Inputs, ks: seq<Field>): (u: seq<Field>)
    ensures forall k :: k in u <==> k in ks && Get(x, k).None?
    ensures |u| <= |ks|
    ensures Distinct(ks) ==> Distinct(u)
  {
    if ks == [] then []
    else (if Get(x, ks[0]).None? then [ks[0]] else []) + MissingAmong(x, ks[1..])
  }

  /** The list of unknown quantities. */
  function Unknowns(x: Inputs): (u: seq<Field>)
    ensures forall k :: k in u <==> Get(x, k).None?
    ensures Distinct(u)
  {
    forall k: Field ensures k in Order { EveryFieldInOrder(k); }
    MissingAmong(x, Order)
  }

  function UnknownSet(x: Inputs): set<Field>
  {
    set k | k in Unknowns(x)
  }

  /** The two fields a branch tests for being unknown. */
  function PairOf(p: Branch): set<Field>
  {
    match p
    case ConcAndTails => {Conc, Tails}
    case FeedAndConc => {Feed, Conc}
    case FeedAndTails => {Feed, Tails}
    case ConcAndFeedGrade => {Conc, FeedGrade}
    case FeedAndFeedGrade => {Feed, FeedGrade}
    case FeedGradeAndTailsGrade => {FeedGrade, TailsGrade}
  }

  /** The condition of each branch of the chain, as the source writes it. */
  predicate Condition(x: Inputs, p: Branch)
  {
    var u := Unknowns(x);
    match p
    case ConcAndTails =>
      Conc in u && Tails in u && x.F.Some?
    case FeedAndConc =>
      Feed in u && Conc in u && x.T.Some? && x.f.Some? && x.c.Some? && x.t.Some?
    case FeedAndTails =>
      Feed in u && Tails in u && x.C.Some? && x.f.Some? && x.c.Some? && x.t.Some?
    case ConcAndFeedGrade =>
      Conc in u && FeedGrade in u && x.F.Some? && x.T.Some? && x.c.Some? && x.t.Some?
    case FeedAndFeedGrade =>
      Feed in u && FeedGrade in u && x.C.Some? && x.T.Some? && x.c.Some? && x.t.Some?
    case FeedGradeAndTailsGrade =>
      FeedGrade in u && TailsGrade in u && x.F.Some? && x.C.Some? && x.T.Some? && x.c.Some?
  }

  /** The mass balance and the component balance. */
  predicate Balanced(b: Balance)
  {
    b.F == b.C + b.T && b.F * b.f == b.C * b.c + b.T * b.t
  }

  /**
    The recovery is given exactly when the feed grade is not zero, and is
    then the percentage 100*C*c/(F*f) of the component in the concentrate.
   */
  predicate RecoveryMeaning(s: Solution)
  {
    var b := s.balance;
    (s.recovery.Some? <==> b.f != 0.0) &&
    (s.recovery.Some? ==> b.F * b.f != 0.0 && s.recovery.value * (b.F * b.f) == 100.0 * (b.C * b.c))
  }

  /**
    The secondary result. Recovery is computed when the feed grade is not
    zero; dividing by F*f then still fails when the feed flow is zero.
   */
  function WithRecovery(p: Branch, b: Balance): (r: Outcome)
    ensures r.Solved? || r == DivisionUndefined
    ensures r == DivisionUndefined <==> b.f != 0.0 && b.F == 0.0
    ensures r.Solved? ==> r.solution.solved == p && r.solution.balance == b && RecoveryMeaning(r.solution)
  {
    if b.f != 0.0 then
      assert b.F * b.f == 0.0 <==> b.F == 0.0 by { Algebra.ProductZero(b.F, b.f); }
      if b.F * b.f == 0.0 then DivisionUndefined
      else Solved(Solution(p, b, Some(100.0 * (b.C * b.c) / (b.F * b.f))))
    else
      Solved(Solution(p, b, None))
  }

  /** Branch {C, T}: the concentrate from the feed, the tailings by difference. */
  function SolveConcAndTails(F: real, f: real, c: real, t: real): (r: Outcome)
    ensures r.Solved? || r == DivisionUndefined
    ensures r == DivisionUndefined <==> c == t || (f != 0.0 && F == 0.0)
    ensures r.Solved? ==> var s := r.solution; var b := s.balance;
              s.solved == ConcAndTails && Balanced(b) && RecoveryMeaning(s) &&
              b.F == F && b.f == f && b.c == c && b.t == t
  {
    if c - t == 0.0 then DivisionUndefined
    else
      var C := F * (f - t) / (c - t);
      var T := F - C;
      assert F * f == C * c + T * t by { Algebra.SplitOfKnownFeed(F, f, c, t); }
      WithRecovery(ConcAndTails, Balance(F, C, T, f, c, t))
  }

  /** Branch {F, C}: the feed from the tailings, the concentrate by difference. */
  function SolveFeedAndConc(T: real, f: real, c: real, t: real): (r: Outcome)
    ensures r.Solved? || r == DivisionUndefined
    ensures r == DivisionUndefined <==> f == c || (f != 0.0 && (T == 0.0 || t == c))
    ensures r.Solved? ==> var s := r.solution; var b := s.balance;
              s.solved == FeedAndConc && Balanced(b) && RecoveryMeaning(s) &&
              b.T == T && b.f == f && b.c == c && b.t == t
  {
    if f - c == 0.0 then DivisionUndefined
    else
      var F := T * (t - c) / (f - c);
      var C := F - T;
      assert F * f == C * c + T * t by { Algebra.FeedFromSecondStream(T, f, c, t); }
      assert F == 0.0 <==> T == 0.0 || t == c by { Algebra.ScaledDifferenceZero(T, t, c, f - c); }
      WithRecovery(FeedAndConc, Balance(F, C, T, f, c, t))
  }

  /** Branch {F, T}: the feed from the concentrate, the tailings by difference. */
  function SolveFeedAndTails(C: real, f: real, c: real, t: real): (r: Outcome)
    ensures r.Solved? || r == DivisionUndefined
    ensures r == DivisionUndefined <==> f == t || (f != 0.0 && (C == 0.0 || c == t))
    ensures r.Solved? ==> var s := r.solution; var b := s.balance;
              s.solved == FeedAndTails && Balanced(b) && RecoveryMeaning(s) &&
              b.C == C && b.f == f && b.c == c && b.t == t
  {
    if f - t == 0.0 then DivisionUndefined
    else
      var F := C * (c - t) / (f - t);
      var T := F - C;
      assert F * f == C * c + T * t by { Algebra.FeedFromFirstStream(C, f, c, t); }
      assert F == 0.0 <==> C == 0.0 || c == t by { Algebra.ScaledDifferenceZero(C, c, t, f - t); }
      WithRecovery(FeedAndTails, Balance(F, C, T, f, c, t))
  }

  /** Branch {C, f}: the concentrate by difference, the feed grade from the component balance. */
  function SolveConcAndFeedGrade(F: real, T: real, c: real, t: real): (r: Outcome)
    ensures r.Solved? || r == DivisionUndefined
    ensures r == DivisionUndefined <==> F == 0.0
    ensures r.Solved? ==> var s := r.solution; var b := s.balance;
              s.solved == ConcAndFeedGrade && Balanced(b) && RecoveryMeaning(s) &&
              b.F == F && b.T == T && b.c == c && b.t == t
  {
    var C := F - T;
    if F == 0.0 then DivisionUndefined
    else
      var f := (C * c + T * t) / F;
      assert F * f == C * c + T * t;
      WithRecovery(ConcAndFeedGrade, Balance(F, C, T, f, c, t))
  }

  /** Branch {F, f}: the feed as the sum of the products, the feed grade from the component balance. */
  function SolveFeedAndFeedGrade(C: real, T: real, c: real, t: real): (r: Outcome)
    ensures r.Solved? || r == DivisionUndefined
    ensures r == DivisionUndefined <==> C + T == 0.0
    ensures r.Solved? ==> var s := r.solution; var b := s.balance;
              s.solved == FeedAndFeedGrade && Balanced(b) && RecoveryMeaning(s) &&
              b.C == C && b.T == T && b.c == c && b.t == t
  {
    var F := C + T;
    if F == 0.0 then DivisionUndefined
    else
      var f := (C * c + T * t) / F;
      assert F * f == C * c + T * t;
      WithRecovery(FeedAndFeedGrade, Balance(F, C, T, f, c, t))
  }

  /**
    The solver: count the unknowns, then run the case chain. Every solve
    meets the mass balance and the component balance exactly and carries
    the recovery as the source defines it.
   */
  function Solve(x: Inputs): (r: Outcome)
    ensures r == InvalidUnknownCount <==> |Unknowns(x)| != 2
    ensures r.Solved? ==> Balanced(r.solution.balance) && RecoveryMeaning(r.solution)
    ensures r.Solved? ==> r.solution.solved != FeedGradeAndTailsGrade
  {
    if |Unknowns(x)| != 2 then InvalidUnknownCount
    else if Condition(x, ConcAndTails) then
      if x.f.Some? && x.c.Some? && x.t.Some? then
        SolveConcAndTails(x.F.value, x.f.value, x.c.value, x.t.value)
      else InsufficientData
    else if Condition(x, FeedAndConc) then
      SolveFeedAndConc(x.T.value, x.f.value, x.c.value, x.t.value)
    else if Condition(x, FeedAndTails) then
      SolveFeedAndTails(x.C.value, x.f.value, x.c.value, x.t.value)
    else if Condition(x, ConcAndFeedGrade) then
      SolveConcAndFeedGrade(x.F.value, x.T.value, x.c.value, x.t.value)
    else if Condition(x, FeedAndFeedGrade) then
      SolveFeedAndFeedGrade(x.C.value, x.T.value, x.c.value, x.t.value)
    else if Condition(x, FeedGradeAndTailsGrade) then
      Underdetermined
    else
      Unsupported
  }

  // ---------------------------------------------------------------------------
  // The unknown pair decides everything

  /** With exactly two unknowns, every field outside the pair is known. */
  lemma TwoUnknowns(x: Inputs)
    requires |Unknowns(x)| == 2
    ensures forall k :: Get(x, k).None? <==> k == Unknowns(x)[0] || k == Unknowns(x)[1]
    ensures UnknownSet(x) == {Unknowns(x)[0], Unknowns(x)[1]}
    ensures Unknowns(x)[0] != Unknowns(x)[1]
  {
    var u := Unknowns(x);
    assert forall k :: k in u <==> k == u[0] || k == u[1];
  }

  /**
    With exactly two unknowns, a branch's condition holds exactly when its
    pair is the unknown pair: the per-branch checks that the other inputs
    are present never fail.
   */
  lemma ConditionIsPair(x: Inputs, p: Branch)
    requires |Unknowns(x)| == 2
    ensures Condition(x, p) <==> UnknownSet(x) == PairOf(p)
  {
    TwoUnknowns(x);
    var u := Unknowns(x);
    if Condition(x, p) {
      match p
      case ConcAndTails => assert Conc in u && Tails in u;
      case FeedAndConc => assert Feed in u && Conc in u;
      case FeedAndTails => assert Feed in u && Tails in u;
      case ConcAndFeedGrade => assert Conc in u && FeedGrade in u;
      case FeedAndFeedGrade => assert Feed in u && FeedGrade in u;
      case FeedGradeAndTailsGrade => assert FeedGrade in u && TailsGrade in u;
    }
    if UnknownSet(x) == PairOf(p) {
      assert forall k :: k in PairOf(p) <==> Get(x, k).None?;
      assert x.F.None? <==> Feed in PairOf(p);
      assert x.C.None? <==> Conc in PairOf(p);
      assert x.T.None? <==> Tails in PairOf(p);
      assert x.f.None? <==> FeedGrade in PairOf(p);
      assert x.c.None? <==> ConcGrade in PairOf(p);
      assert x.t.None? <==> TailsGrade in PairOf(p);
      match p
      case ConcAndTails => assert Condition(x, p);
      case FeedAndConc => assert Condition(x, p);
      case FeedAndTails => assert Condition(x, p);
      case ConcAndFeedGrade => assert Condition(x, p);
      case FeedAndFeedGrade => assert Condition(x, p);
      case FeedGradeAndTailsGrade => assert Condition(x, p);
    }
  }

  /** With exactly two unknowns, at most one branch condition holds, so the order of the chain does not matter. */
  lemma ConditionsExclusive(x: Inputs, p: Branch, q: Branch)
    requires |Unknowns(x)| == 2
    requires Condition(x, p) && Condition(x, q)
    ensures p == q
  {
    ConditionIsPair(x, p);
    ConditionIsPair(x, q);
    assert PairOf(p) == PairOf(q);
    match p
    case ConcAndTails => assert Conc in PairOf(q) && Tails in PairOf(q);
    case FeedAndConc => assert Feed in PairOf(q) && Conc in PairOf(q);
    case FeedAndTails => assert Feed in PairOf(q) && Tails in PairOf(q);
    case ConcAndFeedGrade => assert Conc in PairOf(q) && FeedGrade in PairOf(q);
    case FeedAndFeedGrade => assert Feed in PairOf(q) && FeedGrade in PairOf(q);
    case FeedGradeAndTailsGrade => assert FeedGrade in PairOf(q) && TailsGrade in PairOf(q);
  }

  /** What the pair calls for, as a static table. */
  datatype Route = SolvesBy(branch: Branch) | RejectsUnderdetermined | RejectsUnsupported

  function RouteOf(s: set<Field>): (r: Route)
    ensures r.SolvesBy? ==> PairOf(r.branch) == s && r.branch != FeedGradeAndTailsGrade
    ensures r == RejectsUnderdetermined <==> s == PairOf(FeedGradeAndTailsGrade)
    ensures forall p :: p != FeedGradeAndTailsGrade && s == PairOf(p) ==> r == SolvesBy(p)
  {
    if s == PairOf(ConcAndTails) then SolvesBy(ConcAndTails)
    else if s == PairOf(FeedAndConc) then SolvesBy(FeedAndConc)
    else if s == PairOf(FeedAndTails) then SolvesBy(FeedAndTails)
    else if s == PairOf(ConcAndFeedGrade) then SolvesBy(ConcAndFeedGrade)
    else if s == PairOf(FeedAndFeedGrade) then SolvesBy(FeedAndFeedGrade)
    else if s == PairOf(FeedGradeAndTailsGrade) then RejectsUnderdetermined
    else RejectsUnsupported
  }

  /**
    With exactly two unknowns the outcome is fixed by the unknown pair: a
    solvable pair is solved by its own formula or fails on a zero divisor,
    {f, t} is underdetermined, and every other pair is unsupported.
   */
  lemma DispatchByPair(x: Inputs)
    requires |Unknowns(x)| == 2
    ensures match RouteOf(UnknownSet(x))
            case SolvesBy(p) =>
              (Solve(x).Solved? && Solve(x).solution.solved == p) || Solve(x) == DivisionUndefined
            case RejectsUnderdetermined => Solve(x) == Underdetermined
            case RejectsUnsupported => Solve(x) == Unsupported
  {
    InsufficientDataUnreachable(x);
    ConditionIsPair(x, ConcAndTails);
    ConditionIsPair(x, FeedAndConc);
    ConditionIsPair(x, FeedAndTails);
    ConditionIsPair(x, ConcAndFeedGrade);
    ConditionIsPair(x, FeedAndFeedGrade);
    ConditionIsPair(x, FeedGradeAndTailsGrade);
  }

  /** The "not enough info" return of the {C, T} branch cannot be reached. */
  lemma InsufficientDataUnreachable(x: Inputs)
    ensures Solve(x) != InsufficientData
  {
    if |Unknowns(x)| == 2 && Condition(x, ConcAndTails) {
      TwoUnknowns(x);
      assert Get(x, FeedGrade).Some? && Get(x, ConcGrade).Some? && Get(x, TailsGrade).Some?;
    }
  }

  /** When the first condition of the chain holds, its formula is applied to the known inputs. */
  lemma TakesConcAndTails(x: Inputs)
    requires |Unknowns(x)| == 2 && Condition(x, ConcAndTails)
    ensures x.F.Some? && x.f.Some? && x.c.Some? && x.t.Some?
    ensures Solve(x) == SolveConcAndTails(x.F.value, x.f.value, x.c.value, x.t.value)
  {
    TwoUnknowns(x);
    assert Get(x, FeedGrade).Some? && Get(x, ConcGrade).Some? && Get(x, TailsGrade).Some?;
  }

  // ---------------------------------------------------------------------------
  // What a successful solve satisfies

  /** The solved quantities are exactly the unknowns; every known input is kept. */
  lemma SolvedKeepsKnowns(x: Inputs)
    requires Solve(x).Solved?
    ensures PairOf(Solve(x).solution.solved) == UnknownSet(x)
    ensures forall k :: Get(x, k).Some? ==> Value(Solve(x).solution.balance, k) == Get(x, k).value
  {
    ConditionIsPair(x, Solve(x).solution.solved);
  }

  /** The divisions of each branch and of the recovery, on the inputs alone. */
  predicate ZeroDivisor(x: Inputs)
  {
    var s := UnknownSet(x);
    if s == PairOf(ConcAndTails) then
      x.c == x.t || (x.f != Some(0.0) && x.F == Some(0.0))
    else if s == PairOf(FeedAndConc) then
      x.f == x.c || (x.f != Some(0.0) && (x.T == Some(0.0) || x.t == x.c))
    else if s == PairOf(FeedAndTails) then
      x.f == x.t || (x.f != Some(0.0) && (x.C == Some(0.0) || x.c == x.t))
    else if s == PairOf(ConcAndFeedGrade) then
      x.F == Some(0.0)
    else if s == PairOf(FeedAndFeedGrade) then
      x.C.Some? && x.T.Some? && x.C.value + x.T.value == 0.0
    else
      false
  }

  /**
    A call fails on a division by zero exactly when: c = t for {C, T};
    f = c for {F, C}; f = t for {F, T}; F = 0 for {C, f}; C + T = 0 for
    {F, f}; or, in the first three, f is not zero while the feed flow is
    zero, so that recovery divides by F*f = 0.
   */
  lemma DivisionUndefinedExactly(x: Inputs)
    ensures Solve(x) == DivisionUndefined <==> |Unknowns(x)| == 2 && ZeroDivisor(x)
  {
    if |Unknowns(x)| == 2 {
      TwoUnknowns(x);
      InsufficientDataUnreachable(x);
      var s := UnknownSet(x);
      assert x.F.Some? <==> Feed !in s;
      assert x.C.Some? <==> Conc !in s;
      assert x.T.Some? <==> Tails !in s;
      assert x.f.Some? <==> FeedGrade !in s;
      assert x.c.Some? <==> ConcGrade !in s;
      assert x.t.Some? <==> TailsGrade !in s;
      ConditionIsPair(x, ConcAndTails);
      ConditionIsPair(x, FeedAndConc);
      ConditionIsPair(x, FeedAndTails);
      ConditionIsPair(x, ConcAndFeedGrade);
      ConditionIsPair(x, FeedAndFeedGrade);
      ConditionIsPair(x, FeedGradeAndTailsGrade);
    }
  }

  // ---------------------------------------------------------------------------
  // What is displayed

  /** One displayed line: a solved quantity, rounded. */
  datatype Reading = Reading(field: Field, shown: real)

  /** The displayed result: the two solved quantities, then the recovery or its note. */
  datatype Report = Report(readings: seq<Reading>, recovery: Option<real>)

  /** Flows are shown with two decimals, a solved feed grade with four. */
  function Places(k: Field): nat
  {
    if k == FeedGrade then 4 else 2
  }

  function Shown(b: Balance, k: Field): Reading
  {
    Reading(k, Rounding.Round(Value(b, k), Places(k)))
  }

  /** The order in which each branch lists its two solved quantities. */
  function Listed(p: Branch): seq<Field>
  {
    match p
    case ConcAndTails => [Conc, Tails]
    case FeedAndConc => [Feed, Conc]
    case FeedAndTails => [Feed, Tails]
    case ConcAndFeedGrade => [Conc, FeedGrade]
    case FeedAndFeedGrade => [Feed, FeedGrade]
    case FeedGradeAndTailsGrade => []
  }

  /**
    The report of a solve: each of the two solved quantities, rounded to its
    displayed number of decimals, and the recovery rounded to two.
   */
  function ReportOf(s: Solution): (rep: Report)
    requires s.solved != FeedGradeAndTailsGrade
    ensures |rep.readings| == 2
    ensures forall i :: 0 <= i < 2 ==> rep.readings[i].field == Listed(s.solved)[i]
    ensures (set i | 0 <= i < 2 :: rep.readings[i].field) == PairOf(s.solved)
    ensures forall i :: 0 <= i < 2 ==>
              var k := rep.readings[i].field;
              Rounding.OnGrid(rep.readings[i].shown, Places(k)) &&
              -Rounding.HalfUnit(Places(k)) <= rep.readings[i].shown - Value(s.balance, k) <= Rounding.HalfUnit(Places(k))
    ensures rep.recovery.Some? <==> s.recovery.Some?
    ensures rep.recovery.Some? ==>
              Rounding.OnGrid(rep.recovery.value, 2) &&
              -Rounding.HalfUnit(2) <= rep.recovery.value - s.recovery.value <= Rounding.HalfUnit(2)
  {
    var ks := Listed(s.solved);
    var rep := Report([Shown(s.balance, ks[0]), Shown(s.balance, ks[1])],
                      if s.recovery.Some? then Some(Rounding.Round(s.recovery.value, 2)) else None);
    assert (set i | 0 <= i < 2 :: rep.readings[i].field) == {ks[0], ks[1]} by {
      assert rep.readings[0].field == ks[0] && rep.readings[1].field == ks[1];
    }
    rep
  }

  // ---------------------------------------------------------------------------
  // Worked example

  /** With the last three fields of the order known, none of them is listed as unknown. */
  lemma LastThreeKnown(x: Inputs)
    requires x.f.Some? && x.c.Some? && x.t.Some?
    ensures MissingAmong(x, Order[3..]) == []
  {
    assert MissingAmong(x, Order[5..]) == [] by { assert Order[5..][1..] == []; }
    assert MissingAmong(x, Order[4..]) == [] by { assert Order[4..][1..] == Order[5..]; }
    assert Order[3..][1..] == Order[4..];
  }

  lemma ExampleUnknowns(x: Inputs)
    requires x == Inputs(Some(100.0), None, None, Some(20.0), Some(80.0), Some(5.0))
    ensures Unknowns(x) == [Conc, Tails]
  {
    LastThreeKnown(x);
    assert MissingAmong(x, Order[2..]) == [Tails] by { assert Order[2..][1..] == Order[3..]; }
    assert MissingAmong(x, Order[1..]) == [Conc, Tails] by { assert Order[1..][1..] == Order[2..]; }
    assert MissingAmong(x, Order) == [Conc, Tails] by { assert Get(x, Order[0]).Some?; }
  }

  /** The worked inputs meet the first condition of the chain. */
  lemma ExampleCondition(x: Inputs)
    requires x == Inputs(Some(100.0), None, None, Some(20.0), Some(80.0), Some(5.0))
    ensures |Unknowns(x)| == 2 && Condition(x, ConcAndTails)
  {
    ExampleUnknowns(x);
  }

  /** The arithmetic of the {C, T} branch and of the recovery on the worked values. */
  lemma ConcAndTailsAt(F: real, f: real, c: real, t: real)
    requires F == 100.0 && f == 20.0 && c == 80.0 && t == 5.0
    ensures SolveConcAndTails(F, f, c, t)
            == Solved(Solution(ConcAndTails, Balance(100.0, 20.0, 80.0, 20.0, 80.0, 5.0), Some(80.0)))
  {
    var b := Balance(F, 20.0, 80.0, f, c, t);
    assert F * (f - t) / (c - t) == 20.0;
    assert SolveConcAndTails(F, f, c, t) == WithRecovery(ConcAndTails, b);
    assert 100.0 * (20.0 * c) / (F * f) == 80.0;
  }

  /** F = 100, f = 20, c = 80, t = 5 with C and T unknown gives C = 20, T = 80 and recovery 80%. */
  lemma RecoveryExample(x: Inputs)
    requires x == Inputs(Some(100.0), None, None, Some(20.0), Some(80.0), Some(5.0))
    ensures Solve(x) == Solved(Solution(ConcAndTails, Balance(100.0, 20.0, 80.0, 20.0, 80.0, 5.0), Some(80.0)))
  {
    ExampleCondition(x);
    TakesConcAndTails(x);
    ConcAndTailsAt(x.F.value, x.f.value, x.c.value, x.t.value);
  }

  /** The same example as displayed: C = 20.0, T = 80.0, Recovery = 80.0%. */
  lemma RecoveryExampleReport()
    ensures ReportOf(Solution(ConcAndTails, Balance(100.0, 20.0, 80.0, 20.0, 80.0, 5.0), Some(80.0)))
            == Report([Reading(Conc, 20.0), Reading(Tails, 80.0)], Some(80.0))
  {
    Rounding.RoundInteger(20, 2);
    Rounding.RoundInteger(80, 2);
  }
}
