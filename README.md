# Mineral processing balances: the two solvers

This project models the two calculators of the Mineral Processing Balances Tool.

- **Two-product formula.** A feed F of grade f splits into a concentrate C of grade c and tailings T of grade t. The caller leaves exactly two of the six quantities unknown. The solver picks a closed-form rearrangement from a chain of cases keyed on the unknown pair, and derives the recovery `100·C·c/(F·f)` of the valuable component into the concentrate.
- **Water balance.** A cyclone feed F of dilution ratio f splits into an underflow U of ratio u and an overflow V of ratio v. Exactly two of these six must be unknown; the moisture m is never counted. Three unknown flow pairs are solved. When m is given, the solver also derives three water flows: in the ball-mill feed, in the cyclone feed, and the water required at the cyclone feed.

Both solvers are pure, so the model consists of datatypes, functions and lemmas over Dafny's `real`:

- `options.dfy` (`Options`): the optional input value. Each input is `Some(x)` when known and `None` when unknown.
- `rounding.dfy` (`Rounding`): decimal rounding over the reals. `Round(x, n)` gives the multiple of 10^-n nearest to x, with ties going to the even multiple. It is proved to lie within half a unit of x and to have n decimals. Rounding a difference of two rounded values is proved to change nothing.
- `algebra.dfy` (`Algebra`): the three rearrangements both solvers share, each proved to satisfy the component balance F·f = A·a + B·b.
- `two_product.dfy` (`TwoProduct`) and `water_balance.dfy` (`WaterBalance`): one module per solver, each with these parts:
  - the unknown list, collected in the source's field order;
  - the case chain, with each branch's condition written as the source writes it;
  - one function per branch formula;
  - the secondary result (recovery, or water flows);
  - a structured outcome instead of the source's result string.

Function results are the exact, unrounded solved values, because the source computes recovery and the water flows from those. What the source prints is modelled separately by `ReportOf`: flows rounded to 2 decimals, a solved feed grade to 4, recovery to 2, and the water flows already rounded to 1.

Outcomes:

| outcome | source behaviour |
|---|---|
| `InvalidUnknownCount` | "Please leave exactly two variables as None." |
| `Underdetermined` | the {f, t} message (two-product only) |
| `Unsupported` | "Combination not supported or insufficient data." |
| `DivisionUndefined` | a `ZeroDivisionError` raised on the way; the call produces nothing |
| `InsufficientData` / `SkippedOnly` | the two returns the chain can reach only if a branch's inner guard fails; both are proved unreachable |
| `Solved(...)` | the solved values plus the recovery, or its note (`None`); for the water solver, the water flows or the "skipped" note (`None`) |

Three behaviours of the code are worth stating explicitly:

- **An "insufficient data" outcome cannot happen.** Once exactly two inputs are unknown, every branch's check that the other inputs are present is automatically true. The one dedicated return (streamlit_gui_app.py:21) is dead code. The water solver's {U, V} branch has no `else` for that check; if it could fail, the call would fall through to the "skipped" note alone (`SkippedOnly`).
- **Division by zero is raised, not returned.** The source raises `ZeroDivisionError`; the model turns every such case into `DivisionUndefined`. This includes the recovery's own division: the guard tests only `f != 0`, but the recovery divides by `F·f`. So a solve whose feed flow is zero fails whenever f ≠ 0, instead of attaching the "cannot be calculated" note. For example: C and T unknown with F = 0.
- **Recovery needs only f ≠ 0.** After every successful solve, F, C, f and c are all known. So the recovery condition reduces to f ≠ 0 (or F ≠ 0 as well, as the previous point explains).

## Model

| member | source | states |
|---|---|---|
| `TwoProduct.MissingAmong` | streamlit_gui_app.py:6-7 | the fields listed are exactly those of the given list whose input is `None`, without repeats when the list has none |
| `TwoProduct.Unknowns` | streamlit_gui_app.py:6-7 | a field is in the unknown list exactly when its input is `None`; no field appears twice |
| `TwoProduct.TwoUnknowns` | streamlit_gui_app.py:9-10 | with two unknowns, every field other than the two listed is known, and the two listed fields differ |
| `TwoProduct.Solve` | streamlit_gui_app.py:5-61 | rejects with `InvalidUnknownCount` exactly when the number of `None` inputs is not two; every solve meets F = C + T and F·f = C·c + T·t exactly, carries its recovery as `RecoveryMeaning` defines it, and never comes from the {f, t} branch |
| `TwoProduct.SolveConcAndTails` | streamlit_gui_app.py:15-19 | C = F(f−t)/(c−t) and T = F − C balance both equations; fails exactly when c = t, or when f ≠ 0 and F = 0 (the recovery's division) |
| `TwoProduct.SolveFeedAndConc` | streamlit_gui_app.py:24-27 | F = T(t−c)/(f−c) and C = F − T balance both equations; fails exactly when f = c, or when f ≠ 0 and T = 0 or t = c, since those make F zero |
| `TwoProduct.SolveFeedAndTails` | streamlit_gui_app.py:30-33 | F = C(c−t)/(f−t) and T = F − C balance both equations; fails exactly when f = t, or when f ≠ 0 and C = 0 or c = t |
| `TwoProduct.SolveConcAndFeedGrade` | streamlit_gui_app.py:36-39 | C = F − T and f = (C·c + T·t)/F balance both equations; fails exactly when F = 0 |
| `TwoProduct.SolveFeedAndFeedGrade` | streamlit_gui_app.py:42-45 | F = C + T and f = (C·c + T·t)/F balance both equations; fails exactly when C + T = 0 |
| `TwoProduct.WithRecovery` | streamlit_gui_app.py:54-59 | keeps the solved values; recovery is present exactly when f ≠ 0, and is then the R with R·(F·f) = 100·C·c for F·f ≠ 0; fails exactly when f ≠ 0 and F = 0 |
| `TwoProduct.ConditionIsPair` | streamlit_gui_app.py:15-48 | with two unknowns, a branch's condition holds exactly when its pair is the unknown pair, so the per-branch presence checks never fail |
| `TwoProduct.ConditionsExclusive` | streamlit_gui_app.py:14-52 | with two unknowns, no two branch conditions hold at once, so branch order is irrelevant |
| `TwoProduct.RouteOf` | streamlit_gui_app.py:14-52 | static case table: each of the five solvable pairs is routed to its own branch, a solvable route's pair is the given set, and the underdetermined route is taken exactly for {f, t} |
| `TwoProduct.DispatchByPair` | streamlit_gui_app.py:14-52 | with two unknowns the outcome depends only on the pair: the pair's own formula solves it or fails on a zero divisor; {f, t} always gives `Underdetermined`; every other pair gives `Unsupported` |
| `TwoProduct.InsufficientDataUnreachable` | streamlit_gui_app.py:15-21 | the "not enough info" return is never produced |
| `TwoProduct.SolvedKeepsKnowns` | streamlit_gui_app.py:14-45 | a solve's solved fields are exactly the unknown pair, and every known input appears unchanged in the result |
| `TwoProduct.DivisionUndefinedExactly` | streamlit_gui_app.py:14-57 | the call fails on a division by zero exactly when two fields are unknown and the inputs meet the per-pair zero-denominator conditions of `ZeroDivisor` |
| `TwoProduct.ReportOf` | streamlit_gui_app.py:19-57 | the report shows the two solved fields in the branch's printed order, each with 2 decimals (4 for the feed grade) and within half a unit of its exact value; the recovery is shown exactly when present, with 2 decimals and within 0.005 |
| `TwoProduct.TakesConcAndTails` | streamlit_gui_app.py:14-19 | when the first condition of the chain holds with two unknowns, F, f, c and t are all known and the {C, T} formula applies to them |
| `TwoProduct.ExampleUnknowns` | streamlit_gui_app.py:6-7 | for F=100, f=20, c=80, t=5 the unknown list is [C, T] |
| `TwoProduct.ExampleCondition` | streamlit_gui_app.py:9-15 | those inputs pass the count check and meet the {C, T} condition |
| `TwoProduct.ConcAndTailsAt` | streamlit_gui_app.py:17-56 | on those values the {C, T} formula gives C = 20, T = 80 and recovery 80 |
| `TwoProduct.RecoveryExample` | streamlit_gui_app.py:15-57 | F=100, f=20, c=80, t=5 gives C=20, T=80 and recovery 80 |
| `TwoProduct.RecoveryExampleReport` | streamlit_gui_app.py:19-57 | that solve is displayed as C = 20.0, T = 80.0, Recovery = 80.0 |
| `Algebra.SplitOfKnownFeed` | streamlit_gui_app.py:17-18 | A = F(f−b)/(a−b) with B = F − A satisfies F·f = A·a + B·b (also lines 76-77) |
| `Algebra.FeedFromSecondStream` | streamlit_gui_app.py:25-26 | F = B(b−a)/(f−a) with A = F − B satisfies F·f = A·a + B·b (also lines 82-83) |
| `Algebra.FeedFromFirstStream` | streamlit_gui_app.py:31-32 | F = A(a−b)/(f−b) with B = F − A satisfies F·f = A·a + B·b (also lines 88-89) |
| `Rounding.Round` | streamlit_gui_app.py:98-104 | the rounded value has n decimals and lies within half a unit of x |
| `Rounding.RoundDifferenceOfRounded` | streamlit_gui_app.py:104 | rounding the difference of two values rounded to n decimals returns that difference unchanged |
| `WaterBalance.MissingAmong` | streamlit_gui_app.py:65-66 | the fields listed are exactly those of the given list whose input is `None`, without repeats when the list has none |
| `WaterBalance.Unknowns` | streamlit_gui_app.py:65-66 | a field among F, U, V, f, u, v is listed exactly when its input is `None`; m is not a field, so it is never counted |
| `WaterBalance.TwoUnknowns` | streamlit_gui_app.py:68-69 | with two unknowns, every field other than the two listed is known, and the two differ |
| `WaterBalance.Solve` | streamlit_gui_app.py:64-114 | rejects with `InvalidUnknownCount` exactly when not two of the six are `None`; every solve meets F = U + V and F·f = U·u + V·v exactly; the water flows are present exactly when m is given, and then satisfy `WaterMeaning` |
| `WaterBalance.SolveUnderAndOver` | streamlit_gui_app.py:74-78 | U = F(f−v)/(u−v) and V = F − U balance both equations; fails exactly when u = v or m = 100 |
| `WaterBalance.SolveFeedAndUnder` | streamlit_gui_app.py:81-84 | F = V(v−u)/(f−u) and U = F − V balance both equations; fails exactly when f = u or m = 100 |
| `WaterBalance.SolveFeedAndOver` | streamlit_gui_app.py:87-90 | F = U(u−v)/(f−v) and V = F − U balance both equations; fails exactly when f = v or m = 100 |
| `WaterBalance.WithWater` | streamlit_gui_app.py:95-112 | keeps the solved flows; the water flows are present exactly when m is given: the ball-mill feed water is V·m/(100−m) + U·u and the cyclone feed water is (U+V)·f, each rounded to 1 decimal, and the requirement is exactly their difference; fails exactly when m = 100 |
| `WaterBalance.ConditionIsPair` | streamlit_gui_app.py:74-90 | with two unknowns, a branch's condition holds exactly when its pair is the unknown pair |
| `WaterBalance.SkippedOnlyUnreachable` | streamlit_gui_app.py:74-78 | the {U, V} branch's presence check never fails, so a call never ends with only the "skipped" note |
| `WaterBalance.DispatchByPair` | streamlit_gui_app.py:73-93 | with two unknowns, the call is `Unsupported` exactly when a dilution ratio is among them; otherwise it is solved or fails on a zero divisor |
| `WaterBalance.SolvedKeepsKnowns` | streamlit_gui_app.py:73-90 | the solved fields are exactly the unknown pair, and every known input appears unchanged in the result |
| `WaterBalance.DivisionUndefinedExactly` | streamlit_gui_app.py:73-98 | the call fails on a division by zero exactly when two fields are unknown and u = v for {U, V}, f = u for {F, U}, f = v for {F, V}, or m = 100 |
| `WaterBalance.ReportOf` | streamlit_gui_app.py:78-110 | the report shows the two solved flows in the branch's printed order, each with 2 decimals and within 0.005 of its exact value, and the water flows as computed |
| `WaterBalance.ExampleUnknowns` | streamlit_gui_app.py:65-66 | for F=100, f=30, u=60, v=10 the unknown list is [U, V], whatever m is |
| `WaterBalance.ExampleDispatch` | streamlit_gui_app.py:73-78 | that call goes to the {U, V} branch |
| `WaterBalance.ExampleFlows` | streamlit_gui_app.py:76-77 | in that call U = 40 and V = 60 |
| `WaterBalance.WaterExampleSkipped` | streamlit_gui_app.py:73-112 | without m: U = 40, V = 60, and the water flows are skipped |
| `WaterBalance.WaterFlowsAt` | streamlit_gui_app.py:96-104 | for U = 40, V = 60, f = 30, u = 60 and m = 20 the water flows are 2415.0, 3000.0 and 585.0 |
| `WaterBalance.WaterExampleWithMoisture` | streamlit_gui_app.py:73-110 | with m = 20: ball-mill feed water 2415.0, cyclone feed water 3000.0, requirement 585.0 |

## Left out

- The Streamlit page (streamlit_gui_app.py:118-207): layout, text inputs, checkboxes, buttons and the display of results and errors. It is presentation code over a library outside this model.
- Parsing text into numbers with `float()` and a bare `except` (streamlit_gui_app.py:155-158, 196-203). The solvers' inputs are taken directly as optional reals.
- The page's own check that exactly two boxes are ticked (streamlit_gui_app.py:159, 204). It counts ticked boxes; the solvers, which are modelled, count `None` inputs. A blank or unparsable field in an unticked box also becomes `None` (streamlit_gui_app.py:156-158, 197-199), so the page can pass two ticks to a solver that sees three unknowns and answers `InvalidUnknownCount`.
- The exact text of the results and messages (the f-strings). A structured outcome and `ReportOf` take their place.
- IEEE-754 floating point. All arithmetic is over exact reals, so the model does not capture rounding error, overflow to infinity, or NaN or infinite inputs (which `float()` accepts).
- Rounding.Round: rounds the exact real value; it does not capture Python's `round` acting on the nearest binary double (so 2.675 rounds to 2.68 here, and to 2.67 in Python).
- The order of the printed lines is modelled (`Listed`, stated by `ReportOf`). Their wording and units (% for the recovery, m3/h for the water flows) are not.
