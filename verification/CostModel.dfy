/** Cash flows of a replacement scenario in decimal arithmetic: 28 significant digits, rounding half to even. */
module CostModel {
  import opened Wrappers

  // ---------------------------------------------------------------------------
  // Decimals

  /** `coef` times ten to the power of `exp`. */
  datatype Dec = Dec(coef: int, exp: int)

  const PRECISION: nat := 28

  /** Ten to the 28th: no number below it has more than 28 digits. */
  const LIMIT: nat := 10_000_000_000_000_000_000_000_000_000

  function Pow10(n: nat): (p: nat)
    ensures p > 0
  {
    if n == 0 then 1 else 10 * Pow10(n - 1)
  }

  lemma {:induction false} Pow10Adds(m: nat, n: nat)
    ensures Pow10(m + n) == Pow10(m) * Pow10(n)
  {
    if m == 0 {
    } else {
      Pow10Adds(m - 1, n);
    }
  }

  lemma LimitIsPower()
    ensures LIMIT == Pow10(PRECISION)
  {
    assert Pow10(7) == 10_000_000;
    Pow10Adds(7, 7);
    Pow10Adds(14, 14);
  }

  function Abs(x: int): nat {
    if x < 0 then -x else x
  }

  function Digits(n: nat): nat {
    if n == 0 then 0 else 1 + Digits(n / 10)
  }

  /** The number of digits that a positive number has. */
  lemma {:induction false} DigitsBound(n: nat, k: nat)
    ensures n < Pow10(k) <==> Digits(n) <= k
  {
    if n == 0 {
    } else if k > 0 {
      DigitsBound(n / 10, k - 1);
      assert n < 10 * Pow10(k - 1) <==> n / 10 < Pow10(k - 1);
    }
  }

  function HalfEven(n: nat, unit: nat): nat
    requires unit > 0
  {
    var q, r := n / unit, n % unit;
    if 2 * r > unit || (2 * r == unit && q % 2 == 1) then q + 1 else q
  }

  lemma Quotient(n: nat, unit: nat)
    requires unit > 0
    ensures n == n / unit * unit + n % unit && (n / unit + 1) * unit == n / unit * unit + unit
  {
  }

  /** The nearest multiple of the unit, and of two that are equally near the even one. */
  lemma HalfEvenIsNearest(n: nat, unit: nat)
    requires unit > 0
    ensures var error := n - HalfEven(n, unit) * unit;
            2 * Abs(error) <= unit && (2 * Abs(error) == unit ==> HalfEven(n, unit) % 2 == 0)
  {
    Quotient(n, unit);
  }

  /** The nearest number with at most 28 significant digits. A carry into a further digit leaves a power of ten. */
  function Fix(d: Dec): Dec {
    var digits := Digits(Abs(d.coef));
    if digits <= PRECISION then d
    else
      var dropped := digits - PRECISION;
      var kept: int := HalfEven(Abs(d.coef), Pow10(dropped));
      Dec(if d.coef < 0 then -kept else kept, d.exp + dropped)
  }

  /** The coefficient at a smaller exponent. */
  function At(d: Dec, exp: int): int
    requires exp <= d.exp
  {
    d.coef * Pow10(d.exp - exp)
  }

  function Add(a: Dec, b: Dec): Dec {
    var exp := if a.exp < b.exp then a.exp else b.exp;
    Fix(Dec(At(a, exp) + At(b, exp), exp))
  }

  function Negate(a: Dec): Dec {
    Fix(Dec(-a.coef, a.exp))
  }

  function Subtract(a: Dec, b: Dec): Dec {
    var exp := if a.exp < b.exp then a.exp else b.exp;
    Fix(Dec(At(a, exp) - At(b, exp), exp))
  }

  function Times(a: Dec, n: int): Dec {
    Fix(Dec(a.coef * n, a.exp))
  }

  function Nonnegative(a: Dec): bool {
    a.coef >= 0
  }

  // ---------------------------------------------------------------------------
  // Exactness

  const SMALLEST := -6

  /** A value in millionths. */
  function Micro(d: Dec): int
    requires d.exp >= SMALLEST
  {
    At(d, SMALLEST)
  }

  /** `d` is exactly `m` millionths. */
  predicate Is(d: Dec, m: int) {
    d.exp >= SMALLEST && Micro(d) == m
  }

  predicate Fits(m: int) {
    Abs(m) < LIMIT
  }

  lemma Grows(c: int, p: nat)
    requires p > 0
    ensures Abs(c) <= Abs(c * p)
  {
    if c > 0 {
      assert c * p >= c;
    } else if c < 0 {
      assert -c * p >= -c;
    }
  }

  lemma FewDigits(n: nat)
    requires Fits(n)
    ensures Digits(n) <= PRECISION
  {
    LimitIsPower();
    DigitsBound(n, PRECISION);
  }

  /** Below ten to the 28th millionths nothing is rounded, whatever the exponent. */
  lemma FixIsExact(d: Dec, m: int)
    requires Is(d, m) && Fits(m)
    ensures Fix(d) == d
  {
    Grows(d.coef, Pow10(d.exp - SMALLEST));
    FewDigits(Abs(d.coef));
  }

  lemma {:induction false} MicroAt(d: Dec, exp: int)
    requires SMALLEST <= exp <= d.exp
    ensures Micro(d) == At(d, exp) * Pow10(exp - SMALLEST)
  {
    Pow10Adds(d.exp - exp, exp - SMALLEST);
  }

  lemma SumAt(x: int, y: int, p: int)
    ensures (x + y) * p == x * p + y * p
    ensures (x - y) * p == x * p - y * p
  {
  }

  /** Sums, differences, multiples and opposites of exact values are exact while they fit. */
  lemma AddIsExact(a: Dec, x: int, b: Dec, y: int)
    requires Is(a, x) && Is(b, y) && Fits(x + y)
    ensures Is(Add(a, b), x + y)
  {
    var exp := if a.exp < b.exp then a.exp else b.exp;
    MicroAt(a, exp);
    MicroAt(b, exp);
    SumAt(At(a, exp), At(b, exp), Pow10(exp - SMALLEST));
    FixIsExact(Dec(At(a, exp) + At(b, exp), exp), x + y);
  }

  lemma SubtractIsExact(a: Dec, x: int, b: Dec, y: int)
    requires Is(a, x) && Is(b, y) && Fits(x - y)
    ensures Is(Subtract(a, b), x - y)
  {
    var exp := if a.exp < b.exp then a.exp else b.exp;
    MicroAt(a, exp);
    MicroAt(b, exp);
    SumAt(At(a, exp), At(b, exp), Pow10(exp - SMALLEST));
    FixIsExact(Dec(At(a, exp) - At(b, exp), exp), x - y);
  }

  lemma TimesIsExact(a: Dec, x: int, n: int)
    requires Is(a, x) && Fits(x * n)
    ensures Is(Times(a, n), x * n)
  {
    var p := Pow10(a.exp - SMALLEST);
    assert a.coef * n * p == a.coef * p * n;
    FixIsExact(Dec(a.coef * n, a.exp), x * n);
  }

  lemma Opposite(x: int, p: int)
    ensures -x * p == -(x * p)
  {
  }

  lemma NegateIsExact(a: Dec, x: int)
    requires Is(a, x) && Fits(x)
    ensures Is(Negate(a), -x)
  {
    Opposite(a.coef, Pow10(a.exp - SMALLEST));
    FixIsExact(Dec(-a.coef, a.exp), -x);
  }

  lemma SignIsMicroSign(a: Dec, x: int)
    requires Is(a, x)
    ensures Nonnegative(a) <==> x >= 0
  {
  }

  // ---------------------------------------------------------------------------
  // Inputs

  /** What a supplied value is read as. */
  datatype Supplied = NotANumber | Number(value: Dec)

  /** 1e15, in millionths. */
  const LARGEST := 1_000_000_000_000_000_000_000

  /** Finite, not negative, at most 1e15, at most six decimal places. */
  predicate IsAmount(s: Supplied) {
    s.Number? && s.value.coef >= 0 && s.value.exp >= SMALLEST && Micro(s.value) <= LARGEST
  }

  datatype Scenario = Scenario(name: string, replacement: Supplied)

  datatype Input = Input(months: int, currency: string, baseline: Supplied, oneTime: Supplied, scenarios: seq<Scenario>)

  predicate IsSpace(c: char) {
    '\t' <= c <= '\r' || '\U{1c}' <= c <= ' ' || c in "\U{85}\U{a0}\U{1680}\U{2028}\U{2029}\U{202f}\U{205f}\U{3000}"
    || '\U{2000}' <= c <= '\U{200a}'
  }

  predicate IsBlank(s: string) {
    forall i :: 0 <= i < |s| ==> IsSpace(s[i])
  }

  predicate IsCurrency(s: string) {
    |s| == 3 && forall i :: 0 <= i < 3 ==> 'A' <= s[i] <= 'Z'
  }

  predicate AreScenarios(scenarios: seq<Scenario>) {
    && (forall i :: 0 <= i < |scenarios| ==> !IsBlank(scenarios[i].name) && IsAmount(scenarios[i].replacement))
    && (forall i, j :: 0 <= i < j < |scenarios| ==> scenarios[i].name != scenarios[j].name)
  }

  predicate IsAccepted(input: Input) {
    && 1 <= input.months <= 120 && IsCurrency(input.currency) && IsAmount(input.baseline) && IsAmount(input.oneTime)
    && input.scenarios != [] && AreScenarios(input.scenarios)
  }

  // ---------------------------------------------------------------------------
  // Cash flows

  datatype Flow = Flow(month: nat, net: Dec, cumulative: Dec)

  datatype Row = Row(name: string, baselineTotal: Dec, replacementTotal: Dec, net: Dec, annualCost: Dec, annualNet: Dec,
                     payback: Option<nat>, flows: seq<Flow>)

  /** The amounts of one scenario in millionths. */
  datatype Plan = Plan(baseline: int, oneTime: int, replacement: int) {
    predicate Valid() {
      0 <= baseline <= LARGEST && 0 <= oneTime <= LARGEST && 0 <= replacement <= LARGEST
    }

    /** The exact position after `month` months. */
    function Position(month: int): int {
      (baseline - replacement) * month - oneTime
    }
  }

  predicate FlowIs(flow: Flow, plan: Plan, month: nat) {
    && flow.month == month
    && Is(flow.net, if month == 0 then -plan.oneTime else plan.baseline - plan.replacement)
    && Is(flow.cumulative, plan.Position(month))
  }

  predicate FlowsAre(flows: seq<Flow>, plan: Plan) {
    forall m :: 0 <= m < |flows| ==> FlowIs(flows[m], plan, m)
  }

  /** The first month, if any, whose position is not negative. */
  predicate IsPayback(payback: Option<nat>, plan: Plan, months: nat) {
    match payback
    case Some(m) => m <= months && plan.Position(m) >= 0 && forall k :: 0 <= k < m ==> plan.Position(k) < 0
    case None => forall k :: 0 <= k <= months ==> plan.Position(k) < 0
  }

  predicate RowIs(row: Row, name: string, plan: Plan, months: nat) {
    && row.name == name
    && Is(row.baselineTotal, plan.baseline * months)
    && Is(row.replacementTotal, plan.oneTime + plan.replacement * months)
    && Is(row.net, plan.Position(months))
    && Is(row.annualCost, plan.replacement * 12) && Is(row.annualNet, (plan.baseline - plan.replacement) * 12)
    && |row.flows| == months + 1 && FlowsAre(row.flows, plan) && IsPayback(row.payback, plan, months)
  }

  lemma Scaled(a: int, b: int, k: nat)
    requires a <= b
    ensures a * k <= b * k
  {
  }

  lemma ProductAtMost(x: int, bound: nat, k: nat, most: nat)
    requires x <= bound && k <= most
    ensures x * k <= most * bound
  {
    Scaled(x, bound, k);
    Scaled(k, most, bound);
  }

  lemma MonthsFit(x: int, months: int)
    requires -LARGEST <= x <= LARGEST && 0 <= months <= 120
    ensures -120 * LARGEST <= x * months <= 120 * LARGEST
  {
    ProductAtMost(x, LARGEST, months, 120);
    ProductAtMost(-x, LARGEST, months, 120);
  }

  lemma PositionFits(plan: Plan, month: nat)
    requires plan.Valid() && month <= 120
    ensures Fits(plan.Position(month)) && Fits((plan.baseline - plan.replacement) * month) && Fits(plan.oneTime)
  {
    MonthsFit(plan.baseline - plan.replacement, month);
  }

  /** One month's flow, without rounding. */
  lemma FlowIsExact(plan: Plan, initial: Dec, delta: Dec, month: nat)
    requires plan.Valid() && 1 <= month <= 120
    requires Is(initial, plan.oneTime) && Is(delta, plan.baseline - plan.replacement)
    ensures Is(Add(Negate(initial), Times(delta, month)), plan.Position(month))
  {
    var d := plan.baseline - plan.replacement;
    PositionFits(plan, month);
    NegateIsExact(initial, plan.oneTime);
    TimesIsExact(delta, d, month);
    AddIsExact(Negate(initial), -plan.oneTime, Times(delta, month), d * month);
  }

  lemma NetIsExact(plan: Plan, totalBaseline: Dec, totalReplacement: Dec, months: nat)
    requires Is(totalBaseline, plan.baseline * months)
    requires Is(totalReplacement, plan.oneTime + plan.replacement * months) && plan.Valid() && months <= 120
    ensures Is(Subtract(totalBaseline, totalReplacement), plan.Position(months))
  {
    var x, y := plan.baseline * months, plan.replacement * months;
    MonthsFit(plan.baseline, months);
    MonthsFit(plan.replacement, months);
    SumAt(plan.baseline, plan.replacement, months);
    SubtractIsExact(totalBaseline, x, totalReplacement, plan.oneTime + y);
  }

  /** The totals of a scenario, without rounding. */
  lemma TotalsAreExact(plan: Plan, baseline: Dec, initial: Dec, replacement: Dec, months: nat)
    requires plan.Valid() && 1 <= months <= 120
    requires Is(baseline, plan.baseline) && Is(initial, plan.oneTime) && Is(replacement, plan.replacement)
    ensures Is(Times(baseline, months), plan.baseline * months)
    ensures Is(Add(initial, Times(replacement, months)), plan.oneTime + plan.replacement * months)
    ensures Is(Subtract(Times(baseline, months), Add(initial, Times(replacement, months))), plan.Position(months))
  {
    MonthsFit(plan.baseline, months);
    MonthsFit(plan.replacement, months);
    TimesIsExact(baseline, plan.baseline, months);
    TimesIsExact(replacement, plan.replacement, months);
    AddIsExact(initial, plan.oneTime, Times(replacement, months), plan.replacement * months);
    NetIsExact(plan, Times(baseline, months), Add(initial, Times(replacement, months)), months);
  }

  method MonthlyFlows(initial: Dec, delta: Dec, months: nat, ghost plan: Plan) returns (flows: seq<Flow>)
    requires plan.Valid() && 1 <= months <= 120
    requires Is(initial, plan.oneTime) && Is(delta, plan.baseline - plan.replacement)
    ensures |flows| == months + 1 && FlowsAre(flows, plan)
  {
    NegateIsExact(initial, plan.oneTime);
    flows := [Flow(0, Negate(initial), Negate(initial))];
    for month := 1 to months + 1
      invariant |flows| == month && FlowsAre(flows, plan)
    {
      FlowIsExact(plan, initial, delta, month);
      flows := flows + [Flow(month, delta, Add(Negate(initial), Times(delta, month)))];
    }
  }

  method Payback(flows: seq<Flow>, ghost plan: Plan) returns (payback: Option<nat>)
    requires flows != [] && FlowsAre(flows, plan)
    ensures IsPayback(payback, plan, |flows| - 1)
  {
    for i := 0 to |flows|
      invariant forall k :: 0 <= k < i ==> plan.Position(k) < 0
    {
      assert FlowIs(flows[i], plan, i);
      SignIsMicroSign(flows[i].cumulative, plan.Position(i));
      if Nonnegative(flows[i].cumulative) {
        return Some(flows[i].month);
      }
    }
    return None;
  }

  method Evaluate(name: string, baseline: Dec, initial: Dec, replacement: Dec, months: nat, ghost plan: Plan)
    returns (row: Row)
    requires plan.Valid() && 1 <= months <= 120
    requires Is(baseline, plan.baseline) && Is(initial, plan.oneTime) && Is(replacement, plan.replacement)
    ensures RowIs(row, name, plan, months)
  {
    TotalsAreExact(plan, baseline, initial, replacement, months);
    SubtractIsExact(baseline, plan.baseline, replacement, plan.replacement);
    var delta := Subtract(baseline, replacement);
    var totalBaseline := Times(baseline, months);
    var totalReplacement := Add(initial, Times(replacement, months));
    var net := Subtract(totalBaseline, totalReplacement);
    var flows := MonthlyFlows(initial, delta, months, plan);
    var payback := Payback(flows, plan);
    TimesIsExact(baseline, plan.baseline, 12);
    TimesIsExact(replacement, plan.replacement, 12);
    var annualCost := Times(replacement, 12);
    SubtractIsExact(Times(baseline, 12), plan.baseline * 12, annualCost, plan.replacement * 12);
    row := Row(name, totalBaseline, totalReplacement, net, annualCost, Subtract(Times(baseline, 12), annualCost),
               payback, flows);
  }

  ghost function PlanOf(input: Input, i: nat): Plan
    requires IsAmount(input.baseline) && IsAmount(input.oneTime)
    requires i < |input.scenarios| && IsAmount(input.scenarios[i].replacement)
  {
    Plan(Micro(input.baseline.value), Micro(input.oneTime.value), Micro(input.scenarios[i].replacement.value))
  }

  /** The exact row of scenario `i`. */
  ghost predicate RowOf(row: Row, input: Input, i: nat)
    requires IsAmount(input.baseline) && IsAmount(input.oneTime) && input.months >= 0
    requires i < |input.scenarios| && IsAmount(input.scenarios[i].replacement)
  {
    RowIs(row, input.scenarios[i].name, PlanOf(input, i), input.months)
  }

  function NamesOf(scenarios: seq<Scenario>): set<string> {
    set i | 0 <= i < |scenarios| :: scenarios[i].name
  }

  lemma OneMoreScenario(scenarios: seq<Scenario>, s: Scenario)
    requires AreScenarios(scenarios)
    ensures AreScenarios(scenarios + [s])
            <==> !IsBlank(s.name) && IsAmount(s.replacement) && s.name !in NamesOf(scenarios)
    ensures NamesOf(scenarios + [s]) == NamesOf(scenarios) + {s.name}
  {
    var all := scenarios + [s];
    assert all[|scenarios|] == s && forall i :: 0 <= i < |scenarios| ==> all[i] == scenarios[i];
    forall name | name in NamesOf(scenarios) ensures name in NamesOf(all) {
      var i :| 0 <= i < |scenarios| && scenarios[i].name == name;
      assert all[i].name == name;
    }
  }

  lemma PartOfScenarios(scenarios: seq<Scenario>, n: nat)
    requires n <= |scenarios| && AreScenarios(scenarios)
    ensures AreScenarios(scenarios[..n])
  {
  }

  /** A scenario that is new and well-formed continues the list; any other spoils the whole. */
  lemma NextScenario(scenarios: seq<Scenario>, i: nat)
    requires i < |scenarios| && AreScenarios(scenarios[..i])
    ensures var s := scenarios[i];
            if !IsBlank(s.name) && IsAmount(s.replacement) && s.name !in NamesOf(scenarios[..i])
            then AreScenarios(scenarios[..i + 1]) else !AreScenarios(scenarios)
    ensures NamesOf(scenarios[..i + 1]) == NamesOf(scenarios[..i]) + {scenarios[i].name}
  {
    assert scenarios[..i + 1] == scenarios[..i] + [scenarios[i]];
    OneMoreScenario(scenarios[..i], scenarios[i]);
    if AreScenarios(scenarios) {
      PartOfScenarios(scenarios, i + 1);
    }
  }

  /** The exact rows of the first scenarios. */
  ghost predicate RowsOf(rows: seq<Row>, input: Input) {
    && IsAmount(input.baseline) && IsAmount(input.oneTime) && input.months >= 0 && |rows| <= |input.scenarios|
    && forall i :: 0 <= i < |rows| ==> IsAmount(input.scenarios[i].replacement) && RowOf(rows[i], input, i)
  }

  lemma OneMoreRow(rows: seq<Row>, row: Row, input: Input)
    requires RowsOf(rows, input) && |rows| < |input.scenarios| && IsAmount(input.scenarios[|rows|].replacement)
    requires RowOf(row, input, |rows|)
    ensures RowsOf(rows + [row], input)
  {
  }

  /** Every accepted input gives its exact rows, in order; every other input is refused. */
  method Calculate(input: Input) returns (rows: Option<seq<Row>>)
    ensures rows.Some? <==> IsAccepted(input)
    ensures rows.Some? ==>
              && |rows.value| == |input.scenarios|
              && forall i :: 0 <= i < |rows.value| ==> RowOf(rows.value[i], input, i)
  {
    if !(1 <= input.months <= 120) || !IsCurrency(input.currency) || !IsAmount(input.baseline)
       || !IsAmount(input.oneTime) || input.scenarios == [] {
      return None;
    }
    var names: set<string> := {};
    var done: seq<Row> := [];
    for i := 0 to |input.scenarios|
      invariant AreScenarios(input.scenarios[..i]) && |done| == i
      invariant names == NamesOf(input.scenarios[..i])
      invariant RowsOf(done, input)
    {
      var scenario := input.scenarios[i];
      NextScenario(input.scenarios, i);
      if IsBlank(scenario.name) || scenario.name in names {
        return None;
      }
      names := names + {scenario.name};
      if !IsAmount(scenario.replacement) {
        return None;
      }
      var row := Evaluate(scenario.name, input.baseline.value, input.oneTime.value, scenario.replacement.value,
                          input.months, PlanOf(input, i));
      OneMoreRow(done, row, input);
      done := done + [row];
    }
    assert input.scenarios[..|input.scenarios|] == input.scenarios;
    return Some(done);
  }

  // ---------------------------------------------------------------------------
  // What the rows mean

  function Collected(flows: seq<Flow>): int
    requires forall i :: 0 <= i < |flows| ==> flows[i].net.exp >= SMALLEST
  {
    if flows == [] then 0 else Collected(flows[..|flows| - 1]) + Micro(flows[|flows| - 1].net)
  }

  lemma PositionStep(plan: Plan, month: int)
    ensures plan.Position(month) == plan.Position(month - 1) + (plan.baseline - plan.replacement)
  {
  }

  /** Each cumulative flow is the sum of the flows up to it. */
  lemma {:induction false} FlowsAccumulate(flows: seq<Flow>, plan: Plan)
    requires flows != [] && FlowsAre(flows, plan)
    ensures Collected(flows) == Micro(flows[|flows| - 1].cumulative)
  {
    var last := |flows| - 1;
    assert FlowIs(flows[last], plan, last);
    if last == 0 {
    } else {
      FlowsAccumulate(flows[..last], plan);
      assert FlowIs(flows[last - 1], plan, last - 1);
      PositionStep(plan, last);
    }
  }

  /** The last cumulative flow is the net saving, and both are the difference of the totals. */
  lemma NetIsLastFlow(row: Row, name: string, plan: Plan, months: nat)
    requires RowIs(row, name, plan, months)
    ensures Micro(row.net) == Micro(row.flows[months].cumulative) == Collected(row.flows)
            == Micro(row.baselineTotal) - Micro(row.replacementTotal)
  {
    FlowsAccumulate(row.flows, plan);
    assert FlowIs(row.flows[months], plan, months);
    SumAt(plan.baseline, plan.replacement, months);
  }

  function Ceiling(n: nat, d: nat): nat
    requires d > 0
  {
    (n + d - 1) / d
  }

  lemma CeilingBounds(n: nat, d: nat)
    requires d > 0
    ensures n <= Ceiling(n, d) * d < n + d
  {
  }

  lemma CeilingIsLeast(n: nat, d: nat, k: nat)
    requires d > 0
    ensures d * k >= n <==> k >= Ceiling(n, d)
  {
    var c := Ceiling(n, d);
    CeilingBounds(n, d);
    if k >= c {
      Scaled(c, k, d);
    } else {
      Scaled(k + 1, c, d);
    }
  }

  /** A monthly saving pays back in the quotient of the outlay and the saving, rounded up, if the horizon reaches that
      far; without one, only an outlay of nothing is paid back, at once. */
  lemma PaybackIsCeiling(payback: Option<nat>, plan: Plan, months: nat)
    requires plan.Valid()
    ensures IsPayback(payback, plan, months)
            <==> payback == var delta := plan.baseline - plan.replacement;
                            if delta > 0 then
                              var month := Ceiling(plan.oneTime, delta); if month <= months then Some(month) else None
                            else if plan.oneTime == 0 then Some(0) else None
  {
    var delta := plan.baseline - plan.replacement;
    if delta > 0 {
      forall k: nat ensures plan.Position(k) >= 0 <==> k >= Ceiling(plan.oneTime, delta) {
        CeilingIsLeast(plan.oneTime, delta, k);
      }
      assert plan.Position(Ceiling(plan.oneTime, delta)) >= 0;
    } else {
      forall k: nat ensures plan.Position(k) >= 0 ==> plan.oneTime == 0 {
        assert -delta * k >= 0;
      }
      assert plan.Position(0) == -plan.oneTime;
    }
  }
}
