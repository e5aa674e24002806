/**
 How far concurrent calls can overshoot a cap of the budget gate, which checks and later tracks
 without reserving. One counter is followed: a session's or an agent's day, tokens or dollars.

 Token caps are checked with the call's projection added, dollar caps without (`projected`).
 */
module SoftCeiling {
  import opened CostModule
  import opened Sequences

  /** The counter, and for each call between its check and its track the most it will track. */
  datatype State = State(total: real, inFlight: seq<real>)

  const START := State(0.0, [])

  datatype Step =
    | Check(cost: real)
    | Track(call: nat, amount: real)
    | Abandon(call: nat)
    | NewDay

  datatype Gate = Gate(cap: real, projected: bool) {
    /** The gate lets the call through. */
    predicate Admits(total: real, cost: real) {
      total + (if projected then cost else 0.0) <= cap
    }
  }

  predicate Enabled(s: State, step: Step) {
    match step
    case Check(cost) => 0.0 <= cost
    case Track(c, amount) => c < |s.inFlight| && 0.0 <= amount <= s.inFlight[c]
    case Abandon(c) => c < |s.inFlight|
    case NewDay => true
  }

  function Apply(gate: Gate, s: State, step: Step): State
    requires Enabled(s, step)
  {
    match step
    case Check(cost) => if gate.Admits(s.total, cost) then s.(inFlight := s.inFlight + [cost]) else s
    case Track(c, amount) => State(s.total + amount, Without(s.inFlight, c))
    case Abandon(c) => s.(inFlight := Without(s.inFlight, c))
    case NewDay => s.(total := 0.0)
  }

  predicate StepAt(gate: Gate, states: seq<State>, steps: seq<Step>, i: nat)
    requires i < |steps| && |states| == |steps| + 1
  {
    Enabled(states[i], steps[i]) && states[i + 1] == Apply(gate, states[i], steps[i])
  }

  predicate IsRun(gate: Gate, states: seq<State>, steps: seq<Step>) {
    && |states| == |steps| + 1 && states[0] == START
    && forall i | 0 <= i < |steps| :: StepAt(gate, states, steps, i)
  }

  /** Never more than `n` calls under way, none for more than `c`. */
  predicate AtMost(s: State, n: nat, c: real) {
    |s.inFlight| <= n && forall i | 0 <= i < |s.inFlight| :: 0.0 <= s.inFlight[i] <= c
  }

  function Sum(costs: seq<real>): real {
    if costs == [] then 0.0 else Sum(costs[..|costs| - 1]) + costs[|costs| - 1]
  }

  lemma {:induction false} SumWithout(costs: seq<real>, i: nat)
    requires i < |costs|
    ensures Sum(costs) == Sum(Without(costs, i)) + costs[i]
  {
    var n, after := |costs| - 1, Without(costs, i);
    if i < n {
      SumWithout(costs[..n], i);
      assert after[..n - 1] == Without(costs[..n], i);
    } else {
      assert after == costs[..n];
    }
  }

  function Times(m: nat, c: real): real {
    if m == 0 then 0.0 else Times(m - 1, c) + c
  }

  lemma {:induction false} TimesIsProduct(m: nat, c: real)
    ensures Times(m, c) == m as real * c
  {
    if m > 0 {
      TimesIsProduct(m - 1, c);
      var before := (m - 1) as real;
      assert m as real == before + 1.0;
      assert (before + 1.0) * c == before * c + c;
    }
  }

  lemma {:induction false} SumOfAtMost(costs: seq<real>, m: nat, c: real)
    requires |costs| <= m && 0.0 <= c && forall i | 0 <= i < |costs| :: 0.0 <= costs[i] <= c
    ensures 0.0 <= Sum(costs) <= Times(m, c)
  {
    if m > 0 {
      SumOfAtMost(if |costs| == 0 then costs else costs[..|costs| - 1], m - 1, c);
    }
  }

  /** How many calls' worth the counter can pass its cap by. */
  function Overshoot(gate: Gate, n: nat): nat
    requires n >= 1
  {
    if gate.projected then n - 1 else n
  }

  /** Even if every call under way tracks all it may, the counter stays within the bound. */
  predicate Inv(gate: Gate, n: nat, c: real, s: State)
    requires n >= 1
  {
    0.0 <= s.total && s.total + Sum(s.inFlight) <= gate.cap + Times(Overshoot(gate, n), c)
  }

  lemma CheckKeepsInv(gate: Gate, n: nat, c: real, s: State, cost: real)
    requires n >= 1 && 0.0 <= c && AtMost(s, n, c) && Inv(gate, n, c, s) && 0.0 <= cost
    requires AtMost(Apply(gate, s, Check(cost)), n, c)
    ensures Inv(gate, n, c, Apply(gate, s, Check(cost)))
  {
    if gate.Admits(s.total, cost) {
      var after := s.inFlight + [cost];
      assert after[..|s.inFlight|] == s.inFlight && after[|s.inFlight|] == cost;
      SumOfAtMost(if gate.projected then s.inFlight else after, Overshoot(gate, n), c);
    }
  }

  lemma StepKeepsInv(gate: Gate, n: nat, c: real, s: State, step: Step)
    requires n >= 1 && 0.0 <= c && 0.0 <= gate.cap && AtMost(s, n, c) && Inv(gate, n, c, s) && Enabled(s, step)
    requires AtMost(Apply(gate, s, step), n, c)
    ensures Inv(gate, n, c, Apply(gate, s, step))
  {
    match step
    case Check(cost) => CheckKeepsInv(gate, n, c, s, cost);
    case Track(i, _) => SumWithout(s.inFlight, i);
    case Abandon(i) => SumWithout(s.inFlight, i);
    case NewDay =>
  }

  lemma {:induction false} RunKeepsInv(gate: Gate, n: nat, c: real, states: seq<State>, steps: seq<Step>, i: nat)
    requires n >= 1 && 0.0 <= c && 0.0 <= gate.cap && IsRun(gate, states, steps) && i < |states|
    requires forall j | 0 <= j < |states| :: AtMost(states[j], n, c)
    ensures Inv(gate, n, c, states[i])
  {
    if i > 0 {
      RunKeepsInv(gate, n, c, states, steps, i - 1);
      assert StepAt(gate, states, steps, i - 1);
      assert AtMost(states[i - 1], n, c) && AtMost(states[i], n, c);
      StepKeepsInv(gate, n, c, states[i - 1], steps[i - 1]);
    } else {
      SumOfAtMost([], Overshoot(gate, n), c);
    }
  }

  /** In any run with at most `n` calls under way, each tracking at most `c`, the counter respects the bound. */
  lemma CeilingHolds(gate: Gate, n: nat, c: real, states: seq<State>, steps: seq<Step>, i: nat)
    requires n >= 1 && 0.0 <= c && 0.0 <= gate.cap && IsRun(gate, states, steps) && i < |states|
    requires forall j | 0 <= j < |states| :: AtMost(states[j], n, c)
    ensures states[i].total <= gate.cap + Overshoot(gate, n) as real * c
  {
    RunKeepsInv(gate, n, c, states, steps, i);
    assert AtMost(states[i], n, c);
    SumOfAtMost(states[i].inFlight, n, c);
    TimesIsProduct(Overshoot(gate, n), c);
  }

  /** One call at a time never takes a projected counter over its cap. */
  lemma OneAtATime(gate: Gate, c: real, states: seq<State>, steps: seq<Step>, i: nat)
    requires gate.projected && 0.0 <= c && 0.0 <= gate.cap && IsRun(gate, states, steps) && i < |states|
    requires forall j | 0 <= j < |states| :: AtMost(states[j], 1, c)
    ensures states[i].total <= gate.cap
  {
    CeilingHolds(gate, 1, c, states, steps, i);
  }

  // ---- the bound is reached -----------------------------------------------------------

  predicate Within(states: seq<State>, n: nat, c: real) {
    forall j | 0 <= j < |states| :: AtMost(states[j], n, c)
  }

  /** A run within the limits that ends with this state. */
  predicate Reaches(gate: Gate, n: nat, c: real, states: seq<State>, steps: seq<Step>, end: State) {
    IsRun(gate, states, steps) && Within(states, n, c) && states[|steps|] == end
  }

  lemma NoSteps(gate: Gate, n: nat, c: real) returns (states: seq<State>, steps: seq<Step>)
    ensures Reaches(gate, n, c, states, steps, START)
  {
    states, steps := [START], [];
  }

  lemma Extend(gate: Gate, n: nat, c: real, states: seq<State>, steps: seq<Step>, end: State, step: Step)
    returns (states': seq<State>, steps': seq<Step>)
    requires Reaches(gate, n, c, states, steps, end) && Enabled(end, step) && AtMost(Apply(gate, end, step), n, c)
    ensures Reaches(gate, n, c, states', steps', Apply(gate, end, step))
  {
    hide Apply;
    states', steps' := states + [Apply(gate, end, step)], steps + [step];
    forall i | 0 <= i < |steps'| ensures StepAt(gate, states', steps', i) {
      assert i < |steps| ==> StepAt(gate, states, steps, i);
    }
    forall j | 0 <= j < |states'| ensures AtMost(states'[j], n, c) {
      assert j < |states| ==> AtMost(states[j], n, c);
    }
  }

  /** One call checked and tracked, with nothing else under way. */
  lemma OneCall(gate: Gate, n: nat, c: real, states: seq<State>, steps: seq<Step>, total: real, cost: real)
    returns (states': seq<State>, steps': seq<Step>)
    requires n >= 1 && 0.0 <= cost <= c && gate.Admits(total, cost)
    requires Reaches(gate, n, c, states, steps, State(total, []))
    ensures Reaches(gate, n, c, states', steps', State(total + cost, []))
  {
    states', steps' := Extend(gate, n, c, states, steps, State(total, []), Check(cost));
    assert [] + [cost] == [cost] && Without([cost], 0) == [];
    states', steps' := Extend(gate, n, c, states', steps', State(total, [cost]), Track(0, cost));
  }

  /** Calls of at most `c` each, one at a time, can bring the counter to any level the gate still admits. */
  lemma {:induction false} Fill(gate: Gate, n: nat, c: real, level: real, k: nat)
    returns (states: seq<State>, steps: seq<Step>)
    requires n >= 1 && 0.0 <= c && 0.0 <= level <= Times(k, c) && level <= gate.cap
    ensures Reaches(gate, n, c, states, steps, State(level, []))
    decreases k
  {
    if k == 0 {
      states, steps := NoSteps(gate, n, c);
    } else {
      var before := if level <= c then 0.0 else level - c;
      SumOfAtMost([], k - 1, c);
      states, steps := Fill(gate, n, c, before, k - 1);
      states, steps := OneCall(gate, n, c, states, steps, before, level - before);
    }
  }

  function Copies(k: nat, c: real): seq<real> {
    seq(k, _ => c)
  }

  /** From there, calls of `c` each all pass the gate before any of them tracks. */
  lemma {:induction false} CheckAll(gate: Gate, n: nat, c: real, level: real, states: seq<State>, steps: seq<Step>, k: nat)
    returns (states': seq<State>, steps': seq<Step>)
    requires k <= n && 0.0 <= c && gate.Admits(level, c) && Reaches(gate, n, c, states, steps, State(level, []))
    ensures Reaches(gate, n, c, states', steps', State(level, Copies(k, c)))
  {
    states', steps' := states, steps;
    assert Copies(0, c) == [];
    if k > 0 {
      states', steps' := CheckAll(gate, n, c, level, states, steps, k - 1);
      assert Copies(k, c) == Copies(k - 1, c) + [c];
      states', steps' := Extend(gate, n, c, states', steps', State(level, Copies(k - 1, c)), Check(c));
    }
  }

  /** Then they all track. */
  lemma {:induction false} TrackAll(gate: Gate, n: nat, c: real, level: real, states: seq<State>, steps: seq<Step>, k: nat)
    returns (states': seq<State>, steps': seq<Step>)
    requires k <= n && 0.0 <= c && Reaches(gate, n, c, states, steps, State(level, Copies(k, c)))
    ensures Reaches(gate, n, c, states', steps', State(level + Times(k, c), []))
    decreases k
  {
    states', steps' := states, steps;
    assert Copies(0, c) == [];
    if k > 0 {
      assert Without(Copies(k, c), 0) == Copies(k - 1, c);
      states', steps' := Extend(gate, n, c, states, steps, State(level, Copies(k, c)), Track(0, c));
      states', steps' := TrackAll(gate, n, c, level + c, states', steps', k - 1);
    }
  }

  /** Enough calls of `c` exceed any level. */
  lemma Enough(level: real, c: real) returns (k: nat)
    requires 0.0 < c && 0.0 <= level
    ensures level <= Times(k, c)
  {
    var q := level / c;
    assert q * c == level && 0.0 <= q;
    k := q.Floor + 1;
    TimesIsProduct(k, c);
    var rest := k as real - q;
    assert 0.0 <= rest * c;
    assert rest * c == k as real * c - q * c;
  }

  /** The bound is met with equality, for every cap a call of `c` fits under. */
  lemma BoundIsReached(gate: Gate, n: nat, c: real) returns (states: seq<State>, steps: seq<Step>)
    requires n >= 1 && 0.0 < c && 0.0 <= gate.cap && (gate.projected ==> c <= gate.cap)
    ensures IsRun(gate, states, steps) && Within(states, n, c)
    ensures states[|steps|].total == gate.cap + Overshoot(gate, n) as real * c
  {
    var level := if gate.projected then gate.cap - c else gate.cap;
    var k := Enough(level, c);
    states, steps := Fill(gate, n, c, level, k);
    states, steps := CheckAll(gate, n, c, level, states, steps, n);
    states, steps := TrackAll(gate, n, c, level, states, steps, n);
    TimesIsProduct(Overshoot(gate, n), c);
    assert level + Times(n, c) == gate.cap + Times(Overshoot(gate, n), c);
  }

  /** No run within the limits takes the counter past the bound. */
  ghost predicate Bounds(gate: Gate, n: nat, c: real, bound: real) {
    forall states: seq<State>, steps: seq<Step>, i: nat | IsRun(gate, states, steps) && Within(states, n, c) && i < |states| ::
      states[i].total <= bound
  }

  /** The documented bound, one call less than are under way, holds exactly for counters checked with a projection. */
  lemma DocumentedBoundIff(gate: Gate, n: nat, c: real)
    requires n >= 1 && 0.0 <= c && 0.0 <= gate.cap
    ensures Bounds(gate, n, c, gate.cap + (n - 1) as real * c) <==> gate.projected || c == 0.0
  {
    if gate.projected || c == 0.0 {
      forall states: seq<State>, steps: seq<Step>, i: nat | IsRun(gate, states, steps) && Within(states, n, c) && i < |states|
        ensures states[i].total <= gate.cap + (n - 1) as real * c
      {
        CeilingHolds(gate, n, c, states, steps, i);
      }
    } else {
      var states, steps := BoundIsReached(gate, n, c);
      assert n as real == (n - 1) as real + 1.0;
      assert n as real * c > (n - 1) as real * c;
      assert states[|steps|].total > gate.cap + (n - 1) as real * c;
    }
  }

  // ---- the gate of the cost module ----------------------------------------------------

  /** The module's four counter caps admit a call exactly as `Gate` does. */
  lemma ModuleGates(policy: Policy, r: Reading, cap: Cap)
    requires cap != PerSessionSeconds
    ensures var tokens := if r.projectedTokens.Some? then r.projectedTokens.value as real else 0.0;
      !IsOver(policy, r, cap) <==>
        match cap
        case PerSessionUsd =>
          policy.perSessionUsd.Some? ==> Gate(policy.perSessionUsd.value, false).Admits(r.session.usd, 0.0)
        case PerSessionTokens =>
          policy.perSessionTokens.Some? ==>
            Gate(policy.perSessionTokens.value as real, true).Admits(r.session.tokens as real, tokens)
        case PerAgentUsdDaily =>
          policy.perAgentUsdDaily.Some? ==> Gate(policy.perAgentUsdDaily.value, false).Admits(r.daily.usd, 0.0)
        case PerAgentTokensDaily =>
          policy.perAgentTokensDaily.Some? ==>
            Gate(policy.perAgentTokensDaily.value as real, true).Admits(r.daily.tokens as real, tokens)
        case PerSessionSeconds => true
  {
  }
}
