/**
 The budget alert under interleaving: any number of concurrent `track` calls for one agent, within one
 UTC day and one process, with a webhook URL, its secret and a daily dollar cap configured.

 A call reads the day's dollars, adds its own, reads them again, and marks the alert as sent if its two
 readings lie on both sides of the threshold. Between those steps other calls run.
 */
module BudgetAlert {
  import opened Wrappers

  /** The dedup key: agent, the one alerting cap, UTC day. */
  datatype Key = Key(agentId: string, capId: string, periodBucket: int)

  function AlertKey(agentId: string, day: int): Key {
    Key(agentId, "per_agent_usd_daily", day)
  }

  class AlertDedup {
    var fired: set<Key>

    constructor ()
      ensures fired == {}
    {
      fired := {};
    }

    /** True for the first caller of a key only. */
    method MarkIfUnfired(key: Key) returns (first: bool)
      modifies this
      ensures first <==> key !in old(fired)
      ensures fired == old(fired) + {key}
    {
      if key in fired {
        return false;
      }
      fired := fired + {key};
      return true;
    }
  }

  function Threshold(cap: real, pct: int): real {
    cap * (pct as real / 100.0)
  }

  /** The threshold is so many percent of the cap. */
  lemma ThresholdIsPercentage(cap: real, pct: int)
    ensures 100.0 * Threshold(cap, pct) == cap * pct as real
  {
  }

  predicate Crosses(pre: real, threshold: real, post: real) {
    pre < threshold <= post
  }

  // ---- concurrent track calls ---------------------------------------------------------

  datatype Call =
    | Entered(usd: real)
    | PreRead(usd: real, pre: Option<real>)
    | Added(pre: Option<real>)
    | PostRead(low: real, high: real)
    | Finished

  /** The day's dollars, whether the day's key is marked, sends attempted, and the calls. */
  datatype State = State(total: real, fired: bool, sends: nat, calls: seq<Call>)

  const START := State(0.0, false, 0, [])

  datatype Step =
    | Enter(usd: real)
    | ReadBefore(call: nat, fails: bool)
    | Add(call: nat, fails: bool)
    | ReadAfter(call: nat, fails: bool)
    | Mark(call: nat)

  predicate Enabled(s: State, step: Step) {
    match step
    case Enter(usd) => usd > 0.0
    case ReadBefore(c, _) => c < |s.calls| && s.calls[c].Entered?
    case Add(c, _) => c < |s.calls| && s.calls[c].PreRead?
    case ReadAfter(c, _) => c < |s.calls| && s.calls[c].Added?
    case Mark(c) => c < |s.calls| && s.calls[c].PostRead?
  }

  function Apply(threshold: real, s: State, step: Step): State
    requires Enabled(s, step)
  {
    match step
    case Enter(usd) => s.(calls := s.calls + [Entered(usd)])
    case ReadBefore(c, fails) =>
      s.(calls := s.calls[c := PreRead(s.calls[c].usd, if fails then None else Some(s.total))])
    case Add(c, fails) =>
      if fails then s.(calls := s.calls[c := Finished])
      else s.(total := s.total + s.calls[c].usd, calls := s.calls[c := Added(s.calls[c].pre)])
    case ReadAfter(c, fails) =>
      if fails || s.calls[c].pre == None then s.(calls := s.calls[c := Finished])
      else s.(calls := s.calls[c := PostRead(s.calls[c].pre.value, s.total)])
    case Mark(c) =>
      var sends := Crosses(s.calls[c].low, threshold, s.calls[c].high) && !s.fired;
      s.(fired := s.fired || sends, sends := if sends then s.sends + 1 else s.sends, calls := s.calls[c := Finished])
  }

  predicate StepAt(threshold: real, states: seq<State>, steps: seq<Step>, i: nat)
    requires i < |steps| && |states| == |steps| + 1
  {
    Enabled(states[i], steps[i]) && states[i + 1] == Apply(threshold, states[i], steps[i])
  }

  predicate IsRun(threshold: real, states: seq<State>, steps: seq<Step>) {
    && |states| == |steps| + 1 && states[0] == START
    && forall i | 0 <= i < |steps| :: StepAt(threshold, states, steps, i)
  }

  /** The usage reads work; the store's own add may fail. */
  predicate ReadsWork(steps: seq<Step>) {
    forall i | 0 <= i < |steps| :: (steps[i].ReadBefore? || steps[i].ReadAfter?) ==> !steps[i].fails
  }

  /** A call whose readings lie, or will lie, on both sides of the threshold. */
  predicate WillCross(threshold: real, call: Call) {
    match call
    case Added(pre) => pre.Some? && pre.value < threshold
    case PostRead(low, high) => Crosses(low, threshold, high)
    case _ => false
  }

  /** Every reading a call holds is of an earlier, hence smaller, total; with working reads it holds one. */
  predicate ReadingsAreOld(s: State, call: Call) {
    match call
    case Entered(usd) => usd > 0.0
    case PreRead(usd, pre) => usd > 0.0 && pre.Some? && 0.0 <= pre.value <= s.total
    case Added(pre) => pre.Some? && 0.0 <= pre.value
    case PostRead(low, high) => 0.0 <= low && high <= s.total
    case Finished => true
  }

  predicate SomeCallWillCross(threshold: real, s: State) {
    exists c | 0 <= c < |s.calls| :: WillCross(threshold, s.calls[c])
  }

  predicate SentAtMostOnce(s: State) {
    s.sends == if s.fired then 1 else 0
  }

  predicate Inv(threshold: real, s: State) {
    && 0.0 <= s.total && SentAtMostOnce(s)
    && (forall c | 0 <= c < |s.calls| :: ReadingsAreOld(s, s.calls[c]))
    && (s.fired ==> 0.0 < threshold <= s.total)
    && (0.0 < threshold <= s.total ==> s.fired || SomeCallWillCross(threshold, s))
  }

  lemma {:induction false} AtMostOneSend(threshold: real, states: seq<State>, steps: seq<Step>, n: nat)
    requires IsRun(threshold, states, steps) && n < |states|
    ensures SentAtMostOnce(states[n])
  {
    if n > 0 {
      AtMostOneSend(threshold, states, steps, n - 1);
      assert StepAt(threshold, states, steps, n - 1);
    }
  }

  lemma StepKeepsReadings(threshold: real, s: State, step: Step)
    requires Inv(threshold, s) && Enabled(s, step) && ReadsWork([step])
    ensures var after := Apply(threshold, s, step);
      s.total <= after.total && forall c | 0 <= c < |after.calls| :: ReadingsAreOld(after, after.calls[c])
  {
    assert [step][0] == step;
    var after := Apply(threshold, s, step);
    forall c | 0 <= c < |after.calls| ensures ReadingsAreOld(after, after.calls[c]) {
      assert c < |s.calls| ==> ReadingsAreOld(s, s.calls[c]);
    }
  }

  /** The call that takes the total over the threshold read it from below. */
  lemma StepKeepsCrossing(threshold: real, s: State, step: Step)
    requires Inv(threshold, s) && Enabled(s, step) && ReadsWork([step])
    requires 0.0 < threshold <= Apply(threshold, s, step).total
    ensures var after := Apply(threshold, s, step); after.fired || SomeCallWillCross(threshold, after)
  {
    assert [step][0] == step;
    var after := Apply(threshold, s, step);
    if s.total < threshold {
      var c := step.call;
      assert ReadingsAreOld(s, s.calls[c]);
      assert WillCross(threshold, after.calls[c]);
    } else if !s.fired {
      var c :| 0 <= c < |s.calls| && WillCross(threshold, s.calls[c]);
      assert after.fired || WillCross(threshold, after.calls[c]);
    }
  }

  lemma StepKeepsInv(threshold: real, s: State, step: Step)
    requires Inv(threshold, s) && Enabled(s, step) && ReadsWork([step])
    ensures Inv(threshold, Apply(threshold, s, step))
  {
    var after := Apply(threshold, s, step);
    StepKeepsReadings(threshold, s, step);
    if 0.0 < threshold <= after.total {
      StepKeepsCrossing(threshold, s, step);
    }
    if step.Mark? {
      assert ReadingsAreOld(s, s.calls[step.call]);
    }
  }

  lemma {:induction false} RunKeepsInv(threshold: real, states: seq<State>, steps: seq<Step>, n: nat)
    requires IsRun(threshold, states, steps) && ReadsWork(steps) && n < |states|
    ensures Inv(threshold, states[n])
  {
    if n > 0 {
      RunKeepsInv(threshold, states, steps, n - 1);
      assert StepAt(threshold, states, steps, n - 1);
      assert [steps[n - 1]][0] == steps[n - 1];
      StepKeepsInv(threshold, states[n - 1], steps[n - 1]);
    }
  }

  /** Once all calls have finished, exactly one alert was sent if the day reached the threshold, else none. */
  lemma ExactlyOnce(threshold: real, states: seq<State>, steps: seq<Step>)
    requires IsRun(threshold, states, steps) && ReadsWork(steps)
    requires forall c | 0 <= c < |states[|steps|].calls| :: states[|steps|].calls[c].Finished?
    ensures states[|steps|].sends == if 0.0 < threshold <= states[|steps|].total then 1 else 0
  {
    RunKeepsInv(threshold, states, steps, |steps|);
  }

  // ---- when reads fail ----------------------------------------------------------------

  /** Call `c` read the day below the threshold before its add and at or above it after, both without failing. */
  predicate Straddles(threshold: real, states: seq<State>, steps: seq<Step>, c: nat, i: nat, j: nat)
    requires |states| == |steps| + 1
  {
    && i < j < |steps| && steps[i] == ReadBefore(c, false) && steps[j] == ReadAfter(c, false)
    && states[i].total < threshold <= states[j].total
  }

  ghost predicate SawBefore(states: seq<State>, steps: seq<Step>, n: nat, c: nat, v: real)
    requires |states| == |steps| + 1 && n <= |steps|
  {
    exists i | 0 <= i < n :: steps[i] == ReadBefore(c, false) && states[i].total == v
  }

  ghost predicate SawBoth(states: seq<State>, steps: seq<Step>, n: nat, c: nat, v: real, w: real)
    requires |states| == |steps| + 1 && n <= |steps|
  {
    exists j | 0 <= j < n :: steps[j] == ReadAfter(c, false) && states[j].total == w && SawBefore(states, steps, j, c, v)
  }

  /** What a call holds is what it read. */
  ghost predicate HoldsWhatItRead(states: seq<State>, steps: seq<Step>, n: nat, c: nat)
    requires |states| == |steps| + 1 && n <= |steps|
  {
    c < |states[n].calls| ==>
      match states[n].calls[c]
      case PreRead(_, pre) => pre.Some? ==> SawBefore(states, steps, n, c, pre.value)
      case Added(pre) => pre.Some? ==> SawBefore(states, steps, n, c, pre.value)
      case PostRead(low, high) => SawBoth(states, steps, n, c, low, high)
      case _ => true
  }

  lemma {:induction false} ReadingsAreReads(threshold: real, states: seq<State>, steps: seq<Step>, n: nat, c: nat)
    requires IsRun(threshold, states, steps) && n < |states|
    ensures HoldsWhatItRead(states, steps, n, c)
  {
    if n > 0 {
      ReadingsAreReads(threshold, states, steps, n - 1, c);
      assert StepAt(threshold, states, steps, n - 1);
    }
  }

  /** The alert was sent only if some call straddled. */
  lemma {:induction false} SentOnlyIf(threshold: real, states: seq<State>, steps: seq<Step>, n: nat)
    requires IsRun(threshold, states, steps) && n < |states| && states[n].fired
    ensures exists c, i, j :: Straddles(threshold, states, steps, c, i, j)
  {
    if n > 0 {
      assert StepAt(threshold, states, steps, n - 1);
      if states[n - 1].fired {
        SentOnlyIf(threshold, states, steps, n - 1);
      } else {
        var c := steps[n - 1].call;
        ReadingsAreReads(threshold, states, steps, n - 1, c);
        var call := states[n - 1].calls[c];
        var j: nat :| j < n - 1 && steps[j] == ReadAfter(c, false) && states[j].total == call.high
                      && SawBefore(states, steps, j, c, call.low);
        var i: nat :| i < j && steps[i] == ReadBefore(c, false) && states[i].total == call.low;
        assert Straddles(threshold, states, steps, c, i, j);
      }
    }
  }

  /** After its first reading a call carries it along. */
  predicate Carries(call: Call, v: real) {
    match call
    case PreRead(_, pre) => pre == Some(v)
    case Added(pre) => pre == Some(v)
    case PostRead(low, _) => low == v
    case Finished => true
    case Entered(_) => false
  }

  lemma {:induction false} CarriesItsReading(threshold: real, states: seq<State>, steps: seq<Step>, c: nat, i: nat, n: nat)
    requires IsRun(threshold, states, steps) && i < n < |states| && steps[i] == ReadBefore(c, false)
    ensures c < |states[n].calls| && Carries(states[n].calls[c], states[i].total)
    decreases n
  {
    assert StepAt(threshold, states, steps, n - 1);
    if n > i + 1 {
      CarriesItsReading(threshold, states, steps, c, i, n - 1);
    }
  }

  /** A straddling call fires the alert, if nobody did before, by the time it has finished. */
  lemma {:induction false} FiredOrMarking(threshold: real, states: seq<State>, steps: seq<Step>, c: nat, i: nat, j: nat, n: nat)
    requires IsRun(threshold, states, steps) && Straddles(threshold, states, steps, c, i, j) && j < n < |states|
    ensures c < |states[n].calls|
    ensures states[n].fired || states[n].calls[c] == PostRead(states[i].total, states[j].total)
    decreases n
  {
    assert StepAt(threshold, states, steps, n - 1);
    if n > j + 1 {
      FiredOrMarking(threshold, states, steps, c, i, j, n - 1);
    } else {
      CarriesItsReading(threshold, states, steps, c, i, j);
    }
  }

  /** Whatever reads and adds fail: once all calls have finished, one alert was sent if some call straddled, else none. */
  lemma SentIff(threshold: real, states: seq<State>, steps: seq<Step>)
    requires IsRun(threshold, states, steps)
    requires forall c | 0 <= c < |states[|steps|].calls| :: states[|steps|].calls[c].Finished?
    ensures states[|steps|].sends ==
      if exists c, i, j :: Straddles(threshold, states, steps, c, i, j) then 1 else 0
  {
    AtMostOneSend(threshold, states, steps, |steps|);
    if states[|steps|].fired {
      SentOnlyIf(threshold, states, steps, |steps|);
    }
    forall c, i, j | Straddles(threshold, states, steps, c, i, j) ensures states[|steps|].fired {
      FiredOrMarking(threshold, states, steps, c, i, j, |steps|);
    }
  }

  // ---- an alert lost for good ---------------------------------------------------------

  /** The call can no longer cross: it holds no reading, or one at or above the threshold. */
  predicate CannotCross(threshold: real, call: Call) {
    match call
    case Entered(usd) => usd > 0.0
    case PreRead(usd, pre) => usd > 0.0 && (pre == None || threshold <= pre.value)
    case Added(pre) => pre == None || threshold <= pre.value
    case PostRead(low, _) => threshold <= low
    case Finished => true
  }

  /** The day is at the threshold, unsent, and no call under way read it from below. */
  predicate IsSilenced(threshold: real, s: State) {
    threshold <= s.total && !s.fired && forall c | 0 <= c < |s.calls| :: CannotCross(threshold, s.calls[c])
  }

  lemma StepKeepsSilence(threshold: real, s: State, step: Step)
    requires IsSilenced(threshold, s) && Enabled(s, step)
    ensures IsSilenced(threshold, Apply(threshold, s, step)) && Apply(threshold, s, step).sends == s.sends
  {
    var after := Apply(threshold, s, step);
    if !step.Enter? {
      assert CannotCross(threshold, s.calls[step.call]);
    }
    forall c | 0 <= c < |after.calls| ensures CannotCross(threshold, after.calls[c]) {
      assert c < |s.calls| ==> CannotCross(threshold, s.calls[c]);
    }
  }

  /** From then on nothing is sent that day, whatever calls follow and whatever works. */
  lemma {:induction false} SilencedForGood(threshold: real, states: seq<State>, steps: seq<Step>, i: nat, n: nat)
    requires IsRun(threshold, states, steps) && i <= n < |states| && IsSilenced(threshold, states[i])
    ensures IsSilenced(threshold, states[n]) && states[n].sends == states[i].sends
    decreases n
  {
    if i < n {
      SilencedForGood(threshold, states, steps, i, n - 1);
      assert StepAt(threshold, states, steps, n - 1);
      StepKeepsSilence(threshold, states[n - 1], steps[n - 1]);
    }
  }

  /** One failed read can get there: the crossing call never compares. */
  lemma FailedReadLosesTheAlert(threshold: real)
    requires threshold > 0.0
    ensures exists states, steps ::
      IsRun(threshold, states, steps) && IsSilenced(threshold, states[|steps|]) && NothingSent(states[|steps|])
  {
    var steps := [Enter(threshold), ReadBefore(0, true), Add(0, false), ReadAfter(0, false)];
    var states := [START, State(0.0, false, 0, [Entered(threshold)]), State(0.0, false, 0, [PreRead(threshold, None)]),
                   State(threshold, false, 0, [Added(None)]), State(threshold, false, 0, [Finished])];
    assert StepAt(threshold, states, steps, 0) && StepAt(threshold, states, steps, 1);
    assert StepAt(threshold, states, steps, 2) && StepAt(threshold, states, steps, 3);
    assert IsRun(threshold, states, steps) && IsSilenced(threshold, states[|steps|]) && NothingSent(states[|steps|]);
  }

  predicate NothingSent(s: State) {
    s.sends == 0
  }
}
