/**
 `LoopModule` without a database: per session, the recent tool calls, pruned to the agent's window
 each time one is recorded. Nothing is assumed of the clock, nor of how policies are replaced.
 */
module LoopDetector {
  import opened Wrappers
  import opened Records

  const CLEANUP_THRESHOLD_SECONDS := 86400
  const MAX_TOOL_NAME_LEN := 256

  /** `LoopPolicy` and its field bounds. */
  datatype Policy = Policy(windowSeconds: int, maxCalls: int, raises: bool) {
    predicate InBounds() {
      1 <= windowSeconds <= 3600 && 2 <= maxCalls <= 1000
    }
  }

  datatype Call = Call(tool: string, at: Timestamp)

  type Key = (string, Uuid)

  datatype Outcome = Ignored | Clear | Detected(tool: string, count: nat, raises: bool)

  // ---- counting -----------------------------------------------------------------------

  /** The calls at or after `cutoff`. */
  function Since(calls: seq<Call>, cutoff: Timestamp): seq<Call> {
    if calls == [] then []
    else
      var before, call := Since(calls[..|calls| - 1], cutoff), calls[|calls| - 1];
      if call.at >= cutoff then before + [call] else before
  }

  /** The calls before `cutoff`. */
  function Before(calls: seq<Call>, cutoff: Timestamp): seq<Call> {
    if calls == [] then []
    else
      var before, call := Before(calls[..|calls| - 1], cutoff), calls[|calls| - 1];
      if call.at < cutoff then before + [call] else before
  }

  function CountTool(calls: seq<Call>, tool: string): nat {
    if calls == [] then 0
    else CountTool(calls[..|calls| - 1], tool) + (if calls[|calls| - 1].tool == tool then 1 else 0)
  }

  /** One if the call is one of the tool at or after `cutoff`. */
  function Hit(call: Call, tool: string, cutoff: Timestamp): nat {
    if call.tool == tool && call.at >= cutoff then 1 else 0
  }

  /** How often a tool was called at or after `cutoff`. */
  function CallsInWindow(calls: seq<Call>, tool: string, cutoff: Timestamp): nat {
    if calls == [] then 0
    else CallsInWindow(calls[..|calls| - 1], tool, cutoff) + Hit(calls[|calls| - 1], tool, cutoff)
  }

  /** The positions of the tool's calls at or after `cutoff`. */
  function Positions(calls: seq<Call>, tool: string, cutoff: Timestamp): set<nat> {
    set i: nat | i < |calls| && calls[i].tool == tool && calls[i].at >= cutoff
  }

  lemma {:induction false} CallsInWindowCounts(calls: seq<Call>, tool: string, cutoff: Timestamp)
    ensures CallsInWindow(calls, tool, cutoff) == |Positions(calls, tool, cutoff)|
  {
    if calls != [] {
      var n := |calls| - 1;
      CallsInWindowCounts(calls[..n], tool, cutoff);
      assert Positions(calls, tool, cutoff) ==
        Positions(calls[..n], tool, cutoff) + (if calls[n].tool == tool && calls[n].at >= cutoff then {n} else {});
    }
  }

  lemma CountAppend(calls: seq<Call>, call: Call, tool: string, cutoff: Timestamp)
    ensures CallsInWindow(calls + [call], tool, cutoff) == CallsInWindow(calls, tool, cutoff) + Hit(call, tool, cutoff)
  {
    assert (calls + [call])[..|calls|] == calls;
  }

  lemma {:induction false} CountConcat(a: seq<Call>, b: seq<Call>, tool: string, cutoff: Timestamp)
    ensures CallsInWindow(a + b, tool, cutoff) == CallsInWindow(a, tool, cutoff) + CallsInWindow(b, tool, cutoff)
  {
    if b == [] {
      assert a + b == a;
    } else {
      CountConcat(a, b[..|b| - 1], tool, cutoff);
      assert (a + b)[..|a + b| - 1] == a + b[..|b| - 1];
    }
  }

  /** Cutting a list at one point splits every count of it. */
  lemma {:induction false} CutSplitsCounts(calls: seq<Call>, at: Timestamp, tool: string, cutoff: Timestamp)
    ensures CallsInWindow(calls, tool, cutoff) ==
      CallsInWindow(Since(calls, at), tool, cutoff) + CallsInWindow(Before(calls, at), tool, cutoff)
  {
    if calls != [] {
      var init, last := calls[..|calls| - 1], calls[|calls| - 1];
      CutSplitsCounts(init, at, tool, cutoff);
      CountAppend(Since(init, at), last, tool, cutoff);
      CountAppend(Before(init, at), last, tool, cutoff);
    }
  }

  /** Where every call is in the window, counting the tool is counting the window. */
  lemma {:induction false} CountIsWindow(calls: seq<Call>, tool: string, cutoff: Timestamp)
    requires forall i | 0 <= i < |calls| :: calls[i].at >= cutoff
    ensures CountTool(calls, tool) == CallsInWindow(calls, tool, cutoff)
  {
    if calls != [] {
      CountIsWindow(calls[..|calls| - 1], tool, cutoff);
    }
  }

  lemma {:induction false} NoneInWindow(calls: seq<Call>, tool: string, cutoff: Timestamp)
    requires AllBefore(calls, cutoff)
    ensures CallsInWindow(calls, tool, cutoff) == 0
  {
    if calls != [] {
      NoneInWindow(calls[..|calls| - 1], tool, cutoff);
    }
  }

  lemma {:induction false} BeforeIsBefore(calls: seq<Call>, cutoff: Timestamp)
    ensures AllBefore(Before(calls, cutoff), cutoff)
  {
    if calls != [] {
      BeforeIsBefore(calls[..|calls| - 1], cutoff);
    }
  }

  lemma {:induction false} SinceIsSince(calls: seq<Call>, cutoff: Timestamp)
    ensures forall i | 0 <= i < |Since(calls, cutoff)| :: Since(calls, cutoff)[i].at >= cutoff
  {
    if calls != [] {
      SinceIsSince(calls[..|calls| - 1], cutoff);
    }
  }

  // ---- a session's history ------------------------------------------------------------

  /** A recorded call with the window start it pruned at, or a cleanup that dropped the session. */
  datatype Event = Called(call: Call, cutoff: Timestamp) | CleanedUp(cutoff: Timestamp)

  /** Every call ever recorded. */
  function AllCalls(events: seq<Event>): seq<Call> {
    if events == [] then []
    else
      var before, event := AllCalls(events[..|events| - 1]), events[|events| - 1];
      if event.Called? then before + [event.call] else before
  }

  /** What pruning and cleanup leave. */
  function Survivors(events: seq<Event>): seq<Call> {
    if events == [] then []
    else
      match events[|events| - 1]
      case Called(call, cutoff) => Since(Survivors(events[..|events| - 1]), cutoff) + [call]
      case CleanedUp(_) => []
  }

  /** What they take. */
  function Pruned(events: seq<Event>): seq<Call> {
    if events == [] then []
    else
      var init := events[..|events| - 1];
      match events[|events| - 1]
      case Called(_, cutoff) => Pruned(init) + Before(Survivors(init), cutoff)
      case CleanedUp(_) => Pruned(init) + Survivors(init)
  }

  /** Every call is either kept or pruned, and counts once. */
  lemma {:induction false} KeptOrPruned(events: seq<Event>, tool: string, cutoff: Timestamp)
    ensures CallsInWindow(AllCalls(events), tool, cutoff) ==
      CallsInWindow(Survivors(events), tool, cutoff) + CallsInWindow(Pruned(events), tool, cutoff)
  {
    if events != [] {
      var init, event := events[..|events| - 1], events[|events| - 1];
      KeptOrPruned(init, tool, cutoff);
      match event
      case Called(call, at) =>
        CutSplitsCounts(Survivors(init), at, tool, cutoff);
        CountAppend(AllCalls(init), call, tool, cutoff);
        CountAppend(Since(Survivors(init), at), call, tool, cutoff);
        CountConcat(Pruned(init), Before(Survivors(init), at), tool, cutoff);
      case CleanedUp(_) => CountConcat(Pruned(init), Survivors(init), tool, cutoff);
    }
  }

  /** How many calls of a tool in a window the detector no longer knows of. */
  function Missed(events: seq<Event>, tool: string, cutoff: Timestamp): nat {
    CallsInWindow(Pruned(events), tool, cutoff)
  }

  /** The tool's calls in the window are all still known. */
  predicate IsExactFor(events: seq<Event>, tool: string, cutoff: Timestamp) {
    CallsInWindow(Survivors(events), tool, cutoff) == CallsInWindow(AllCalls(events), tool, cutoff)
  }

  lemma ExactIffNoneMissed(events: seq<Event>, tool: string, cutoff: Timestamp)
    ensures IsExactFor(events, tool, cutoff) <==> Missed(events, tool, cutoff) == 0
  {
    KeptOrPruned(events, tool, cutoff);
  }

  ghost predicate AllExact(events: seq<Event>, cutoff: Timestamp) {
    forall tool :: IsExactFor(events, tool, cutoff)
  }

  predicate AllBefore(calls: seq<Call>, cutoff: Timestamp) {
    forall i | 0 <= i < |calls| :: calls[i].at < cutoff
  }

  /** Every tool's count is exact exactly if no pruned call lies in the window. */
  lemma CountsAreExactIff(events: seq<Event>, cutoff: Timestamp)
    ensures AllExact(events, cutoff) <==> AllBefore(Pruned(events), cutoff)
  {
    var pruned := Pruned(events);
    if AllBefore(pruned, cutoff) {
      forall tool ensures IsExactFor(events, tool, cutoff) {
        NoneInWindow(pruned, tool, cutoff);
        ExactIffNoneMissed(events, tool, cutoff);
      }
    } else {
      var i :| 0 <= i < |pruned| && pruned[i].at >= cutoff;
      SomeInWindow(pruned, i, cutoff);
      ExactIffNoneMissed(events, pruned[i].tool, cutoff);
      assert !IsExactFor(events, pruned[i].tool, cutoff);
    }
  }

  lemma {:induction false} SomeInWindow(calls: seq<Call>, i: nat, cutoff: Timestamp)
    requires i < |calls| && calls[i].at >= cutoff
    ensures CallsInWindow(calls, calls[i].tool, cutoff) > 0
  {
    if i < |calls| - 1 {
      SomeInWindow(calls[..|calls| - 1], i, cutoff);
    }
  }

  /** No cutoff used so far is later than `cutoff`: so it is with a clock that never goes back and windows never widened. */
  predicate NoLaterCutoff(events: seq<Event>, cutoff: Timestamp) {
    forall i | 0 <= i < |events| :: events[i].cutoff <= cutoff
  }

  /** What a cleanup drops lies before its own cutoff. */
  predicate CleansOnlyOld(events: seq<Event>) {
    forall i | 0 <= i < |events| :: events[i].CleanedUp? ==>
      AllBefore(Survivors(events[..i]), events[i].cutoff)
  }

  /** Then no call in the window was pruned. */
  lemma {:induction false} NothingMissed(events: seq<Event>, cutoff: Timestamp)
    requires NoLaterCutoff(events, cutoff) && CleansOnlyOld(events)
    ensures AllBefore(Pruned(events), cutoff)
  {
    if events != [] {
      var init, event := events[..|events| - 1], events[|events| - 1];
      assert forall i | 0 <= i < |init| :: init[..i] == events[..i];
      NothingMissed(init, cutoff);
      BeforeIsBefore(Survivors(init), event.cutoff);
      if event.CleanedUp? {
        assert events[..|init|] == init;
      }
    }
  }

  lemma OneCall(call: Call, cutoff: Timestamp)
    ensures Survivors([Called(call, cutoff)]) == [call] && Pruned([Called(call, cutoff)]) == []
  {
    assert [Called(call, cutoff)][..0] == [];
    assert [] + [call] == [call];
  }

  /** A window widened from `narrow` to `wide`: a call pruned under the narrow one is missing from the count. */
  lemma WideningLosesCalls(tool: string, at: Timestamp, narrow: nat, wide: nat, now: Timestamp)
    requires at + narrow < now <= at + wide
    ensures Missed([Called(Call(tool, at), at - narrow), Called(Call(tool, now), now - narrow)], tool, now - wide) == 1
  {
    var first, second := Called(Call(tool, at), at - narrow), Called(Call(tool, now), now - narrow);
    OneCall(first.call, first.cutoff);
    assert [first, second][..1] == [first];
    hide Survivors;
    assert [first.call][..0] == [] && [] + [first.call] == [first.call];
    assert Before([first.call], now - narrow) == [first.call];
    assert Pruned([first, second]) == [] + [first.call];
    CountAppend([], first.call, tool, now - wide);
  }

  // ---- what is kept against the history -----------------------------------------------

  datatype Books = Books(policies: map<string, Policy>, kept: map<Key, seq<Call>>, events: map<Key, seq<Event>>)

  function CallsOf(m: map<Key, seq<Call>>, key: Key): seq<Call> {
    if key in m then m[key] else []
  }

  function EventsOf(m: map<Key, seq<Event>>, key: Key): seq<Event> {
    if key in m then m[key] else []
  }

  /** What is kept of a session is what its history leaves; and its last call is the last recorded. */
  predicate IsKept(b: Books, key: Key) {
    CallsOf(b.kept, key) == Survivors(EventsOf(b.events, key))
  }

  ghost predicate Faithful(b: Books) {
    && (forall agent | agent in b.policies :: b.policies[agent].InBounds())
    && forall key :: IsKept(b, key)
  }

  predicate IsStale(kept: map<Key, seq<Call>>, key: Key, cutoff: Timestamp) {
    key in kept && kept[key] != [] && kept[key][|kept[key]| - 1].at < cutoff
  }

  /** The opportunistic cleanup of all sessions but one. */
  function DropStale(kept: map<Key, seq<Call>>, key: Key, cutoff: Timestamp): map<Key, seq<Call>> {
    map k | k in kept && !(k != key && IsStale(kept, k, cutoff)) :: kept[k]
  }

  /** The books after one recorded call: its session pruned, other sessions a day out of date dropped. */
  function Recorded(b: Books, key: Key, call: Call): Books
    requires key.0 in b.policies
  {
    var cutoff, stale := call.at - b.policies[key.0].windowSeconds, call.at - CLEANUP_THRESHOLD_SECONDS;
    var kept := b.kept[key := Since(CallsOf(b.kept, key), cutoff) + [call]];
    var cleaned := map k | k in b.events :: if IsStale(b.kept, k, stale) then b.events[k] + [CleanedUp(stale)] else b.events[k];
    b.(kept := DropStale(kept, key, stale),
       events := cleaned[key := EventsOf(b.events, key) + [Called(call, cutoff)]])
  }

  lemma RecordingStaysFaithful(b: Books, key: Key, call: Call)
    requires Faithful(b) && key.0 in b.policies
    ensures Faithful(Recorded(b, key, call))
  {
    var after := Recorded(b, key, call);
    forall k ensures IsKept(after, k) {
      assert IsKept(b, k);
      OneSessionStaysKept(b, key, call, k);
    }
  }

  lemma OneSessionStaysKept(b: Books, key: Key, call: Call, k: Key)
    requires IsKept(b, k) && key.0 in b.policies
    ensures IsKept(Recorded(b, key, call), k)
  {
    if k == key {
      OwnSessionStaysKept(b, key, call);
    } else {
      OtherSessionStaysKept(b, key, call, k);
    }
  }

  lemma OwnSessionStaysKept(b: Books, key: Key, call: Call)
    requires IsKept(b, key) && key.0 in b.policies
    ensures IsKept(Recorded(b, key, call), key)
  {
    hide Since;
    hide IsStale;
    var events := EventsOf(b.events, key);
    assert (events + [Called(call, call.at - b.policies[key.0].windowSeconds)])[..|events|] == events;
  }

  lemma OtherSessionStaysKept(b: Books, key: Key, call: Call, k: Key)
    requires IsKept(b, k) && key.0 in b.policies && k != key
    ensures IsKept(Recorded(b, key, call), k)
  {
    hide Since;
    var events, stale := EventsOf(b.events, k), call.at - CLEANUP_THRESHOLD_SECONDS;
    if IsStale(b.kept, k, stale) {
      assert (events + [CleanedUp(stale)])[..|events|] == events;
    }
  }

  class LoopModule {
    /** Case folding of tool names. */
    const lower: string -> string
    var policies: map<string, Policy>
    var calls: map<Key, seq<Call>>
    ghost var events: map<Key, seq<Event>>

    ghost function State(): Books
      reads this
    {
      Books(policies, calls, events)
    }

    ghost predicate Valid()
      reads this
    {
      Faithful(State())
    }

    constructor (lower: string -> string)
      ensures Valid() && policies == map[] && events == map[]
    {
      this.lower := lower;
      policies, calls, events := map[], map[], map[];
    }

    method Register(agentId: string, policy: Policy)
      requires Valid() && policy.InBounds()
      modifies this`policies
      ensures Valid() && policies == old(policies)[agentId := policy]
    {
      ghost var before := State();
      policies := policies[agentId := policy];
      forall key ensures IsKept(State(), key) {
        assert IsKept(before, key);
      }
    }

    /**
     A call is flagged exactly if the whole history, less what was pruned though it lies in the window,
     holds more than `maxCalls` such calls.
     */
    method RecordCall(agentId: string, sessionId: Uuid, toolName: string, now: Timestamp) returns (r: Outcome)
      requires Valid()
      modifies this
      ensures Valid() && policies == old(policies)
      ensures
        if toolName == [] || |toolName| > MAX_TOOL_NAME_LEN || agentId !in policies
        then r == Ignored && State() == old(State())
        else
          var key, call, policy := (agentId, sessionId), Call(lower(toolName), now), policies[agentId];
          var count := Counted(EventsOf(events, key), call.tool, now - policy.windowSeconds);
          && State() == Recorded(old(State()), key, call)
          && (r.Detected? <==> count > policy.maxCalls)
          && (r.Detected? ==> r.tool == call.tool && r.count == count && r.raises == policy.raises)
          && (!r.Detected? ==> r == Clear)
    {
      hide Recorded;
      hide Faithful;
      hide Counted;
      if toolName == [] || |toolName| > MAX_TOOL_NAME_LEN || agentId !in policies {
        return Ignored;
      }
      r := RecordCallMemory((agentId, sessionId), Call(lower(toolName), now), policies[agentId]);
    }

    method RecordCallMemory(key: Key, call: Call, policy: Policy) returns (r: Outcome)
      requires Valid() && key.0 in policies && policy == policies[key.0]
      modifies this`calls, this`events
      ensures Valid() && State() == Recorded(old(State()), key, call)
      ensures var count := Counted(EventsOf(events, key), call.tool, call.at - policy.windowSeconds);
        r == if count > policy.maxCalls then Detected(call.tool, count, policy.raises) else Clear
    {
      hide Recorded;
      hide Faithful;
      hide Counted;
      hide CountTool;
      hide Survivors;
      PolicyInBounds(State(), key.0);
      ghost var before := EventsOf(events, key);
      var recent := RecordUnderLock(key, call);
      RecentCountsWindow(before, call, policy);
      var count := CountTool(recent, call.tool);
      return if count > policy.maxCalls then Detected(call.tool, count, policy.raises) else Clear;
    }

    /** The locked region: prune this session, add the call, and drop other sessions a day out of date. */
    method RecordUnderLock(key: Key, call: Call) returns (recent: seq<Call>)
      requires Valid() && key.0 in policies
      modifies this`calls, this`events
      ensures Valid() && State() == Recorded(old(State()), key, call)
      ensures key in events && recent == Survivors(events[key])
      ensures events[key] == EventsOf(old(events), key) + [Called(call, call.at - policies[key.0].windowSeconds)]
    {
      hide IsKept;
      hide DropStale;
      ghost var before := State();
      var cutoff, stale := call.at - policies[key.0].windowSeconds, call.at - CLEANUP_THRESHOLD_SECONDS;
      recent := Since(CallsOf(calls, key), cutoff) + [call];
      calls := calls[key := recent];
      calls := DropStale(calls, key, stale);
      ghost var after := Recorded(before, key, call);
      events := after.events;
      RecordingStaysFaithful(before, key, call);
      assert State() == after;
      RecentIsKept(before, key, call);
    }

    /** Read-only: names a tool over its limit, by what is kept of the history, if there is one. */
    method Check(agentId: string, sessionId: Uuid, now: Timestamp) returns (r: Outcome)
      requires Valid()
      ensures agentId !in policies ==> r == Ignored
      ensures agentId in policies ==> IsRightAnswer(r, policies[agentId], EventsOf(events, (agentId, sessionId)), now)
    {
      if agentId !in policies {
        return Ignored;
      }
      var key, policy := (agentId, sessionId), policies[agentId];
      ghost var history := EventsOf(events, key);
      assert IsKept(State(), key);
      PolicyInBounds(State(), agentId);
      var cutoff, kept := now - policy.windowSeconds, CallsOf(calls, key);
      var over := FirstOver(kept, cutoff, policy.maxCalls);
      CheckedIsRight(history, over, policy, now);
      r := if over.Some? then Detected(over.value.0, over.value.1, policy.raises) else Clear;
    }
  }

  /** The answer to `check`, by the calls of the history that are not missed. */
  ghost predicate IsRightAnswer(r: Outcome, policy: Policy, events: seq<Event>, now: Timestamp) {
    match r
    case Ignored => false
    case Clear => forall tool :: !IsOver(policy, events, tool, now)
    case Detected(tool, count, raises) =>
      && IsOver(policy, events, tool, now) && raises == policy.raises
      && count == Counted(events, tool, now - policy.windowSeconds)
  }

  ghost predicate IsFirstOver(over: Option<(string, nat)>, kept: seq<Call>, cutoff: Timestamp, maxCalls: int) {
    match over
    case Some((tool, count)) => count == CallsInWindow(kept, tool, cutoff) > maxCalls
    case None => forall tool :: CallsInWindow(kept, tool, cutoff) <= maxCalls
  }

  lemma CheckedIsRight(events: seq<Event>, over: Option<(string, nat)>, policy: Policy, now: Timestamp)
    requires IsFirstOver(over, Survivors(events), now - policy.windowSeconds, policy.maxCalls)
    ensures IsRightAnswer(if over.Some? then Detected(over.value.0, over.value.1, policy.raises) else Clear, policy, events, now)
  {
    hide CallsInWindow;
    hide Survivors;
    hide Counted;
    var cutoff := now - policy.windowSeconds;
    forall tool ensures Counted(events, tool, cutoff) == CallsInWindow(Survivors(events), tool, cutoff) {
      CountedIsKept(events, tool, cutoff);
    }
  }

  /** The loops of `check`: count each tool, then stop at the first over the limit. */
  method FirstOver(kept: seq<Call>, cutoff: Timestamp, maxCalls: int) returns (over: Option<(string, nat)>)
    requires maxCalls >= 0
    ensures IsFirstOver(over, kept, cutoff, maxCalls)
  {
    hide CallsInWindow;
    var counts := CountPerTool(kept, cutoff);
    var i := 0;
    while i < |kept|
      invariant 0 <= i <= |kept|
      invariant forall j | 0 <= j < i :: kept[j].at >= cutoff ==> counts[kept[j].tool] <= maxCalls
    {
      if kept[i].at >= cutoff && counts[kept[i].tool] > maxCalls {
        return Some((kept[i].tool, counts[kept[i].tool]));
      }
      i := i + 1;
    }
    forall tool ensures CallsInWindow(kept, tool, cutoff) <= maxCalls {
      if forall j | 0 <= j < |kept| :: kept[j].at >= cutoff ==> kept[j].tool != tool {
        OnlySeenTools(kept, tool, cutoff);
      }
    }
    return None;
  }

  /** The calls of the whole history in a window, less those pruned. */
  function Counted(events: seq<Event>, tool: string, cutoff: Timestamp): int {
    CallsInWindow(AllCalls(events), tool, cutoff) - Missed(events, tool, cutoff)
  }

  lemma CountedIsKept(events: seq<Event>, tool: string, cutoff: Timestamp)
    ensures Counted(events, tool, cutoff) == CallsInWindow(Survivors(events), tool, cutoff)
  {
    KeptOrPruned(events, tool, cutoff);
  }

  predicate IsOver(policy: Policy, events: seq<Event>, tool: string, now: Timestamp) {
    Counted(events, tool, now - policy.windowSeconds) > policy.maxCalls
  }

  lemma PolicyInBounds(b: Books, agent: string)
    requires Faithful(b) && agent in b.policies
    ensures b.policies[agent].InBounds()
  {
  }

  lemma RecentIsKept(b: Books, key: Key, call: Call)
    requires Faithful(b) && key.0 in b.policies
    ensures Since(CallsOf(b.kept, key), call.at - b.policies[key.0].windowSeconds) + [call] ==
      Survivors(Recorded(b, key, call).events[key])
  {
    assert IsKept(b, key);
    OneSessionStaysKept(b, key, call, key);
  }

  /** After recording a call, everything kept lies in its window, so counting it is counting the window. */
  lemma RecentCountsWindow(before: seq<Event>, call: Call, policy: Policy)
    requires policy.InBounds()
    ensures
      var cutoff := call.at - policy.windowSeconds;
      var after := before + [Called(call, cutoff)];
      CountTool(Survivors(after), call.tool) == Counted(after, call.tool, cutoff)
  {
    hide Survivors;
    hide CallsInWindow;
    hide CountTool;
    hide Counted;
    var cutoff := call.at - policy.windowSeconds;
    CountedIsKept(before + [Called(call, cutoff)], call.tool, cutoff);
    KeptLiesInWindow(before, call, cutoff);
    CountIsWindow(Survivors(before + [Called(call, cutoff)]), call.tool, cutoff);
  }

  lemma KeptLiesInWindow(before: seq<Event>, call: Call, cutoff: Timestamp)
    requires cutoff <= call.at
    ensures var kept := Survivors(before + [Called(call, cutoff)]); forall i | 0 <= i < |kept| :: kept[i].at >= cutoff
  {
    assert (before + [Called(call, cutoff)])[..|before|] == before;
    SinceIsSince(Survivors(before), cutoff);
  }

  // ---- when nothing is missed ---------------------------------------------------------

  predicate InClockOrder(calls: seq<Call>, clock: Timestamp) {
    && (forall i, j | 0 <= i < j < |calls| :: calls[i].at <= calls[j].at)
    && forall i | 0 <= i < |calls| :: calls[i].at <= clock
  }

  /** No call was recorded before a cutoff used up to then, its own included. */
  predicate CallsFollowCutoffs(events: seq<Event>) {
    forall i, j | 0 <= i <= j < |events| && events[j].Called? :: events[i].cutoff <= events[j].call.at
  }

  /** What a clock that never goes back keeps for a session, if no window used on it was narrower than `window`. */
  predicate SteadyEvents(events: seq<Event>, window: int, clock: Timestamp) {
    && NoLaterCutoff(events, clock - window) && CallsFollowCutoffs(events)
    && CleansOnlyOld(events) && InClockOrder(Survivors(events), clock)
  }

  /** The narrowest window to reckon with: the agent's own, unless windows may have been widened. */
  function Narrowest(b: Books, agent: string, widened: bool): int
    requires agent in b.policies
  {
    if widened then 0 else b.policies[agent].windowSeconds
  }

  predicate SessionIsSteady(b: Books, widened: bool, key: Key, clock: Timestamp) {
    key in b.events ==> key.0 in b.policies && SteadyEvents(b.events[key], Narrowest(b, key.0, widened), clock)
  }

  ghost predicate IsSteady(b: Books, widened: bool, clock: Timestamp) {
    forall key :: SessionIsSteady(b, widened, key, clock)
  }

  lemma SinceKeepsOrder(calls: seq<Call>, cutoff: Timestamp, clock: Timestamp)
    requires InClockOrder(calls, clock)
    ensures InClockOrder(Since(calls, cutoff), clock)
  {
    if calls != [] {
      SinceKeepsOrder(calls[..|calls| - 1], cutoff, calls[|calls| - 1].at);
    }
  }

  lemma CleansOnlyOldAppend(events: seq<Event>, event: Event)
    requires CleansOnlyOld(events)
    requires event.CleanedUp? ==> AllBefore(Survivors(events), event.cutoff)
    ensures CleansOnlyOld(events + [event])
  {
    var after := events + [event];
    assert after[..|events|] == events;
    forall i | 0 <= i < |events| ensures after[..i] == events[..i] {
    }
  }

  lemma CalledStaysSteady(events: seq<Event>, call: Call, window: int, narrowest: int, clock: Timestamp)
    requires SteadyEvents(events, narrowest, clock) && clock <= call.at && 0 <= narrowest <= window
    ensures SteadyEvents(events + [Called(call, call.at - window)], narrowest, call.at)
  {
    var called := Called(call, call.at - window);
    CleansOnlyOldAppend(events, called);
    CalledKeepsOrder(events, call, call.at - window, clock);
    hide CleansOnlyOld;
    hide Survivors;
    hide InClockOrder;
  }

  lemma CalledKeepsOrder(events: seq<Event>, call: Call, cutoff: Timestamp, clock: Timestamp)
    requires InClockOrder(Survivors(events), clock) && clock <= call.at
    ensures InClockOrder(Survivors(events + [Called(call, cutoff)]), call.at)
  {
    assert (events + [Called(call, cutoff)])[..|events|] == events;
    SinceKeepsOrder(Survivors(events), cutoff, call.at);
    hide Since;
  }

  lemma CleanedStaysSteady(events: seq<Event>, stale: Timestamp, window: int, clock: Timestamp, now: Timestamp)
    requires SteadyEvents(events, window, clock) && clock <= now && stale <= now - window
    requires Survivors(events) != [] && Survivors(events)[|Survivors(events)| - 1].at < stale
    ensures SteadyEvents(events + [CleanedUp(stale)], window, now)
  {
    CleansOnlyOldAppend(events, CleanedUp(stale));
    assert (events + [CleanedUp(stale)])[..|events|] == events;
  }

  /** What recording a call does to the history of each session. */
  lemma RecordedEvents(b: Books, key: Key, call: Call, k: Key)
    requires key.0 in b.policies && IsKept(b, k)
    ensures
      var events, stale := EventsOf(b.events, k), call.at - CLEANUP_THRESHOLD_SECONDS;
      var kept := Survivors(events);
      EventsOf(Recorded(b, key, call).events, k) ==
        if k == key then events + [Called(call, call.at - b.policies[key.0].windowSeconds)]
        else if k in b.kept && kept != [] && kept[|kept| - 1].at < stale && k in b.events then events + [CleanedUp(stale)]
        else events
    ensures k in Recorded(b, key, call).events <==> k == key || k in b.events
  {
    hide Survivors;
  }

  lemma OwnSessionStaysSteady(b: Books, widened: bool, key: Key, call: Call, clock: Timestamp)
    requires Faithful(b) && SessionIsSteady(b, widened, key, clock) && clock <= call.at && key.0 in b.policies
    ensures SessionIsSteady(Recorded(b, key, call), widened, key, call.at)
  {
    hide Recorded;
    hide SteadyEvents;
    hide Survivors;
    var events, window, narrowest := EventsOf(b.events, key), b.policies[key.0].windowSeconds, Narrowest(b, key.0, widened);
    assert 0 <= narrowest <= window by {
      PolicyInBounds(b, key.0);
    }
    hide Faithful;
    hide Narrowest;
    assert SteadyEvents(events, narrowest, clock) by {
      EmptyIsSteady(narrowest, clock);
    }
    hide EventsOf;
    CalledStaysSteady(events, call, window, narrowest, clock);
    OwnEvents(b, key, call);
    RecordedPolicies(b, key, call);
    SameNarrowest(b, Recorded(b, key, call), key.0, widened);
  }

  lemma SameNarrowest(b: Books, after: Books, agent: string, widened: bool)
    requires agent in b.policies && after.policies == b.policies
    ensures Narrowest(after, agent, widened) == Narrowest(b, agent, widened)
  {
  }

  lemma OwnEvents(b: Books, key: Key, call: Call)
    requires key.0 in b.policies
    ensures
      var after := Recorded(b, key, call);
      key in after.events
      && after.events[key] == EventsOf(b.events, key) + [Called(call, call.at - b.policies[key.0].windowSeconds)]
  {
  }

  lemma OtherSessionStaysSteady(b: Books, widened: bool, key: Key, call: Call, clock: Timestamp, k: Key)
    requires Faithful(b) && SessionIsSteady(b, widened, k, clock) && clock <= call.at && key.0 in b.policies
    requires k != key && k in b.events
    ensures SessionIsSteady(Recorded(b, key, call), widened, k, call.at)
  {
    assert IsKept(b, k);
    RecordedEvents(b, key, call, k);
    RecordedPolicies(b, key, call);
    PolicyInBounds(b, k.0);
    hide Recorded;
    hide SteadyEvents;
    hide Survivors;
    hide IsKept;
    var events, stale, narrowest := b.events[k], call.at - CLEANUP_THRESHOLD_SECONDS, Narrowest(b, k.0, widened);
    LaterIsSteady(events, narrowest, clock, call.at);
    if Survivors(events) != [] && Survivors(events)[|Survivors(events)| - 1].at < stale {
      CleanedStaysSteady(events, stale, narrowest, clock, call.at);
    }
  }

  lemma UnusedSessionIsSteady(b: Books, widened: bool, key: Key, call: Call, k: Key)
    requires key.0 in b.policies && k != key && k !in b.events
    ensures SessionIsSteady(Recorded(b, key, call), widened, k, call.at)
  {
  }

  lemma RecordedPolicies(b: Books, key: Key, call: Call)
    requires key.0 in b.policies
    ensures Recorded(b, key, call).policies == b.policies
  {
  }

  lemma EmptyIsSteady(window: int, clock: Timestamp)
    ensures SteadyEvents([], window, clock)
  {
  }

  lemma LaterIsSteady(events: seq<Event>, window: int, clock: Timestamp, now: Timestamp)
    requires SteadyEvents(events, window, clock) && clock <= now
    ensures SteadyEvents(events, window, now)
  {
  }

  /** On a clock that never goes back, recording keeps every session steady. */
  lemma RecordingStaysSteady(b: Books, widened: bool, key: Key, call: Call, clock: Timestamp)
    requires Faithful(b) && IsSteady(b, widened, clock) && clock <= call.at && key.0 in b.policies
    ensures IsSteady(Recorded(b, key, call), widened, call.at)
  {
    hide Recorded;
    hide SessionIsSteady;
    forall k ensures SessionIsSteady(Recorded(b, key, call), widened, k, call.at) {
      assert SessionIsSteady(b, widened, k, clock);
      if k == key {
        OwnSessionStaysSteady(b, widened, key, call, clock);
      } else if k in b.events {
        OtherSessionStaysSteady(b, widened, key, call, clock, k);
      } else {
        UnusedSessionIsSteady(b, widened, key, call, k);
      }
    }
  }

  /** So does registering a new agent, narrowing a window, or, where widening is reckoned with, any policy. */
  lemma RegisteringStaysSteady(b: Books, widened: bool, agent: string, policy: Policy, clock: Timestamp)
    requires IsSteady(b, widened, clock)
    requires widened || agent !in b.policies || policy.windowSeconds <= b.policies[agent].windowSeconds
    ensures IsSteady(b.(policies := b.policies[agent := policy]), widened, clock)
  {
    var after := b.(policies := b.policies[agent := policy]);
    forall key ensures SessionIsSteady(after, widened, key, clock) {
      assert SessionIsSteady(b, widened, key, clock);
    }
  }

  /** While no window is widened, every count, now or later, is over the whole unpruned history. */
  lemma SteadyCountsAreExact(b: Books, key: Key, tool: string, clock: Timestamp, now: Timestamp)
    requires IsSteady(b, false, clock) && clock <= now && key.0 in b.policies
    ensures
      var events, cutoff := EventsOf(b.events, key), now - b.policies[key.0].windowSeconds;
      Counted(events, tool, cutoff) == CallsInWindow(AllCalls(events), tool, cutoff)
  {
    var events, cutoff := EventsOf(b.events, key), now - b.policies[key.0].windowSeconds;
    assert SessionIsSteady(b, false, key, clock);
    NothingMissed(events, cutoff);
    NoneInWindow(Pruned(events), tool, cutoff);
  }

  // ---- when a window is widened -------------------------------------------------------

  predicate IsBeforeACutoff(events: seq<Event>, at: Timestamp) {
    exists i | 0 <= i < |events| :: at < events[i].cutoff
  }

  lemma {:induction false} SplitMembers(calls: seq<Call>, at: Timestamp, c: Call)
    ensures c in Before(calls, at) <==> c in calls && c.at < at
    ensures c in Since(calls, at) <==> c in calls && c.at >= at
  {
    if calls != [] {
      SplitMembers(calls[..|calls| - 1], at, c);
    }
  }

  lemma {:induction false} EveryCallIsKeptOrPruned(events: seq<Event>, c: Call)
    ensures c in AllCalls(events) <==> c in Survivors(events) || c in Pruned(events)
  {
    if events != [] {
      var init, event := events[..|events| - 1], events[|events| - 1];
      EveryCallIsKeptOrPruned(init, c);
      if event.Called? {
        SplitMembers(Survivors(init), event.cutoff, c);
      }
    }
  }

  /** On a clock that never goes back, the pruned calls are those before some cutoff used so far. */
  lemma {:induction false} PrunedIff(events: seq<Event>, c: Call)
    requires CallsFollowCutoffs(events) && CleansOnlyOld(events)
    ensures c in Pruned(events) <==> c in AllCalls(events) && IsBeforeACutoff(events, c.at)
  {
    if events != [] {
      var init, event := events[..|events| - 1], events[|events| - 1];
      assert forall i | 0 <= i < |init| :: init[i] == events[i] && init[..i] == events[..i];
      assert events[..|init|] == init;
      PrunedIff(init, c);
      EveryCallIsKeptOrPruned(init, c);
      SplitMembers(Survivors(init), event.cutoff, c);
      assert IsBeforeACutoff(events, c.at) <==> IsBeforeACutoff(init, c.at) || c.at < event.cutoff;
    }
  }

  /** A call of the history that lies in the window, but before a cutoff used so far. */
  predicate LiesInGap(events: seq<Event>, cutoff: Timestamp, c: Call) {
    c in AllCalls(events) && cutoff <= c.at && IsBeforeACutoff(events, c.at)
  }

  /** Whatever windows were used, on such a clock every count is exact exactly if no call lies in that gap. */
  lemma ExactIffNoCallInGap(events: seq<Event>, cutoff: Timestamp, clock: Timestamp)
    requires SteadyEvents(events, 0, clock)
    ensures AllExact(events, cutoff) <==> forall c :: !LiesInGap(events, cutoff, c)
  {
    CountsAreExactIff(events, cutoff);
    var pruned := Pruned(events);
    forall c ensures c in pruned <==> c in AllCalls(events) && IsBeforeACutoff(events, c.at) {
      PrunedIff(events, c);
    }
    if AllBefore(pruned, cutoff) {
      forall c ensures !LiesInGap(events, cutoff, c) {
        assert c in pruned ==> c.at < cutoff;
      }
    } else {
      var i :| 0 <= i < |pruned| && pruned[i].at >= cutoff;
      assert pruned[i] in pruned;
      assert LiesInGap(events, cutoff, pruned[i]);
    }
  }

  /** One pass that counts each tool seen since the cutoff. */
  method CountPerTool(calls: seq<Call>, cutoff: Timestamp) returns (counts: map<string, nat>)
    ensures forall i | 0 <= i < |calls| :: calls[i].at >= cutoff ==> calls[i].tool in counts
    ensures forall tool | tool in counts :: counts[tool] == CallsInWindow(calls, tool, cutoff)
  {
    counts := map[];
    var i := 0;
    while i < |calls|
      invariant 0 <= i <= |calls|
      invariant forall j | 0 <= j < i :: calls[j].at >= cutoff ==> calls[j].tool in counts
      invariant forall tool | tool in counts :: counts[tool] == CallsInWindow(calls[..i], tool, cutoff)
      invariant forall tool | tool !in counts :: CallsInWindow(calls[..i], tool, cutoff) == 0
    {
      assert calls[..i + 1][..i] == calls[..i];
      var tool := calls[i].tool;
      if calls[i].at >= cutoff {
        counts := counts[tool := (if tool in counts then counts[tool] else 0) + 1];
      }
      i := i + 1;
    }
    assert calls[..|calls|] == calls;
  }

  /** A tool is over its limit only if one of its calls is in the window. */
  lemma {:induction false} OnlySeenTools(calls: seq<Call>, tool: string, cutoff: Timestamp)
    requires forall i | 0 <= i < |calls| :: calls[i].at >= cutoff ==> calls[i].tool != tool
    ensures CallsInWindow(calls, tool, cutoff) == 0
  {
    if calls != [] {
      OnlySeenTools(calls[..|calls| - 1], tool, cutoff);
    }
  }
}
