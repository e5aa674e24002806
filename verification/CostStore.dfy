/**
 `InMemoryCostStore`: running USD and token counters per session, per agent and day, and per model
 and day, kept under one lock. Dollars are reals.
 */
module CostStore {
  import opened Wrappers
  import opened Records

  const SECONDS_PER_DAY := 86400

  type Day = int

  /** The UTC day of a clock reading. */
  function UtcDay(now: Timestamp): Day {
    now / SECONDS_PER_DAY
  }

  /** Days are whole, and start at midnight for clock readings before the epoch too. */
  lemma DayHolds(now: Timestamp)
    ensures UtcDay(now) * 86400 <= now < UtcDay(now) * 86400 + 86400
  {
  }

  datatype Usage = Usage(usd: real, tokens: int) {
    function Plus(other: Usage): Usage {
      Usage(usd + other.usd, tokens + other.tokens)
    }
  }

  const NOTHING := Usage(0.0, 0)

  datatype Daily = Daily(usage: Usage, day: Day)

  /** One `track` call that reached the store. */
  datatype Tracked = Tracked(agentId: string, sessionId: Uuid, usage: Usage, model: Option<string>, now: Timestamp)

  datatype Scope = OfSession(agentId: string, sessionId: Uuid) | OfAgent(agentId: string) | OfModel(agentId: string, model: string) {
    predicate Covers(t: Tracked) {
      t.agentId == agentId &&
      match this
      case OfSession(_, session) => t.sessionId == session
      case OfAgent(_) => true
      case OfModel(_, model) => t.model == Some(model)
    }
  }

  // ---- what the counters should hold, from the whole history --------------------------

  /** Everything ever tracked in a scope. */
  function Total(history: seq<Tracked>, scope: Scope): Usage {
    if history == [] then NOTHING
    else
      var t, before := history[|history| - 1], Total(history[..|history| - 1], scope);
      if scope.Covers(t) then before.Plus(t.usage) else before
  }

  /** When a scope was first tracked. */
  function FirstTracked(history: seq<Tracked>, scope: Scope): Option<Timestamp> {
    if history == [] then None
    else
      var t, before := history[|history| - 1], FirstTracked(history[..|history| - 1], scope);
      if before.Some? || !scope.Covers(t) then before else Some(t.now)
  }

  /** Entry i is the first of its scope. */
  predicate IsFirst(history: seq<Tracked>, scope: Scope, i: nat) {
    i < |history| && scope.Covers(history[i]) && forall j | 0 <= j < i :: !scope.Covers(history[j])
  }

  lemma {:induction false} FirstTrackedIsFirst(history: seq<Tracked>, scope: Scope)
    ensures FirstTracked(history, scope) == None <==> forall t | t in history :: !scope.Covers(t)
    ensures forall i: nat | IsFirst(history, scope, i) :: FirstTracked(history, scope) == Some(history[i].now)
  {
    if history != [] {
      var init, t := history[..|history| - 1], history[|history| - 1];
      FirstTrackedIsFirst(init, scope);
      assert history == init + [t];
      forall i: nat | IsFirst(history, scope, i) ensures FirstTracked(history, scope) == Some(history[i].now) {
        if i < |init| {
          assert IsFirst(init, scope, i);
        }
      }
    }
  }

  /** The newest day tracked in a scope. */
  function NewestDay(history: seq<Tracked>, scope: Scope): Option<Day> {
    if history == [] then None
    else
      var t, before := history[|history| - 1], NewestDay(history[..|history| - 1], scope);
      if !scope.Covers(t) then before
      else if before.Some? && before.value > UtcDay(t.now) then before
      else Some(UtcDay(t.now))
  }

  /** What was tracked in a scope while `day` was its newest day. */
  function TotalDuring(history: seq<Tracked>, scope: Scope, day: Day): Usage {
    if history == [] then NOTHING
    else
      var t, before := history[|history| - 1], TotalDuring(history[..|history| - 1], scope, day);
      if scope.Covers(t) && NewestDay(history, scope) == Some(day) then before.Plus(t.usage) else before
  }

  /** What was tracked in a scope on `day`. */
  function TotalOn(history: seq<Tracked>, scope: Scope, day: Day): Usage {
    if history == [] then NOTHING
    else
      var t, before := history[|history| - 1], TotalOn(history[..|history| - 1], scope, day);
      if scope.Covers(t) && UtcDay(t.now) == day then before.Plus(t.usage) else before
  }

  lemma {:induction false} NothingDuringLaterDays(history: seq<Tracked>, scope: Scope, day: Day)
    requires NewestDay(history, scope) == None || NewestDay(history, scope).value < day
    ensures TotalDuring(history, scope, day) == NOTHING
  {
    if history != [] {
      NothingDuringLaterDays(history[..|history| - 1], scope, day);
    }
  }

  predicate ClockNeverGoesBack(history: seq<Tracked>) {
    forall i, j | 0 <= i < j < |history| :: history[i].now <= history[j].now
  }

  /** Nothing was tracked after `now`, nor out of clock order. */
  predicate ClockIsAt(history: seq<Tracked>, now: Timestamp) {
    ClockNeverGoesBack(history) && forall t | t in history :: t.now <= now
  }

  lemma {:induction false} NewestDayIsBounded(history: seq<Tracked>, scope: Scope, now: Timestamp)
    requires forall t | t in history :: t.now <= now
    ensures NewestDay(history, scope).Some? ==> NewestDay(history, scope).value <= UtcDay(now)
  {
    if history != [] {
      NewestDayIsBounded(history[..|history| - 1], scope, now);
      assert history[|history| - 1] in history;
    }
  }

  /** On a clock that never goes back, a day's counter is what was tracked on that day. */
  lemma {:induction false} DuringIsOn(history: seq<Tracked>, scope: Scope, day: Day)
    requires ClockNeverGoesBack(history)
    ensures TotalDuring(history, scope, day) == TotalOn(history, scope, day)
  {
    if history != [] {
      var init, t := history[..|history| - 1], history[|history| - 1];
      DuringIsOn(init, scope, day);
      NewestDayIsBounded(init, scope, t.now);
    }
  }

  /**
   An agent's dollars and tokens of today, as a clock at `now` sees them: a counter of an earlier day
   reads as zero, and a clock that is behind reads the newest day.
   */
  function DailyTotal(history: seq<Tracked>, agentId: string, now: Timestamp): Usage {
    var newest := NewestDay(history, OfAgent(agentId));
    if newest.Some? && newest.value >= UtcDay(now) then TotalDuring(history, OfAgent(agentId), newest.value) else NOTHING
  }

  /** On a clock that never goes back, that is what was tracked on the day. */
  lemma DailyTotalIsToday(history: seq<Tracked>, agentId: string, now: Timestamp)
    requires ClockIsAt(history, now)
    ensures DailyTotal(history, agentId, now) == TotalOn(history, OfAgent(agentId), UtcDay(now))
  {
    var scope := OfAgent(agentId);
    NewestDayIsBounded(history, scope, now);
    DuringIsOn(history, scope, UtcDay(now));
    if NewestDay(history, scope) == None || NewestDay(history, scope).value < UtcDay(now) {
      NothingDuringLaterDays(history, scope, UtcDay(now));
    }
  }

  /** Whatever the clock did before, a call's own amount is on top of what the day had. */
  lemma TrackedToday(history: seq<Tracked>, t: Tracked)
    ensures DailyTotal(history + [t], t.agentId, t.now) == DailyTotal(history, t.agentId, t.now).Plus(t.usage)
  {
    assert (history + [t])[..|history|] == history;
    if NewestDay(history, OfAgent(t.agentId)) == None || NewestDay(history, OfAgent(t.agentId)).value < UtcDay(t.now) {
      NothingDuringLaterDays(history, OfAgent(t.agentId), UtcDay(t.now));
    }
  }

  /** The rollover rule of one daily counter. */
  function AddToDay(counter: Option<Daily>, usage: Usage, day: Day): Daily {
    var current := if counter.Some? then counter.value else Daily(NOTHING, day);
    if current.day < day then Daily(NOTHING.Plus(usage), day) else Daily(current.usage.Plus(usage), current.day)
  }

  /** A daily counter agrees with the history. */
  predicate Agrees(counter: Option<Daily>, history: seq<Tracked>, scope: Scope) {
    match counter
    case None => NewestDay(history, scope) == None
    case Some(Daily(usage, day)) => NewestDay(history, scope) == Some(day) && usage == TotalDuring(history, scope, day)
  }

  lemma AddKeepsAgreement(counter: Option<Daily>, history: seq<Tracked>, scope: Scope, t: Tracked)
    requires Agrees(counter, history, scope) && scope.Covers(t)
    ensures Agrees(Some(AddToDay(counter, t.usage, UtcDay(t.now))), history + [t], scope)
  {
    assert (history + [t])[..|history|] == history;
    if counter == None || counter.value.day < UtcDay(t.now) {
      NothingDuringLaterDays(history, scope, UtcDay(t.now));
    }
  }

  lemma OthersKeepAgreement(counter: Option<Daily>, history: seq<Tracked>, scope: Scope, t: Tracked)
    requires Agrees(counter, history, scope) && !scope.Covers(t)
    ensures Agrees(counter, history + [t], scope)
  {
    assert (history + [t])[..|history|] == history;
  }

  function Get<K, V>(m: map<K, V>, key: K): Option<V> {
    if key in m then Some(m[key]) else None
  }

  function UsageOrNothing(counter: Option<Usage>): Usage {
    if counter.Some? then counter.value else NOTHING
  }

  class InMemoryCostStore {
    var sessionUsage: map<(string, Uuid), Usage>
    var sessionStarted: map<(string, Uuid), Timestamp>
    var agentDaily: map<string, Daily>
    var modelUsage: map<(string, string), Daily>
    ghost var history: seq<Tracked>

    ghost predicate SessionsAgree(history: seq<Tracked>)
      reads this`sessionUsage
    {
      forall agent, session ::
        UsageOrNothing(Get(sessionUsage, (agent, session))) == Total(history, OfSession(agent, session))
    }

    ghost predicate StartsAgree(history: seq<Tracked>)
      reads this`sessionStarted
    {
      forall agent, session ::
        Get(sessionStarted, (agent, session)) == FirstTracked(history, OfSession(agent, session))
    }

    ghost predicate AgentsAgree(history: seq<Tracked>)
      reads this`agentDaily
    {
      forall agent :: Agrees(Get(agentDaily, agent), history, OfAgent(agent))
    }

    ghost predicate ModelsAgree(history: seq<Tracked>)
      reads this`modelUsage
    {
      forall agent, model :: Agrees(Get(modelUsage, (agent, model)), history, OfModel(agent, model))
    }

    ghost predicate Valid()
      reads this
    {
      SessionsAgree(history) && StartsAgree(history) && AgentsAgree(history) && ModelsAgree(history)
    }

    constructor ()
      ensures Valid() && history == []
    {
      sessionUsage, sessionStarted, agentDaily, modelUsage, history := map[], map[], map[], map[], [];
    }

    method TrackStart(t: Tracked)
      requires StartsAgree(history)
      modifies this`sessionStarted
      ensures StartsAgree(history + [t])
    {
      ghost var before := sessionStarted;
      var key := (t.agentId, t.sessionId);
      if key !in sessionStarted {
        sessionStarted := sessionStarted[key := t.now];
      }
      forall agent, session
        ensures Get(sessionStarted, (agent, session)) == FirstTracked(history + [t], OfSession(agent, session))
      {
        assert (history + [t])[..|history|] == history;
        assert Get(before, (agent, session)) == FirstTracked(history, OfSession(agent, session));
      }
    }

    method TrackSession(t: Tracked)
      requires SessionsAgree(history)
      modifies this`sessionUsage
      ensures SessionsAgree(history + [t])
    {
      ghost var before := sessionUsage;
      var key := (t.agentId, t.sessionId);
      sessionUsage := sessionUsage[key := UsageOrNothing(Get(sessionUsage, key)).Plus(t.usage)];
      forall agent, session
        ensures UsageOrNothing(Get(sessionUsage, (agent, session))) == Total(history + [t], OfSession(agent, session))
      {
        assert (history + [t])[..|history|] == history;
        assert UsageOrNothing(Get(before, (agent, session))) == Total(history, OfSession(agent, session));
      }
    }

    method TrackAgent(t: Tracked)
      requires AgentsAgree(history)
      modifies this`agentDaily
      ensures AgentsAgree(history + [t])
    {
      ghost var before := agentDaily;
      agentDaily := agentDaily[t.agentId := AddToDay(Get(agentDaily, t.agentId), t.usage, UtcDay(t.now))];
      forall agent ensures Agrees(Get(agentDaily, agent), history + [t], OfAgent(agent)) {
        assert Agrees(Get(before, agent), history, OfAgent(agent));
        if agent == t.agentId {
          AddKeepsAgreement(Get(before, agent), history, OfAgent(agent), t);
        } else {
          OthersKeepAgreement(Get(before, agent), history, OfAgent(agent), t);
        }
      }
    }

    method TrackModel(t: Tracked)
      requires ModelsAgree(history)
      modifies this`modelUsage
      ensures ModelsAgree(history + [t])
    {
      ghost var before := modelUsage;
      if t.model.Some? {
        var key := (t.agentId, t.model.value);
        modelUsage := modelUsage[key := AddToDay(Get(modelUsage, key), t.usage, UtcDay(t.now))];
      }
      forall agent, model ensures Agrees(Get(modelUsage, (agent, model)), history + [t], OfModel(agent, model)) {
        assert Agrees(Get(before, (agent, model)), history, OfModel(agent, model));
        if agent == t.agentId && t.model == Some(model) {
          AddKeepsAgreement(Get(before, (agent, model)), history, OfModel(agent, model), t);
        } else {
          OthersKeepAgreement(Get(before, (agent, model)), history, OfModel(agent, model), t);
        }
      }
    }

    /** One locked region; `now` is read before the lock, so calls may arrive out of clock order. */
    method Track(agentId: string, sessionId: Uuid, usage: Usage, model: Option<string>, now: Timestamp)
      requires Valid()
      modifies this
      ensures Valid() && history == old(history) + [Tracked(agentId, sessionId, usage, model, now)]
    {
      var t := Tracked(agentId, sessionId, usage, model, now);
      TrackStart(t);
      TrackSession(t);
      TrackAgent(t);
      TrackModel(t);
      history := history + [t];
    }

    method GetSessionUsage(agentId: string, sessionId: Uuid) returns (usage: Usage)
      requires Valid()
      ensures usage == Total(history, OfSession(agentId, sessionId))
    {
      usage := UsageOrNothing(Get(sessionUsage, (agentId, sessionId)));
    }

    method GetSessionStartTime(agentId: string, sessionId: Uuid) returns (started: Option<Timestamp>)
      requires Valid()
      ensures started == FirstTracked(history, OfSession(agentId, sessionId))
      ensures forall i: nat | IsFirst(history, OfSession(agentId, sessionId), i) :: started == Some(history[i].now)
      ensures started == None <==> forall t | t in history :: !OfSession(agentId, sessionId).Covers(t)
    {
      FirstTrackedIsFirst(history, OfSession(agentId, sessionId));
      started := Get(sessionStarted, (agentId, sessionId));
    }

    method GetAgentDailyUsage(agentId: string, now: Timestamp) returns (usage: Usage)
      requires Valid()
      ensures usage == DailyTotal(history, agentId, now)
    {
      var counter := Get(agentDaily, agentId);
      assert Agrees(counter, history, OfAgent(agentId));
      if counter == None || counter.value.day < UtcDay(now) {
        usage := NOTHING;
      } else {
        usage := counter.value.usage;
      }
    }
  }
}
