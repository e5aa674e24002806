/**
 `CostModule`: the budget gate (`check_or_raise`), `track` with its threshold alert, and `reconcile`,
 over the in-memory store. Interleaved calls are the subject of `SoftCeiling` and `BudgetAlert`.
 */
module CostModule {
  import opened Wrappers
  import opened Records
  import opened CostStore
  import opened BudgetAlert

  datatype Policy = Policy(
    perSessionUsd: Option<real>, perSessionTokens: Option<int>,
    perAgentUsdDaily: Option<real>, perAgentTokensDaily: Option<int>, perSessionSeconds: Option<int>,
    alertWebhookUrl: Option<string>, alertWebhookSecret: Option<string>, alertThresholdPct: int)

  datatype Cap = PerSessionUsd | PerSessionTokens | PerAgentUsdDaily | PerAgentTokensDaily | PerSessionSeconds

  /** The order in which the gate looks at the caps. */
  const CAPS := [PerSessionUsd, PerSessionTokens, PerAgentUsdDaily, PerAgentTokensDaily, PerSessionSeconds]

  datatype Denial = Halted | StoreUnreachable | Exceeded(cap: Cap)

  /** What the gate looks at: the two counters, the projection, and the session's age. */
  datatype Reading = Reading(session: Usage, daily: Usage, projectedTokens: Option<int>, elapsed: Option<int>)

  /** Token caps look ahead by the projection, dollar caps do not. */
  predicate IsOver(policy: Policy, r: Reading, cap: Cap) {
    var projected := if r.projectedTokens.Some? then r.projectedTokens.value else 0;
    match cap
    case PerSessionUsd => policy.perSessionUsd.Some? && r.session.usd > policy.perSessionUsd.value
    case PerSessionTokens => policy.perSessionTokens.Some? && r.session.tokens + projected > policy.perSessionTokens.value
    case PerAgentUsdDaily => policy.perAgentUsdDaily.Some? && r.daily.usd > policy.perAgentUsdDaily.value
    case PerAgentTokensDaily =>
      policy.perAgentTokensDaily.Some? && r.daily.tokens + projected > policy.perAgentTokensDaily.value
    case PerSessionSeconds =>
      policy.perSessionSeconds.Some? && r.elapsed.Some? && r.elapsed.value > policy.perSessionSeconds.value
  }

  predicate WithinCaps(policy: Policy, r: Reading) {
    forall cap :: !IsOver(policy, r, cap)
  }

  /** The cap named is over, and none looked at before it is. */
  predicate IsFirstOver(policy: Policy, r: Reading, cap: Cap) {
    exists i | 0 <= i < |CAPS| :: CAPS[i] == cap && IsOver(policy, r, cap) && forall j | 0 <= j < i :: !IsOver(policy, r, CAPS[j])
  }

  lemma CapIsFirstOver(policy: Policy, r: Reading, i: nat)
    requires i < |CAPS| && IsOver(policy, r, CAPS[i]) && forall j | 0 <= j < i :: !IsOver(policy, r, CAPS[j])
    ensures IsFirstOver(policy, r, CAPS[i])
  {
  }

  /** The gate's chain of comparisons, without the age of the session. */
  function Breach(policy: Policy, session: Usage, daily: Usage, projectedTokens: Option<int>): Option<Cap> {
    var projected := if projectedTokens.Some? then projectedTokens.value else 0;
    if policy.perSessionUsd.Some? && session.usd > policy.perSessionUsd.value then Some(PerSessionUsd)
    else if policy.perSessionTokens.Some? && session.tokens + projected > policy.perSessionTokens.value
    then Some(PerSessionTokens)
    else if policy.perAgentUsdDaily.Some? && daily.usd > policy.perAgentUsdDaily.value then Some(PerAgentUsdDaily)
    else if policy.perAgentTokensDaily.Some? && daily.tokens + projected > policy.perAgentTokensDaily.value
    then Some(PerAgentTokensDaily)
    else None
  }

  /** The chain names the first cap that is over, if any is. */
  lemma BreachIsFirstOver(policy: Policy, r: Reading)
    ensures match Breach(policy, r.session, r.daily, r.projectedTokens)
            case Some(cap) => IsFirstOver(policy, r, cap)
            case None => forall j | 0 <= j < 4 :: !IsOver(policy, r, CAPS[j])
  {
    var breach := Breach(policy, r.session, r.daily, r.projectedTokens);
    if breach.Some? {
      CapIsFirstOver(policy, r, if breach.value.PerSessionUsd? then 0 else if breach.value.PerSessionTokens? then 1
                                else if breach.value.PerAgentUsdDaily? then 2 else 3);
    }
  }

  lemma AllCapsHold(policy: Policy, r: Reading)
    requires forall j | 0 <= j < 5 :: !IsOver(policy, r, CAPS[j])
    ensures WithinCaps(policy, r)
  {
    forall cap ensures !IsOver(policy, r, cap) {
      assert cap == CAPS[match cap case PerSessionUsd => 0 case PerSessionTokens => 1 case PerAgentUsdDaily => 2
                         case PerAgentTokensDaily => 3 case PerSessionSeconds => 4];
    }
  }

  /** The five comparisons a call passes exactly if the gate lets it through. */
  lemma WithinCapsIff(policy: Policy, r: Reading)
    ensures var projected := if r.projectedTokens.Some? then r.projectedTokens.value else 0;
      WithinCaps(policy, r) <==>
        && (policy.perSessionUsd.Some? ==> r.session.usd <= policy.perSessionUsd.value)
        && (policy.perSessionTokens.Some? ==> r.session.tokens + projected <= policy.perSessionTokens.value)
        && (policy.perAgentUsdDaily.Some? ==> r.daily.usd <= policy.perAgentUsdDaily.value)
        && (policy.perAgentTokensDaily.Some? ==> r.daily.tokens + projected <= policy.perAgentTokensDaily.value)
        && (policy.perSessionSeconds.Some? && r.elapsed.Some? ==> r.elapsed.value <= policy.perSessionSeconds.value)
  {
    if WithinCaps(policy, r) {
      assert forall j | 0 <= j < 5 :: !IsOver(policy, r, CAPS[j]);
      assert !IsOver(policy, r, CAPS[0]) && !IsOver(policy, r, CAPS[1]) && !IsOver(policy, r, CAPS[2]);
      assert !IsOver(policy, r, CAPS[3]) && !IsOver(policy, r, CAPS[4]);
    } else if forall j | 0 <= j < 5 :: !IsOver(policy, r, CAPS[j]) {
      AllCapsHold(policy, r);
    }
  }

  predicate CanAlert(policy: Policy) {
    policy.alertWebhookUrl.Some? && policy.perAgentUsdDaily.Some?
  }

  /** What a reconciliation adds to a counter: the excess of the actual amount, never a refund. */
  function TokensToAdd(projected: int, actual: int): nat {
    if actual > projected then actual - projected else 0
  }

  class Module {
    const store: InMemoryCostStore
    const failOpen: bool
    const dedup: AlertDedup
    var policies: map<string, Policy>
    var noPolicyWarned: set<string>

    ghost predicate Valid()
      reads this, store
    {
      store.Valid()
    }

    constructor (store: InMemoryCostStore, dedup: AlertDedup, failOpen: bool)
      requires store.Valid()
      ensures Valid() && this.store == store && this.dedup == dedup && this.failOpen == failOpen && policies == map[]
    {
      this.store, this.dedup, this.failOpen := store, dedup, failOpen;
      policies, noPolicyWarned := map[], {};
    }

    /** The gate's reading, in terms of everything ever tracked. */
    ghost function ReadingOf(agentId: string, sessionId: Uuid, projectedTokens: Option<int>,
                             now: Timestamp, timeReadFails: bool): Reading
      reads store
    {
      var history := store.history;
      var started := FirstTracked(history, OfSession(agentId, sessionId));
      Reading(Total(history, OfSession(agentId, sessionId)), DailyTotal(history, agentId, now),
              projectedTokens, if started.Some? && !timeReadFails then Some(now - started.value) else None)
    }

    /** Allows the call exactly when everything ever tracked leaves every cap unbroken. */
    method CheckOrRaise(agentId: string, sessionId: Uuid, projectedTokens: Option<int>, now: Timestamp,
                        halted: bool, readFails: bool, timeReadFails: bool) returns (r: Result<(), Denial>)
      requires Valid()
      modifies this`noPolicyWarned
      ensures Valid() && store.history == old(store.history)
      ensures halted ==> r == Err(Halted)
      ensures !halted && readFails && agentId in policies ==> r == if failOpen then Ok(()) else Err(StoreUnreachable)
      ensures !halted && agentId !in policies ==> r == Ok(()) && noPolicyWarned == old(noPolicyWarned) + {agentId}
      ensures !halted && !readFails && agentId in policies ==>
        var reading := ReadingOf(agentId, sessionId, projectedTokens, now, timeReadFails);
        match r
        case Ok(_) => WithinCaps(policies[agentId], reading)
        case Err(denial) => denial.Exceeded? && IsFirstOver(policies[agentId], reading, denial.cap)
    {
      if halted {
        return Err(Halted);
      }
      if agentId !in policies {
        noPolicyWarned := noPolicyWarned + {agentId};
        return Ok(());
      }
      if readFails {
        return if failOpen then Ok(()) else Err(StoreUnreachable);
      }
      var policy := policies[agentId];
      var session := store.GetSessionUsage(agentId, sessionId);
      var daily := store.GetAgentDailyUsage(agentId, now);
      ghost var reading := ReadingOf(agentId, sessionId, projectedTokens, now, timeReadFails);
      hide IsFirstOver;
      hide WithinCaps;
      BreachIsFirstOver(policy, reading);
      var breach := Breach(policy, session, daily, projectedTokens);
      if breach.Some? {
        return Err(Exceeded(breach.value));
      }
      if policy.perSessionSeconds.Some? && !timeReadFails {
        var started := store.GetSessionStartTime(agentId, sessionId);
        if started.Some? && now - started.value > policy.perSessionSeconds.value {
          CapIsFirstOver(policy, reading, 4);
          return Err(Exceeded(PerSessionSeconds));
        }
      }
      AllCapsHold(policy, reading);
      return Ok(());
    }

    /** Sends when the dollars of `pre` and those in the store now lie on both sides of the threshold. */
    method MaybeFireBudgetAlert(policy: Policy, agentId: string, pre: real, now: Timestamp,
                                webhooksEnabled: bool, readFails: bool) returns (sends: bool)
      requires Valid()
      modifies dedup
      ensures dedup.fired == old(dedup.fired) + if sends then {AlertKey(agentId, UtcDay(now))} else {}
      ensures sends <==>
        && webhooksEnabled && CanAlert(policy) && policy.alertWebhookSecret.Some? && !readFails
        && pre < policy.perAgentUsdDaily.value * (policy.alertThresholdPct as real / 100.0)
              <= DailyTotal(store.history, agentId, now).usd
        && AlertKey(agentId, UtcDay(now)) !in old(dedup.fired)
    {
      if !webhooksEnabled || !CanAlert(policy) || policy.alertWebhookSecret == None || readFails {
        return false;
      }
      var post := store.GetAgentDailyUsage(agentId, now);
      if !Crosses(pre, Threshold(policy.perAgentUsdDaily.value, policy.alertThresholdPct), post.usd) {
        return false;
      }
      sends := dedup.MarkIfUnfired(AlertKey(agentId, UtcDay(now)));
    }

    /** The dollars take the agent's day from below the threshold to it, and no alert was sent that day. */
    ghost predicate IsAlertDue(agentId: string, usd: real, now: Timestamp)
      reads this, store, dedup
    {
      && usd > 0.0 && agentId in policies && CanAlert(policies[agentId]) && policies[agentId].alertWebhookSecret.Some?
      && AlertKey(agentId, UtcDay(now)) !in dedup.fired
      && var policy, spent := policies[agentId], DailyTotal(store.history, agentId, now).usd;
         spent < policy.perAgentUsdDaily.value * (policy.alertThresholdPct as real / 100.0) <= spent + usd
    }

    /**
     One uninterrupted `track` call. It sends the alert exactly when this call takes the day's dollars
     from below the threshold to it, every read works, and no alert was sent that day.
     */
    method Track(agentId: string, sessionId: Uuid, tokens: int, usd: real, model: Option<string>, now: Timestamp,
                 webhooksEnabled: bool, preReadFails: bool, addFails: bool, postReadFails: bool) returns (sends: bool)
      requires Valid()
      modifies store, dedup
      ensures Valid()
      ensures store.history == if tokens < 0 || usd < 0.0 || addFails then old(store.history)
              else old(store.history) + [Tracked(agentId, sessionId, Usage(usd, tokens), model, now)]
      ensures dedup.fired == old(dedup.fired) + if sends then {AlertKey(agentId, UtcDay(now))} else {}
      ensures sends <==>
        && tokens >= 0 && old(IsAlertDue(agentId, usd, now)) && webhooksEnabled
        && !preReadFails && !addFails && !postReadFails
    {
      hide DailyTotal;
      if tokens < 0 || usd < 0.0 {
        return false;
      }
      var pre: Option<real> := None;
      if agentId in policies && CanAlert(policies[agentId]) && usd > 0.0 && !preReadFails {
        var usage := store.GetAgentDailyUsage(agentId, now);
        pre := Some(usage.usd);
      }
      if addFails {
        return false;
      }
      ghost var before := store.history;
      store.Track(agentId, sessionId, Usage(usd, tokens), model, now);
      TrackedToday(before, Tracked(agentId, sessionId, Usage(usd, tokens), model, now));
      if pre == None {
        return false;
      }
      sends := MaybeFireBudgetAlert(policies[agentId], agentId, pre.value, now, webhooksEnabled, postReadFails);
    }

    /** Adds what the provider reported beyond the projection, alerting as `track` does; never refunds. */
    method Reconcile(agentId: string, sessionId: Uuid, projectedTokens: int, actualTokens: int,
                     projectedUsd: real, actualUsd: real, model: Option<string>, now: Timestamp,
                     webhooksEnabled: bool, preReadFails: bool, addFails: bool, postReadFails: bool) returns (sends: bool)
      requires Valid()
      modifies store, dedup
      ensures Valid()
      ensures sends <==>
        && actualUsd > projectedUsd && old(IsAlertDue(agentId, actualUsd - projectedUsd, now)) && webhooksEnabled
        && !preReadFails && !addFails && !postReadFails
      ensures dedup.fired == old(dedup.fired) + if sends then {AlertKey(agentId, UtcDay(now))} else {}
      ensures addFails ==> store.history == old(store.history)
      ensures !addFails ==> var before, after, scope := old(store.history), store.history, OfSession(agentId, sessionId);
        && Total(after, scope).tokens ==
           Total(before, scope).tokens + (if actualTokens > projectedTokens then actualTokens - projectedTokens else 0)
        && Total(after, scope).usd ==
           Total(before, scope).usd + (if actualUsd > projectedUsd then actualUsd - projectedUsd else 0.0)
        && forall other: Scope | other.OfSession? && other != scope :: Total(after, other) == Total(before, other)
    {
      var tokenDelta, usdDelta := actualTokens - projectedTokens, actualUsd - projectedUsd;
      if tokenDelta < 0 || usdDelta < 0.0 {
        tokenDelta := if tokenDelta > 0 then tokenDelta else 0;
        usdDelta := if usdDelta > 0.0 then usdDelta else 0.0;
      }
      if tokenDelta == 0 && usdDelta == 0.0 {
        return false;
      }
      hide DailyTotal;
      ghost var before := store.history;
      sends := Track(agentId, sessionId, tokenDelta, usdDelta, model, now, webhooksEnabled, preReadFails, addFails, postReadFails);
      if !addFails {
        assert store.history[..|store.history| - 1] == before;
      }
    }
  }
}
