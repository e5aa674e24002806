/**
 `GatesModule.wait_for`: poll the local store and, on its own schedule, the platform, until one of
 them has a verdict or the deadline passes. What each tick of the loop sees is given as a trace.
 */
module WaitFor {
  import opened Wrappers
  import opened Records
  import opened GatesStore

  const PLATFORM_POLL_BASE_SECONDS := 2.0
  const PLATFORM_POLL_JITTER_SECONDS := 0.5
  const PLATFORM_POLL_MAX_SECONDS := 10.0
  const PLATFORM_POLL_LATCH_THRESHOLD := 5
  const PLATFORM_POLL_LATCH_SECONDS := 60.0

  /** What a read of the local store, or a poll of the platform, comes back with. */
  datatype Answer = Failed | NoVerdict | Verdict(resolution: Resolution)

  /** One turn of the loop: both answers, three clock readings, and the jitter drawn if the platform is polled. */
  datatype Tick = Tick(local: Answer, at: real, platform: Answer, polledAt: real, jitter: real, endsAt: real)

  datatype Outcome = Approved | DeniedBy(resolution: Resolution) | TimedOut | StillWaiting

  // ---- the platform schedule ----------------------------------------------------------

  datatype Schedule = Schedule(backoff: real, nextPollAt: real, failures: nat)

  function JitteredInterval(base: real, jitter: real): real {
    var interval := if base + jitter < PLATFORM_POLL_MAX_SECONDS then base + jitter else PLATFORM_POLL_MAX_SECONDS;
    if interval < 0.0 then 0.0 else interval
  }

  predicate Polls(wired: bool, s: Schedule, t: Tick) {
    wired && t.at >= s.nextPollAt
  }

  /** The schedule after a poll. */
  function Reschedule(s: Schedule, t: Tick): Schedule {
    var failures := if t.platform.Failed? then s.failures + 1 else 0;
    var doubled := if s.backoff * 2.0 < PLATFORM_POLL_MAX_SECONDS then s.backoff * 2.0 else PLATFORM_POLL_MAX_SECONDS;
    var backoff := if t.platform.Failed? then doubled else PLATFORM_POLL_BASE_SECONDS;
    var hold := if failures >= PLATFORM_POLL_LATCH_THRESHOLD
                then PLATFORM_POLL_LATCH_SECONDS else JitteredInterval(backoff, t.jitter);
    Schedule(backoff, t.polledAt + hold, failures)
  }

  function ScheduleAt(wired: bool, start: real, ticks: seq<Tick>, n: nat): Schedule
    requires n <= |ticks|
  {
    if n == 0 then Schedule(PLATFORM_POLL_BASE_SECONDS, start, 0)
    else
      var s := ScheduleAt(wired, start, ticks, n - 1);
      if Polls(wired, s, ticks[n - 1]) then Reschedule(s, ticks[n - 1]) else s
  }

  predicate PollsAt(wired: bool, start: real, ticks: seq<Tick>, i: nat)
    requires i < |ticks|
  {
    Polls(wired, ScheduleAt(wired, start, ticks, i), ticks[i])
  }

  // ---- the answer ---------------------------------------------------------------------

  function OfVerdict(r: Resolution): Outcome {
    if r == Granted then Approved else DeniedBy(r)
  }

  /** What one tick decides: the local verdict first, then the platform's if polled, then the deadline. */
  function Decides(polled: bool, t: Tick, deadline: real): Option<Outcome> {
    if t.local.Verdict? then Some(OfVerdict(t.local.resolution))
    else if polled && t.platform.Verdict? then Some(OfVerdict(t.platform.resolution))
    else if t.endsAt >= deadline then Some(TimedOut)
    else None
  }

  /** Tick `i` decides, with this outcome, and no earlier tick did. */
  predicate IsFirstDecision(wired: bool, start: real, ticks: seq<Tick>, deadline: real, i: nat, outcome: Outcome) {
    && i < |ticks| && Decides(PollsAt(wired, start, ticks, i), ticks[i], deadline) == Some(outcome)
    && Undecided(wired, start, ticks, deadline, i)
  }

  predicate Undecided(wired: bool, start: real, ticks: seq<Tick>, deadline: real, n: nat)
    requires n <= |ticks|
  {
    forall i | 0 <= i < n :: Decides(PollsAt(wired, start, ticks, i), ticks[i], deadline) == None
  }

  /** Tick `i` sees this verdict: in the store, or, the store having none for it, on the platform if polled. */
  predicate Sees(wired: bool, start: real, ticks: seq<Tick>, i: nat, v: Resolution)
    requires i < |ticks|
  {
    || ticks[i].local == Verdict(v)
    || (!ticks[i].local.Verdict? && PollsAt(wired, start, ticks, i) && ticks[i].platform == Verdict(v))
  }

  /** Tick `i` sees no verdict, and ends before the deadline or not. */
  predicate SeesNothing(wired: bool, start: real, ticks: seq<Tick>, i: nat)
    requires i < |ticks|
  {
    !Sees(wired, start, ticks, i, Granted) && !Sees(wired, start, ticks, i, Denied)
  }

  /** Each outcome in terms of what the ticks see: the last tick's, none before having seen a verdict or run out. */
  lemma FirstDecisionIff(wired: bool, start: real, ticks: seq<Tick>, deadline: real, i: nat)
    requires i < |ticks|
    ensures Undecided(wired, start, ticks, deadline, i) <==>
      forall k | 0 <= k < i :: SeesNothing(wired, start, ticks, k) && ticks[k].endsAt < deadline
    ensures Undecided(wired, start, ticks, deadline, i) ==>
      && (IsFirstDecision(wired, start, ticks, deadline, i, Approved) <==> Sees(wired, start, ticks, i, Granted))
      && (IsFirstDecision(wired, start, ticks, deadline, i, DeniedBy(Denied)) <==> Sees(wired, start, ticks, i, Denied))
      && (IsFirstDecision(wired, start, ticks, deadline, i, TimedOut) <==>
            SeesNothing(wired, start, ticks, i) && ticks[i].endsAt >= deadline)
  {
    forall k: nat | k < |ticks|
      ensures Decides(PollsAt(wired, start, ticks, k), ticks[k], deadline) == None <==>
              SeesNothing(wired, start, ticks, k) && ticks[k].endsAt < deadline
    {
      DecidesNothingIff(wired, start, ticks, deadline, k);
    }
  }

  lemma DecidesNothingIff(wired: bool, start: real, ticks: seq<Tick>, deadline: real, k: nat)
    requires k < |ticks|
    ensures Decides(PollsAt(wired, start, ticks, k), ticks[k], deadline) == None <==>
            SeesNothing(wired, start, ticks, k) && ticks[k].endsAt < deadline
  {
    var local, platform := ticks[k].local, ticks[k].platform;
    assert local.Verdict? ==> local.resolution == Granted || local.resolution == Denied;
    assert platform.Verdict? ==> platform.resolution == Granted || platform.resolution == Denied;
  }

  /** What an outcome says of the tick that ended the loop, and of those before it. */
  ghost predicate IsAnswer(wired: bool, start: real, ticks: seq<Tick>, deadline: real, outcome: Outcome, last: nat) {
    && last <= |ticks|
    && (forall k | 0 <= k < last :: SeesNothing(wired, start, ticks, k) && ticks[k].endsAt < deadline)
    && match outcome
       case Approved => last < |ticks| && Sees(wired, start, ticks, last, Granted)
       case DeniedBy(v) => last < |ticks| && v == Denied && Sees(wired, start, ticks, last, Denied)
       case TimedOut => last < |ticks| && SeesNothing(wired, start, ticks, last) && ticks[last].endsAt >= deadline
       case StillWaiting => last == |ticks|
  }

  lemma DecisionIsAnswer(wired: bool, start: real, ticks: seq<Tick>, deadline: real, outcome: Outcome, last: nat)
    requires if outcome == StillWaiting then last == |ticks| && Undecided(wired, start, ticks, deadline, last)
             else IsFirstDecision(wired, start, ticks, deadline, last, outcome)
    ensures IsAnswer(wired, start, ticks, deadline, outcome, last)
  {
    hide PollsAt;
    forall k | 0 <= k < last ensures SeesNothing(wired, start, ticks, k) && ticks[k].endsAt < deadline {
      DecidesNothingIff(wired, start, ticks, deadline, k);
    }
  }

  /** The loop, over however many ticks there are; `last` is the tick that ended it. */
  method Run(wired: bool, start: real, ticks: seq<Tick>, timeout: real) returns (outcome: Outcome, last: nat)
    ensures IsAnswer(wired, start, ticks, start + timeout, outcome, last)
    ensures outcome != StillWaiting ==> IsFirstDecision(wired, start, ticks, start + timeout, last, outcome)
    ensures outcome == StillWaiting ==> Undecided(wired, start, ticks, start + timeout, |ticks|)
  {
    hide IsAnswer;
    var deadline := start + timeout;
    var backoff, nextPollAt, failures := PLATFORM_POLL_BASE_SECONDS, start, 0;
    last := 0;
    while last < |ticks|
      invariant 0 <= last <= |ticks|
      invariant Undecided(wired, start, ticks, deadline, last)
      invariant ScheduleAt(wired, start, ticks, last) == Schedule(backoff, nextPollAt, failures)
    {
      var t := ticks[last];
      if t.local == Verdict(Granted) {
        DecisionIsAnswer(wired, start, ticks, deadline, Approved, last);
        return Approved, last;
      }
      if t.local == Verdict(Denied) {
        DecisionIsAnswer(wired, start, ticks, deadline, DeniedBy(Denied), last);
        return DeniedBy(Denied), last;
      }
      if wired && t.at >= nextPollAt {
        if t.platform.Failed? {
          failures := failures + 1;
          backoff := if backoff * 2.0 < PLATFORM_POLL_MAX_SECONDS then backoff * 2.0 else PLATFORM_POLL_MAX_SECONDS;
        } else {
          backoff, failures := PLATFORM_POLL_BASE_SECONDS, 0;
        }
        var hold := if failures >= PLATFORM_POLL_LATCH_THRESHOLD
                    then PLATFORM_POLL_LATCH_SECONDS else JitteredInterval(backoff, t.jitter);
        nextPollAt := t.polledAt + hold;
        if t.platform.Verdict? {
          DecisionIsAnswer(wired, start, ticks, deadline, OfVerdict(t.platform.resolution), last);
          return OfVerdict(t.platform.resolution), last;
        }
      }
      if t.endsAt >= deadline {
        DecisionIsAnswer(wired, start, ticks, deadline, TimedOut, last);
        return TimedOut, last;
      }
      last := last + 1;
    }
    DecisionIsAnswer(wired, start, ticks, deadline, StillWaiting, last);
    return StillWaiting, last;
  }

  lemma {:induction false} ScheduleIgnoresLater(wired: bool, start: real, ticks: seq<Tick>, more: seq<Tick>, n: nat)
    requires n <= |ticks|
    ensures ScheduleAt(wired, start, ticks + more, n) == ScheduleAt(wired, start, ticks, n)
  {
    if n > 0 {
      ScheduleIgnoresLater(wired, start, ticks, more, n - 1);
    }
  }

  /** Once given, an answer stands: whatever the later ticks would see, it is the one the loop gives, and when. */
  lemma AnswerIsFinal(wired: bool, start: real, ticks: seq<Tick>, more: seq<Tick>, deadline: real,
                      i: nat, a: Outcome, j: nat, b: Outcome)
    requires IsFirstDecision(wired, start, ticks, deadline, i, a)
    ensures IsFirstDecision(wired, start, ticks + more, deadline, j, b) <==> j == i && b == a
  {
    forall k: nat | k < |ticks|
      ensures Decides(PollsAt(wired, start, ticks + more, k), (ticks + more)[k], deadline) ==
              Decides(PollsAt(wired, start, ticks, k), ticks[k], deadline)
    {
      ScheduleIgnoresLater(wired, start, ticks, more, k);
    }
  }

  // ---- the cadence --------------------------------------------------------------------

  /** The backoff after so many failures in a row. */
  function Ladder(failures: nat): real {
    if failures == 0 then 2.0 else if failures == 1 then 4.0 else if failures == 2 then 8.0 else 10.0
  }

  lemma {:induction false} BackoffIsLadder(wired: bool, start: real, ticks: seq<Tick>, n: nat)
    requires n <= |ticks|
    ensures ScheduleAt(wired, start, ticks, n).backoff == Ladder(ScheduleAt(wired, start, ticks, n).failures)
  {
    if n > 0 {
      BackoffIsLadder(wired, start, ticks, n - 1);
    }
  }

  /** Clock readings never go back, a poll takes no negative time, and jitter is within its bounds. */
  predicate IsTimely(ticks: seq<Tick>) {
    && (forall i | 0 <= i < |ticks| ::
          ticks[i].at <= ticks[i].polledAt && -PLATFORM_POLL_JITTER_SECONDS <= ticks[i].jitter <= PLATFORM_POLL_JITTER_SECONDS)
    && forall i, j | 0 <= i < j < |ticks| :: ticks[i].polledAt <= ticks[j].at
  }

  /** After a poll the schedule only changes at the next poll. */
  lemma {:induction false} NoPollBetween(wired: bool, start: real, ticks: seq<Tick>, i: nat, n: nat)
    requires i < n <= |ticks| && PollsAt(wired, start, ticks, i)
    requires forall k | i < k < n :: !PollsAt(wired, start, ticks, k)
    ensures ScheduleAt(wired, start, ticks, n) == Reschedule(ScheduleAt(wired, start, ticks, i), ticks[i])
    decreases n
  {
    if n > i + 1 {
      NoPollBetween(wired, start, ticks, i, n - 1);
      assert !PollsAt(wired, start, ticks, n - 1);
    }
  }

  /**
   The time between a poll and the next: never under 1.5 seconds; under an unbroken row of `f` failures at
   least the ladder's rung less the jitter; and a minute from the fifth failure on.
   */
  lemma PollSpacing(wired: bool, start: real, ticks: seq<Tick>, i: nat, j: nat)
    requires i < j < |ticks| && IsTimely(ticks)
    requires PollsAt(wired, start, ticks, i) && PollsAt(wired, start, ticks, j)
    requires forall k | i < k < j :: !PollsAt(wired, start, ticks, k)
    ensures
      var failures := ScheduleAt(wired, start, ticks, j).failures;
      var gap := ticks[j].at - ticks[i].polledAt;
      && 1.5 <= gap && Ladder(failures) - PLATFORM_POLL_JITTER_SECONDS <= gap
      && (failures >= PLATFORM_POLL_LATCH_THRESHOLD ==> PLATFORM_POLL_LATCH_SECONDS <= gap)
  {
    NoPollBetween(wired, start, ticks, i, j);
    BackoffIsLadder(wired, start, ticks, j);
  }

  /** A healthy platform is polled at the first tick `2.5` seconds or more after its last answer. */
  lemma HealthyPollIsPrompt(start: real, ticks: seq<Tick>, i: nat, j: nat)
    requires i < j < |ticks| && IsTimely(ticks) && PollsAt(true, start, ticks, i) && !ticks[i].platform.Failed?
    requires forall k | i < k < j :: !PollsAt(true, start, ticks, k)
    requires ticks[j].at >= ticks[i].polledAt + 2.5
    ensures PollsAt(true, start, ticks, j)
  {
    NoPollBetween(true, start, ticks, i, j);
  }

  /** The first tick polls at once. */
  lemma FirstTickPolls(start: real, ticks: seq<Tick>)
    requires ticks != [] && ticks[0].at >= start
    ensures PollsAt(true, start, ticks, 0)
  {
  }

  /**
   After `f` failures in a row the platform is polled again by the first tick a minute later from the fifth
   failure on, and before that by the first one the ladder's rung and the jitter later, ten seconds at most.
   */
  lemma PollIsPrompt(start: real, ticks: seq<Tick>, i: nat, j: nat)
    requires i < j < |ticks| && IsTimely(ticks) && PollsAt(true, start, ticks, i)
    requires forall k | i < k < j :: !PollsAt(true, start, ticks, k)
    requires var failures := ScheduleAt(true, start, ticks, j).failures;
      var rung := Ladder(failures) + PLATFORM_POLL_JITTER_SECONDS;
      ticks[j].at >= ticks[i].polledAt + (if failures >= 5 then 60.0 else if rung < 10.0 then rung else 10.0)
    ensures PollsAt(true, start, ticks, j)
  {
    NoPollBetween(true, start, ticks, i, j);
    BackoffIsLadder(true, start, ticks, j);
  }

  // ---- the trace and the store --------------------------------------------------------

  /** What a read of the store comes back with. */
  function ReadOf(s: State, id: Uuid): Answer {
    if id in s.contents.resolutions then Verdict(s.contents.resolutions[id]) else NoVerdict
  }

  /** Tick k's local read failed, or read the store as it was at `at[k]` of its run. */
  predicate ReadsFrom(states: seq<State>, id: Uuid, ticks: seq<Tick>, at: seq<nat>) {
    && |at| == |ticks|
    && (forall k | 0 <= k < |at| :: at[k] < |states|)
    && (forall j, k | 0 <= j < k < |at| :: at[j] <= at[k])
    && forall k | 0 <= k < |at| :: ReadsAt(states, id, ticks, at, k)
  }

  predicate ReadsAt(states: seq<State>, id: Uuid, ticks: seq<Tick>, at: seq<nat>, k: nat)
    requires k < |at| == |ticks|
  {
    at[k] < |states| && (ticks[k].local == Failed || ticks[k].local == ReadOf(states[at[k]], id))
  }

  /** Tick k's own read failed, or found the request unresolved. */
  predicate NothingSeen(states: seq<State>, id: Uuid, ticks: seq<Tick>, at: seq<nat>, k: nat)
    requires k < |ticks| == |at|
  {
    at[k] < |states| && (ticks[k].local == Failed || id !in states[at[k]].contents.resolutions)
  }

  /** The answer came from the platform: polled in a tick whose own local read showed no resolution. */
  predicate PlatformSaid(wired: bool, start: real, states: seq<State>, id: Uuid, ticks: seq<Tick>, at: seq<nat>,
                         i: nat, v: Resolution)
    requires i < |ticks| == |at|
  {
    && PollsAt(wired, start, ticks, i) && ticks[i].platform == Verdict(v)
    && NothingSeen(states, id, ticks, at, i)
  }

  /**
   Whatever ran beside it: an answer v is either the store's, for good, or the platform's. Until then no
   read that worked saw any resolution.
   */
  lemma AnsweredOnlyBy(wired: bool, start: real, states: seq<State>, steps: seq<Step>, id: Uuid, ticks: seq<Tick>, at: seq<nat>,
                   deadline: real, i: nat, v: Resolution, n: nat)
    requires IsRun(states, steps) && ReadsFrom(states, id, ticks, at)
    requires IsFirstDecision(wired, start, ticks, deadline, i, OfVerdict(v)) && at[i] <= n < |states|
    ensures Resolves(states[n], id, v) || PlatformSaid(wired, start, states, id, ticks, at, i, v)
    ensures forall j | 0 <= j < i :: NothingSeen(states, id, ticks, at, j) && ticks[j].endsAt < deadline
  {
    assert ReadsAt(states, id, ticks, at, i);
    if ticks[i].local.Verdict? {
      ResolvedForGood(states, steps, at[i], n, id);
    }
    forall j | 0 <= j < i ensures NothingSeen(states, id, ticks, at, j) && ticks[j].endsAt < deadline {
      assert ReadsAt(states, id, ticks, at, j);
      assert Decides(PollsAt(wired, start, ticks, j), ticks[j], deadline) == None;
    }
  }

  // ---- mirroring a platform verdict ---------------------------------------------------

  /**
   The mirror gave up after its first read at `read`, or went on to resolve: the steps at which that
   began, its hook ended, and it committed or was rolled back.
   */
  datatype Sync =
    | GaveUp(read: nat, readFailed: bool)
    | Resolved(read: nat, begin: nat, hook: nat, commit: nat)
  {
    /** When it last found out what the store held. */
    function Looked(): nat {
      if GaveUp? then read else begin
    }
  }

  /** A resolve that found the request pending, with the steps of other requests in between. */
  predicate ResolveRuns(steps: seq<Step>, id: Uuid, sync: Sync, end: nat)
    requires sync.Resolved?
  {
    && sync.begin < sync.hook < |steps| && Quiet(steps, id, sync.begin + 1, sync.hook)
    && (steps[sync.hook] == HookFails(id) ==> end == sync.hook + 1)
    && (steps[sync.hook] != HookFails(id) ==>
          && steps[sync.hook] == HookCompletes(id)
          && sync.hook < sync.commit < |steps| && Quiet(steps, id, sync.hook + 1, sync.commit)
          && (steps[sync.commit] == Committed(id) || steps[sync.commit] == RolledBack(id))
          && end == sync.commit + 1)
  }

  /** The mirroring of verdict v, as it ran among the store's other steps, until state `end`. */
  predicate SyncRuns(states: seq<State>, steps: seq<Step>, id: Uuid, v: Resolution, sync: Sync, end: nat) {
    && |states| == |steps| + 1 && sync.read < |states| && end < |states|
    && match sync
       case GaveUp(p, readFailed) => end == p && (readFailed || id !in states[p].contents.pending)
       case Resolved(p, q, _, _) =>
         && id in states[p].contents.pending && p <= q < |steps| && steps[q] == Begin(id, v)
         && (Refusal(states[q].contents, id).Some? ==> end == q + 1)
         && (Refusal(states[q].contents, id) == None ==> ResolveRuns(steps, id, sync, end))
  }

  /** It found the request pending when it resolved, its hook completed, and its commit went through. */
  predicate SyncCommits(states: seq<State>, steps: seq<Step>, id: Uuid, sync: Sync)
    requires |states| == |steps| + 1
  {
    && sync.Resolved? && sync.begin < |steps| && Refusal(states[sync.begin].contents, id) == None
    && sync.hook < |steps| && steps[sync.hook] == HookCompletes(id)
    && sync.commit < |steps| && steps[sync.commit] == Committed(id)
  }

  /** After it the store records the verdict exactly if the mirror committed it, or it was recorded already. */
  lemma SyncRecordsIff(states: seq<State>, steps: seq<Step>, id: Uuid, v: Resolution, sync: Sync, end: nat)
    requires IsRun(states, steps) && SyncRuns(states, steps, id, v, sync, end)
    ensures Resolves(states[end], id, v) <==> SyncCommits(states, steps, id, sync) || Resolves(states[sync.Looked()], id, v)
  {
    if sync.Resolved? {
      var q, h, c := sync.begin, sync.hook, sync.commit;
      RunKeepsInv(states, steps, q);
      assert StepAt(states, steps, q);
      if Refusal(states[q].contents, id) == None {
        QuietKeeps(states, steps, id, q + 1, h);
        assert StepAt(states, steps, h);
        if steps[h] == HookCompletes(id) {
          QuietKeeps(states, steps, id, h + 1, c);
          assert StepAt(states, steps, c);
        }
      }
    }
  }

  /** The store's first state an answer of tick i may have missed: what its own read saw, if it worked. */
  function Since(ticks: seq<Tick>, at: seq<nat>, i: nat): nat
    requires i < |ticks| == |at|
  {
    if ticks[i].local.Failed? then 0 else at[i]
  }

  /**
   The platform answers tick i, and the mirror runs after that tick's own read. From the mirror's end on
   the store agrees with the answer exactly if the mirror committed; or another caller's commit of the
   same verdict came between the read and the mirror's look; or the mirror failed and one came later.
   */
  lemma PlatformAnswerAgreesIff(wired: bool, start: real, states: seq<State>, steps: seq<Step>, id: Uuid,
                                ticks: seq<Tick>, at: seq<nat>, i: nat, v: Resolution, sync: Sync, end: nat, n: nat)
    requires IsRun(states, steps) && i < |ticks| == |at| && PlatformSaid(wired, start, states, id, ticks, at, i, v)
    requires SyncRuns(states, steps, id, v, sync, end) && at[i] <= sync.read && end <= n < |states|
    ensures Resolves(states[n], id, v) <==>
      || SyncCommits(states, steps, id, sync)
      || CommitsBetween(states, steps, id, v, Since(ticks, at, i), sync.Looked())
      || (id !in states[end].contents.resolutions && CommitsBetween(states, steps, id, v, end, n))
  {
    hide IsRun;
    hide SyncRuns;
    SyncRecordsIff(states, steps, id, v, sync, end);
    SyncLooks(states, steps, id, v, sync, end);
    Unresolved(wired, start, states, steps, id, ticks, at, i, v);
    ResolvedByCommit(states, steps, id, v, Since(ticks, at, i), sync.Looked());
    if id in states[end].contents.resolutions {
      ResolvedForGood(states, steps, end, n, id);
    } else {
      ResolvedByCommit(states, steps, id, v, end, n);
    }
  }

  lemma SyncLooks(states: seq<State>, steps: seq<Step>, id: Uuid, v: Resolution, sync: Sync, end: nat)
    requires SyncRuns(states, steps, id, v, sync, end)
    ensures sync.read <= sync.Looked() <= end && sync.Looked() <= |steps|
  {
  }

  lemma Unresolved(wired: bool, start: real, states: seq<State>, steps: seq<Step>, id: Uuid, ticks: seq<Tick>, at: seq<nat>,
                   i: nat, v: Resolution)
    requires IsRun(states, steps) && i < |ticks| == |at| && PlatformSaid(wired, start, states, id, ticks, at, i, v)
    ensures Since(ticks, at, i) <= at[i] < |states| && id !in states[Since(ticks, at, i)].contents.resolutions
  {
  }

  /** A wait answers with the platform's grant although the store denies: the denial got in before the mirror. */
  ghost predicate Disagrees(id: Uuid, states: seq<State>, steps: seq<Step>, ticks: seq<Tick>, at: seq<nat>, sync: Sync, end: nat) {
    && IsRun(states, steps) && ReadsFrom(states, id, ticks, at) && ticks != []
    && IsFirstDecision(true, 0.0, ticks, 1.0, |ticks| - 1, Approved)
    && PlatformSaid(true, 0.0, states, id, ticks, at, |ticks| - 1, Granted)
    && SyncRuns(states, steps, id, Granted, sync, end) && at[|ticks| - 1] <= sync.read
    && Resolves(states[end], id, Denied)
  }

  /** A request is opened and denied; a late grant is refused. */
  lemma DeniedFirst(request: Request) returns (states: seq<State>, steps: seq<Step>)
    ensures IsRun(states, steps) && |steps| == 5 && |states| == 6
    ensures steps[4] == Begin(request.requestId, Granted)
    ensures request.requestId in states[1].contents.pending && request.requestId !in states[1].contents.resolutions
    ensures Resolves(states[4], request.requestId, Denied) && Resolves(states[5], request.requestId, Denied)
  {
    var id := request.requestId;
    steps := [Open(request), Begin(id, Denied), HookCompletes(id), Committed(id), Begin(id, Granted)];
    var s1 := Apply(START, steps[0]);
    var s2 := Apply(s1, steps[1]);
    var s3 := Apply(s2, steps[2]);
    var s4 := Apply(s3, steps[3]);
    states := [START, s1, s2, s3, s4, Apply(s4, steps[4])];
    assert StepAt(states, steps, 0) && StepAt(states, steps, 1) && StepAt(states, steps, 2);
    assert StepAt(states, steps, 3) && StepAt(states, steps, 4);
  }

  lemma PlatformAnswerMayDisagree(request: Request)
    ensures exists states, steps, ticks, at, sync, end :: Disagrees(request.requestId, states, steps, ticks, at, sync, end)
  {
    hide IsRun;
    var id := request.requestId;
    var states, steps := DeniedFirst(request);
    var ticks := [Tick(NoVerdict, 0.0, Verdict(Granted), 0.0, 0.0, 0.0)];
    var sync := Resolved(1, 4, 0, 0);
    assert ReadsAt(states, id, ticks, [1], 0);
    assert SyncRuns(states, steps, id, Granted, sync, 5);
    assert Disagrees(id, states, steps, ticks, [1], sync, 5);
  }
}
