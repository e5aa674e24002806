/**
 `InMemoryGatesStore` and every interleaving of its callers.

 A request is pending until it is resolved, once. The `on_commit` hook (the audit row) runs while the
 store's lock, or the database transaction, is held, before the resolution becomes visible.
 */
module GatesStore {
  import opened Wrappers
  import opened Records

  datatype Resolution = Granted | Denied

  datatype Request = Request(requestId: Uuid, agentId: string, kind: string, actionHash: string, expiresAt: Timestamp)

  datatype ResolveError = AlreadyUsed | UnknownRequest | HookRaised

  /** A hook that ran to its end. */
  datatype HookRun = HookRun(request: Request, resolution: Resolution)

  /** The store's three dictionaries, and the hooks completed so far. */
  datatype Contents = Contents(
    pending: map<Uuid, Request>, resolutions: map<Uuid, Resolution>, resolvedRequests: map<Uuid, Request>,
    hooks: seq<HookRun>)

  const EMPTY := Contents(map[], map[], map[], [])

  /** A resolution whose own hook has completed. */
  predicate IsBacked(c: Contents, id: Uuid)
    requires id in c.resolutions && id in c.resolvedRequests
  {
    HookRun(c.resolvedRequests[id], c.resolutions[id]) in c.hooks
  }

  predicate Inv(c: Contents) {
    && c.pending.Keys !! c.resolutions.Keys
    && c.resolutions.Keys == c.resolvedRequests.Keys
    && (forall id | id in c.pending :: c.pending[id].requestId == id)
    && (forall id | id in c.resolvedRequests :: c.resolvedRequests[id].requestId == id)
    && forall id | id in c.resolutions :: IsBacked(c, id)
  }

  function Insert(c: Contents, r: Request): Contents {
    c.(pending := c.pending[r.requestId := r])
  }

  /** The checks made before the hook runs. */
  function Refusal(c: Contents, id: Uuid): Option<ResolveError> {
    if id in c.resolutions then Some(AlreadyUsed) else if id !in c.pending then Some(UnknownRequest) else None
  }

  /** The visible change, made after the hook. */
  function Commit(c: Contents, id: Uuid, resolution: Resolution): Contents
    requires id in c.pending
  {
    c.(pending := c.pending - {id}, resolutions := c.resolutions[id := resolution],
       resolvedRequests := c.resolvedRequests[id := c.pending[id]])
  }

  function RunHook(c: Contents, id: Uuid, resolution: Resolution): Contents
    requires id in c.pending
  {
    c.(hooks := c.hooks + [HookRun(c.pending[id], resolution)])
  }

  lemma CommitKeepsInv(c: Contents, id: Uuid, resolution: Resolution)
    requires Inv(c) && id in c.pending && HookRun(c.pending[id], resolution) in c.hooks
    ensures Inv(Commit(c, id, resolution))
  {
    var after := Commit(c, id, resolution);
    forall other | other in after.resolutions ensures IsBacked(after, other) {
      assert other != id ==> IsBacked(c, other);
    }
  }

  lemma HookKeepsInv(c: Contents, id: Uuid, resolution: Resolution)
    requires Inv(c) && id in c.pending
    ensures Inv(RunHook(c, id, resolution))
  {
    var after := RunHook(c, id, resolution);
    forall other | other in after.resolutions ensures IsBacked(after, other) {
      assert IsBacked(c, other);
    }
  }

  class InMemoryGatesStore {
    var pending: map<Uuid, Request>
    var resolutions: map<Uuid, Resolution>
    var resolvedRequests: map<Uuid, Request>
    ghost var hooks: seq<HookRun>

    ghost function State(): Contents
      reads this
    {
      Contents(pending, resolutions, resolvedRequests, hooks)
    }

    ghost predicate Valid()
      reads this
    {
      Inv(State())
    }

    constructor ()
      ensures Valid() && State() == EMPTY
    {
      pending, resolutions, resolvedRequests, hooks := map[], map[], map[], [];
    }

    /** An id that was resolved before would be pending and resolved at once; ids are drawn fresh. */
    method InsertPending(request: Request)
      requires Valid()
      modifies this`pending
      ensures State() == Insert(old(State()), request)
      ensures Valid() <==> request.requestId !in resolutions
    {
      pending := pending[request.requestId := request];
      assert State().resolutions == old(State()).resolutions;
      if request.requestId !in resolutions {
        forall id | id in resolutions ensures IsBacked(State(), id) {
          assert IsBacked(old(State()), id);
        }
      } else {
        assert request.requestId in pending.Keys * resolutions.Keys;
      }
    }

    method GetPending(id: Uuid) returns (request: Option<Request>)
      ensures request == if id in pending then Some(pending[id]) else None
    {
      request := if id in pending then Some(pending[id]) else None;
    }

    /** An answer is backed by the hook of a resolved request; without one the request is open or unknown. */
    method GetResolution(id: Uuid) returns (resolution: Option<Resolution>)
      requires Valid()
      ensures resolution.Some? ==>
        && id !in pending && id in resolvedRequests && resolvedRequests[id].requestId == id
        && HookRun(resolvedRequests[id], resolution.value) in hooks && Some(resolutions[id]) == resolution
      ensures resolution == None <==>
        id !in resolvedRequests && Refusal(State(), id) == (if id in pending then None else Some(UnknownRequest))
    {
      if id in resolutions {
        assert IsBacked(State(), id) && id !in pending.Keys * resolutions.Keys;
      }
      resolution := if id in resolutions then Some(resolutions[id]) else None;
    }

    /** Resolves a pending request once; a refused call or a raising hook changes nothing. */
    method Resolve(id: Uuid, resolution: Resolution, hookRaises: bool) returns (r: Result<Request, ResolveError>)
      requires Valid()
      modifies this
      ensures Valid()
      ensures r == match Refusal(old(State()), id)
                   case Some(e) => Err(e)
                   case None => if hookRaises then Err(HookRaised) else Ok(old(pending)[id])
      ensures r.Err? ==> State() == old(State())
      ensures r.Ok? ==>
        && resolutions == old(resolutions)[id := resolution] && pending == old(pending) - {id}
        && resolvedRequests == old(resolvedRequests)[id := r.value]
        && hooks == old(hooks) + [HookRun(r.value, resolution)]
    {
      if id in resolutions {
        return Err(AlreadyUsed);
      }
      if id !in pending {
        return Err(UnknownRequest);
      }
      if hookRaises {
        return Err(HookRaised);
      }
      var request := pending[id];
      HookKeepsInv(State(), id, resolution);
      hooks := hooks + [HookRun(request, resolution)];
      CommitKeepsInv(State(), id, resolution);
      resolutions := resolutions[id := resolution];
      resolvedRequests := resolvedRequests[id := request];
      pending := pending - {id};
      return Ok(request);
    }

    /** A granted approval of the agent that has not expired. */
    ghost predicate Approves(id: Uuid, agentId: string, now: Timestamp)
      reads this
    {
      && id in resolutions && resolutions[id] == Granted && id in resolvedRequests
      && resolvedRequests[id].agentId == agentId && resolvedRequests[id].expiresAt > now
    }

    method HasGrantedApproval(agentId: string, now: Timestamp) returns (found: bool)
      ensures found <==> exists id :: Approves(id, agentId, now)
    {
      var left := resolutions.Keys;
      while left != {}
        invariant left <= resolutions.Keys
        invariant forall id | id in resolutions.Keys - left :: !Approves(id, agentId, now)
        decreases left
      {
        var id :| id in left;
        if resolutions[id] == Granted && id in resolvedRequests && resolvedRequests[id].agentId == agentId
           && resolvedRequests[id].expiresAt > now
        {
          assert Approves(id, agentId, now);
          return true;
        }
        left := left - {id};
      }
      assert resolutions.Keys - left == resolutions.Keys;
      return false;
    }
  }

  // ---- every interleaving -------------------------------------------------------------

  /** A resolution whose hook is running or has just completed, inside the lock or transaction. */
  datatype Resolving = Resolving(resolution: Resolution, hookDone: bool)

  /** A request is resolved by one caller at a time; Postgres lets callers resolve different requests at once. */
  datatype State = State(contents: Contents, busy: map<Uuid, Resolving>)

  const START := State(EMPTY, map[])

  /** `RolledBack`: the database fails to commit although the hook completed. The in-memory store cannot. */
  datatype Step =
    | Open(request: Request)
    | Begin(id: Uuid, resolution: Resolution)
    | HookCompletes(id: Uuid)
    | HookFails(id: Uuid)
    | Committed(id: Uuid)
    | RolledBack(id: Uuid)
  {
    /** The request the step is about. */
    function Of(): Uuid {
      if Open? then request.requestId else id
    }
  }

  predicate Enabled(s: State, step: Step) {
    match step
    case Open(r) => r.requestId !in s.contents.pending && r.requestId !in s.contents.resolutions
    case Begin(id, _) => id !in s.busy
    case HookCompletes(id) => id in s.busy && !s.busy[id].hookDone && id in s.contents.pending
    case HookFails(id) => id in s.busy && !s.busy[id].hookDone
    case Committed(id) => id in s.busy && s.busy[id].hookDone && id in s.contents.pending
    case RolledBack(id) => id in s.busy && s.busy[id].hookDone
  }

  function Apply(s: State, step: Step): State
    requires Enabled(s, step)
  {
    match step
    case Open(r) => s.(contents := Insert(s.contents, r))
    case Begin(id, resolution) =>
      if Refusal(s.contents, id).Some? then s else s.(busy := s.busy[id := Resolving(resolution, false)])
    case HookCompletes(id) =>
      State(RunHook(s.contents, id, s.busy[id].resolution), s.busy[id := s.busy[id].(hookDone := true)])
    case HookFails(id) => s.(busy := s.busy - {id})
    case Committed(id) => State(Commit(s.contents, id, s.busy[id].resolution), s.busy - {id})
    case RolledBack(id) => s.(busy := s.busy - {id})
  }

  predicate StepAt(states: seq<State>, steps: seq<Step>, i: nat)
    requires i < |steps| && |states| == |steps| + 1
  {
    Enabled(states[i], steps[i]) && states[i + 1] == Apply(states[i], steps[i])
  }

  predicate IsRun(states: seq<State>, steps: seq<Step>) {
    && |states| == |steps| + 1 && states[0] == START
    && forall i | 0 <= i < |steps| :: StepAt(states, steps, i)
  }

  /** A request being resolved is pending, and if the hook is done it ran for this request and resolution. */
  predicate BusyWith(s: State, id: Uuid)
    requires id in s.busy
  {
    && id in s.contents.pending
    && (s.busy[id].hookDone ==> HookRun(s.contents.pending[id], s.busy[id].resolution) in s.contents.hooks)
  }

  predicate RunInv(s: State) {
    Inv(s.contents) && forall id | id in s.busy :: BusyWith(s, id)
  }

  lemma StepKeepsInv(s: State, step: Step)
    requires RunInv(s) && Enabled(s, step)
    ensures RunInv(Apply(s, step))
  {
    var after := Apply(s, step);
    StepKeepsContents(s, step);
    hide Inv;
    forall id | id in after.busy ensures BusyWith(after, id) {
      assert id in s.busy ==> BusyWith(s, id);
      StepKeepsBusy(s, step, id);
    }
  }

  lemma StepKeepsContents(s: State, step: Step)
    requires RunInv(s) && Enabled(s, step)
    ensures Inv(Apply(s, step).contents)
  {
    match step
    case Open(r) =>
      forall id | id in s.contents.resolutions ensures IsBacked(Insert(s.contents, r), id) {
        assert IsBacked(s.contents, id);
      }
    case HookCompletes(id) => HookKeepsInv(s.contents, id, s.busy[id].resolution);
    case Committed(id) =>
      assert BusyWith(s, id);
      CommitKeepsInv(s.contents, id, s.busy[id].resolution);
    case _ =>
  }

  lemma StepKeepsBusy(s: State, step: Step, id: Uuid)
    requires Enabled(s, step) && id in Apply(s, step).busy && (id in s.busy ==> BusyWith(s, id))
    ensures BusyWith(Apply(s, step), id)
  {
  }

  /** Pending and resolved stay apart, and whatever is visible as resolved has had its hook completed. */
  lemma {:induction false} RunKeepsInv(states: seq<State>, steps: seq<Step>, n: nat)
    requires IsRun(states, steps) && n < |states|
    ensures RunInv(states[n])
  {
    if n > 0 {
      RunKeepsInv(states, steps, n - 1);
      assert StepAt(states, steps, n - 1);
      StepKeepsInv(states[n - 1], steps[n - 1]);
    }
  }

  /** A resolution, once visible, is never changed or withdrawn. */
  lemma {:induction false} ResolvedForGood(states: seq<State>, steps: seq<Step>, i: nat, j: nat, id: Uuid)
    requires IsRun(states, steps) && i <= j < |states| && id in states[i].contents.resolutions
    ensures id in states[j].contents.resolutions
    ensures states[j].contents.resolutions[id] == states[i].contents.resolutions[id]
    decreases j - i
  {
    if i < j {
      RunKeepsInv(states, steps, j - 1);
      assert StepAt(states, steps, j - 1);
      ResolvedForGood(states, steps, i, j - 1, id);
    }
  }

  /** A request stays open and resolvable until its resolution is committed, however many attempts fail. */
  lemma {:induction false} OpenUntilResolved(states: seq<State>, steps: seq<Step>, i: nat, j: nat, id: Uuid)
    requires IsRun(states, steps) && i <= j < |states| && id in states[i].contents.pending
    ensures id in states[j].contents.resolutions || Refusal(states[j].contents, id) == None
    decreases j - i
  {
    if i < j {
      OpenUntilResolved(states, steps, i, j - 1, id);
      RunKeepsInv(states, steps, j - 1);
      RunKeepsInv(states, steps, j);
      assert StepAt(states, steps, j - 1);
    } else {
      RunKeepsInv(states, steps, i);
    }
  }

  // ---- the steps of one request among the others --------------------------------------

  /** What the steps of other requests leave alone. */
  predicate SameFor(s: State, t: State, id: Uuid) {
    && (id in s.busy <==> id in t.busy) && (id in s.busy ==> s.busy[id] == t.busy[id])
    && (id in s.contents.pending <==> id in t.contents.pending)
    && (id in s.contents.resolutions <==> id in t.contents.resolutions)
    && (id in s.contents.resolutions ==> s.contents.resolutions[id] == t.contents.resolutions[id])
  }

  predicate Quiet(steps: seq<Step>, id: Uuid, i: nat, j: nat)
    requires j <= |steps|
  {
    forall k | i <= k < j :: steps[k].Of() != id
  }

  lemma OthersLeaveAlone(s: State, step: Step, id: Uuid)
    requires Enabled(s, step) && step.Of() != id
    ensures SameFor(s, Apply(s, step), id)
  {
  }

  lemma {:induction false} QuietKeeps(states: seq<State>, steps: seq<Step>, id: Uuid, i: nat, j: nat)
    requires IsRun(states, steps) && i <= j < |states| && Quiet(steps, id, i, j)
    ensures SameFor(states[i], states[j], id)
    decreases j - i
  {
    if i < j {
      QuietKeeps(states, steps, id, i, j - 1);
      assert StepAt(states, steps, j - 1);
      OthersLeaveAlone(states[j - 1], steps[j - 1], id);
    }
  }

  /** The store resolves the request this way. */
  predicate Resolves(s: State, id: Uuid, v: Resolution) {
    id in s.contents.resolutions && s.contents.resolutions[id] == v
  }

  /** Step k makes the resolution of the request visible, as v. */
  predicate CommitsAt(states: seq<State>, steps: seq<Step>, id: Uuid, v: Resolution, k: nat)
    requires k < |steps| && |states| == |steps| + 1
  {
    steps[k] == Committed(id) && id in states[k].busy && states[k].busy[id].resolution == v
  }

  predicate CommitsBetween(states: seq<State>, steps: seq<Step>, id: Uuid, v: Resolution, i: nat, j: nat)
    requires j <= |steps| && |states| == |steps| + 1
  {
    exists k | i <= k < j :: CommitsAt(states, steps, id, v, k)
  }

  /** A request not yet resolved is resolved later exactly if a commit of that resolution came between. */
  lemma {:induction false} ResolvedByCommit(states: seq<State>, steps: seq<Step>, id: Uuid, v: Resolution, i: nat, j: nat)
    requires IsRun(states, steps) && i <= j < |states| && id !in states[i].contents.resolutions
    ensures Resolves(states[j], id, v) <==> CommitsBetween(states, steps, id, v, i, j)
    decreases j - i
  {
    if i < j {
      ResolvedByCommit(states, steps, id, v, i, j - 1);
      RunKeepsInv(states, steps, j - 1);
      assert StepAt(states, steps, j - 1);
      ResolvedByStep(states[j - 1], steps[j - 1], id, v);
      assert CommitsBetween(states, steps, id, v, i, j) <==>
        CommitsBetween(states, steps, id, v, i, j - 1) || CommitsAt(states, steps, id, v, j - 1);
    }
  }

  lemma ResolvedByStep(s: State, step: Step, id: Uuid, v: Resolution)
    requires RunInv(s) && Enabled(s, step)
    ensures Resolves(Apply(s, step), id, v) <==>
      Resolves(s, id, v) || (step == Committed(id) && s.busy[id].resolution == v)
  {
  }

  // ---- one hook per resolution --------------------------------------------------------

  function HooksFor(hooks: seq<HookRun>, id: Uuid): nat {
    if hooks == [] then 0
    else HooksFor(hooks[..|hooks| - 1], id) + (if hooks[|hooks| - 1].request.requestId == id then 1 else 0)
  }

  /** How many hooks of a request are accounted for by its resolution and by the commit under way. */
  function HooksDue(s: State, id: Uuid): nat {
    if id in s.contents.resolutions then 1
    else if id in s.busy && s.busy[id].hookDone then 1
    else 0
  }

  /** Hooks of a request that ran before a rollback. */
  function RollBacks(steps: seq<Step>, n: nat, id: Uuid): nat
    requires n <= |steps|
  {
    if n == 0 then 0 else RollBacks(steps, n - 1, id) + (if steps[n - 1] == RolledBack(id) then 1 else 0)
  }

  /** One hook per resolution, plus one for every commit that was rolled back after its hook: no other. */
  lemma {:induction false} HooksAreExact(states: seq<State>, steps: seq<Step>, n: nat, id: Uuid)
    requires IsRun(states, steps) && n < |states|
    ensures HooksFor(states[n].contents.hooks, id) == HooksDue(states[n], id) + RollBacks(steps, n, id)
  {
    if n > 0 {
      HooksAreExact(states, steps, n - 1, id);
      RunKeepsInv(states, steps, n - 1);
      assert StepAt(states, steps, n - 1);
      StepAccountsForHooks(states[n - 1], steps[n - 1], id);
    }
  }

  lemma StepAccountsForHooks(s: State, step: Step, id: Uuid)
    requires RunInv(s) && Enabled(s, step)
    ensures
      var after := Apply(s, step);
      HooksFor(after.contents.hooks, id) - HooksDue(after, id) ==
      HooksFor(s.contents.hooks, id) - HooksDue(s, id) + (if step == RolledBack(id) then 1 else 0)
  {
    hide IsBacked;
    assert id in s.busy ==> BusyWith(s, id);
    if step.HookCompletes? {
      var before, after := s.contents.hooks, Apply(s, step).contents.hooks;
      assert BusyWith(s, step.id);
      assert after[..|after| - 1] == before;
    }
  }
}
