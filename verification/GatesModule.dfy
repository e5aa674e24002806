/** `GatesModule`: opening approval requests, resolving them by token, and mirroring platform verdicts. */
module GatesModule {
  import opened Wrappers
  import opened Records
  import opened Tokens
  import opened GatesStore

  datatype GateError =
    | AgentHalted
    | BadToken(token: TokenError)
    | ActionHashMismatch
    | Refused(store: ResolveError)

  function ApprovalOf(r: Request): Approval {
    Approval(r.requestId, r.actionHash, r.expiresAt)
  }

  /** The request a token may resolve now, or why it may not. */
  function TokenAdmits(w: World, secret: Secret, acceptV1Until: Option<Timestamp>, c: Contents, token: string,
                       now: Timestamp): Result<Uuid, GateError>
    requires forall key :: |w.fingerprint(key)| >= KEY_PREFIX_LEN
  {
    match ParseToken(w, secret, token, acceptV1Until, now)
    case Err(e) => Err(BadToken(e))
    case Ok(a) =>
      if a.requestId in c.pending && c.pending[a.requestId].actionHash != a.actionHash then Err(ActionHashMismatch)
      else
        match Refusal(c, a.requestId)
        case Some(e) => Err(Refused(e))
        case None => Ok(a.requestId)
  }

  /** A pending request's own token resolves it exactly until it expires (and, untagged, until the sunset). */
  lemma IssuedTokenAdmitsIff(w: World, secret: Secret, acceptV1Until: Option<Timestamp>, c: Contents, r: Request,
                             useV2: bool, now: Timestamp)
    requires w.IsSane() && Inv(c) && NoColon(r.actionHash)
    requires r.requestId in c.pending && c.pending[r.requestId] == r
    ensures TokenAdmits(w, secret, acceptV1Until, c, MakeToken(w, secret, ApprovalOf(r), useV2), now) == Ok(r.requestId) <==>
      now <= r.expiresAt && (useV2 || acceptV1Until == None || now <= acceptV1Until.value)
  {
    hide ParseToken;
    RoundTripIff(w, secret, ApprovalOf(r), useV2, acceptV1Until, now);
    var token := MakeToken(w, secret, ApprovalOf(r), useV2);
    assert r.requestId !in c.resolutions;
    if !(now <= r.expiresAt && (useV2 || acceptV1Until == None || now <= acceptV1Until.value)) {
      ExpiredMinted(w, secret, ApprovalOf(r), useV2, acceptV1Until, now);
    }
  }

  /** A minted token past its time does not parse at all. */
  lemma ExpiredMinted(w: World, secret: Secret, a: Approval, useV2: bool, acceptV1Until: Option<Timestamp>, now: Timestamp)
    requires w.IsSane() && NoColon(a.actionHash)
    requires now > a.expiresAt || (!useV2 && acceptV1Until.Some? && now > acceptV1Until.value)
    ensures ParseToken(w, secret, MakeToken(w, secret, a, useV2), acceptV1Until, now).Err?
  {
    ParseMinted(w, secret, secret, a, useV2, acceptV1Until, now);
    FieldsRoundTrip(w, secret, a, useV2, now);
    FormatsDiffer(w, secret, a, useV2);
  }

  /**
   Once a request is resolved, then at every later point of any run no token resolves it again, whichever
   key or format it comes with and whenever it is shown: one that parses is refused as already used.
   */
  lemma SingleUse(states: seq<State>, steps: seq<Step>, i: nat, j: nat, w: World, secret: Secret,
                  acceptV1Until: Option<Timestamp>, token: string, now: Timestamp, id: Uuid)
    requires IsRun(states, steps) && i <= j < |states| && id in states[i].contents.resolutions && w.IsSane()
    ensures var admitted := TokenAdmits(w, secret, acceptV1Until, states[j].contents, token, now);
            var parsed := ParseToken(w, secret, token, acceptV1Until, now);
      && admitted != Ok(id)
      && (parsed.Ok? && parsed.value.requestId == id ==> admitted == Err(Refused(AlreadyUsed)))
  {
    hide ParseToken;
    ResolvedForGood(states, steps, i, j, id);
    RunKeepsInv(states, steps, j);
  }

  class Module {
    const world: World
    const secret: Secret
    const useV2: bool
    const acceptV1Until: Option<Timestamp>
    const defaultExpiresIn: nat
    const store: InMemoryGatesStore

    ghost predicate Valid()
      reads this, store
    {
      world.IsSane() && store.Valid()
    }

    constructor (world: World, secret: Secret, useV2: bool, acceptV1Until: Option<Timestamp>, defaultExpiresIn: nat,
                 store: InMemoryGatesStore)
      requires world.IsSane() && store.Valid()
      ensures Valid() && this.store == store && this.secret == secret && this.useV2 == useV2 && this.world == world
      ensures this.acceptV1Until == acceptV1Until && this.defaultExpiresIn == defaultExpiresIn
    {
      this.world, this.secret, this.useV2, this.acceptV1Until := world, secret, useV2, acceptV1Until;
      this.defaultExpiresIn, this.store := defaultExpiresIn, store;
    }

    /** A zero lifetime means the default one. A store that is down loses the request, not the call. */
    method OpenRequest(id: Uuid, kind: string, agentId: string, actionHash: string, expiresIn: Option<int>,
                       now: Timestamp, halted: bool, storeDown: bool) returns (r: Result<(Request, string), GateError>)
      requires Valid() && id !in store.resolutions
      modifies store
      ensures Valid()
      ensures halted ==> r == Err(AgentHalted) && store.State() == old(store.State())
      ensures !halted ==>
        && r.Ok? && var (request, token) := r.value;
        && request.expiresAt == now + (if expiresIn.Some? && expiresIn.value != 0 then expiresIn.value else defaultExpiresIn)
        && request == Request(id, agentId, kind, actionHash, request.expiresAt)
        && store.State() == (if storeDown then old(store.State()) else Insert(old(store.State()), request))
        && forall later :: !storeDown && NoColon(actionHash) ==>
             (TokenAdmits(world, secret, acceptV1Until, store.State(), token, later) == Ok(id) <==>
              later <= request.expiresAt && (useV2 || acceptV1Until == None || later <= acceptV1Until.value))
    {
      if halted {
        return Err(AgentHalted);
      }
      var lifetime := if expiresIn.Some? && expiresIn.value != 0 then expiresIn.value else defaultExpiresIn;
      var request := Request(id, agentId, kind, actionHash, now + lifetime);
      var token := MakeToken(world, secret, ApprovalOf(request), useV2);
      if !storeDown {
        store.InsertPending(request);
        if NoColon(actionHash) {
          hide TokenAdmits;
          forall later
            ensures TokenAdmits(world, secret, acceptV1Until, store.State(), token, later) == Ok(id) <==>
              later <= request.expiresAt && (useV2 || acceptV1Until == None || later <= acceptV1Until.value)
          {
            IssuedTokenAdmitsIff(world, secret, acceptV1Until, store.State(), request, useV2, later);
          }
        }
      }
      return Ok((request, token));
    }

    /** `grant` and `deny`: resolves the request a token admits; every failure leaves the store as it was. */
    method ResolveByToken(token: string, granted: bool, now: Timestamp, hookRaises: bool) returns (r: Result<Uuid, GateError>)
      requires Valid()
      modifies store
      ensures Valid()
      ensures
        var admitted := TokenAdmits(world, secret, acceptV1Until, old(store.State()), token, now);
        r == if admitted.Ok? && hookRaises then Err(Refused(HookRaised)) else admitted
      ensures r.Err? ==> store.State() == old(store.State())
      ensures var parsed := ParseToken(world, secret, token, acceptV1Until, now);
        && (r.Ok? ==> parsed.Ok? && parsed.value.requestId == r.value && r.value in old(store.pending)
                      && old(store.pending)[r.value].actionHash == parsed.value.actionHash)
        && (r == Err(ActionHashMismatch) <==>
              parsed.Ok? && parsed.value.requestId in old(store.pending)
              && old(store.pending)[parsed.value.requestId].actionHash != parsed.value.actionHash)
      ensures r.Ok? ==>
        && r.value in old(store.pending) && store.pending == old(store.pending) - {r.value}
        && store.resolutions == old(store.resolutions)[r.value := if granted then Granted else Denied]
        && store.State() == Commit(RunHook(old(store.State()), r.value, if granted then Granted else Denied),
                                   r.value, if granted then Granted else Denied)
    {
      hide ParseToken;
      var parsed := ParseToken(world, secret, token, acceptV1Until, now);
      if parsed.Err? {
        return Err(BadToken(parsed.error));
      }
      var a := parsed.value;
      var pending := store.GetPending(a.requestId);
      if pending.Some? && pending.value.actionHash != a.actionHash {
        return Err(ActionHashMismatch);
      }
      var resolved := store.Resolve(a.requestId, if granted then Granted else Denied, hookRaises);
      match resolved {
        case Err(e) => return Err(Refused(e));
        case Ok(_) => return Ok(a.requestId);
      }
    }

    /** Mirrors a platform verdict if the request is still pending; every failure is swallowed. */
    method SyncPlatformResolution(id: Uuid, verdict: Resolution, readFails: bool, hookRaises: bool)
      requires Valid()
      modifies store
      ensures Valid()
      ensures store.State() ==
        if readFails || hookRaises || id !in old(store.pending) then old(store.State())
        else Commit(RunHook(old(store.State()), id, verdict), id, verdict)
    {
      if readFails {
        return;
      }
      var pending := store.GetPending(id);
      if pending == None {
        return;
      }
      assert id !in store.resolutions;
      var _ := store.Resolve(id, verdict, hookRaises);
    }
  }
}
