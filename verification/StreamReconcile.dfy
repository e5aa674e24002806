/**
 Token accounting of one streamed call (`openai_wrap`): the projection is tracked when the stream
 starts, and once it is over the excess of what the provider reported, or of an estimate, is added.

 The proxy around the stream may be iterated more than once and by both protocols, its iteration may
 end cleanly or be torn down, a reconciliation may be spawned to run later, and the proxy may be
 garbage-collected at any point.
 */
module StreamReconcile {
  import opened Wrappers
  import opened CostModule

  const STREAM_CHUNK_TOKEN_ESTIMATE := 8

  /** The `usage` block of a chunk; a provider may leave fields out. */
  datatype ChunkUsage = ChunkUsage(prompt: Option<int>, completion: Option<int>, total: Option<int>)

  function ExtractChunkUsage(usage: Option<ChunkUsage>): Option<ChunkUsage> {
    if usage == None || usage == Some(ChunkUsage(None, None, None)) then None
    else
      var u := usage.value;
      if u.total == None && u.prompt.Some? && u.completion.Some?
      then Some(u.(total := Some(u.prompt.value + u.completion.value)))
      else Some(u)
  }

  /** What is kept of a block: its fields, the total being the sum of the others where only it is missing. */
  lemma ExtractedFields(prompt: Option<int>, completion: Option<int>, total: Option<int>)
    ensures var block := Some(ChunkUsage(prompt, completion, total));
      match ExtractChunkUsage(block)
      case None => prompt == None && completion == None && total == None
      case Some(kept) =>
        && kept.prompt == prompt && kept.completion == completion
        && (total.Some? ==> kept.total == total)
        && (total == None && prompt.Some? && completion.Some? ==> kept.total == Some(prompt.value + completion.value))
        && (total == None && (prompt == None || completion == None) ==>
              kept.total == None && (prompt.Some? || completion.Some?))
    ensures ExtractChunkUsage(None) == None
  {
  }

  /** The caller's `max_tokens` if positive, else the SDK's default. */
  function ResolveProjectedTokens(maxTokens: Option<int>, default: Option<int>): Option<int> {
    if maxTokens.Some? && maxTokens.value > 0 then maxTokens else default
  }

  function Max(a: int, b: int): int {
    if a >= b then a else b
  }

  // ---- what should be recorded, from the stream's whole history ------------------------

  datatype Event =
    | Chunk(usage: Option<ChunkUsage>)
    | Spawn(torn: bool)
    | Reconcile(torn: bool, writeFails: bool)
    | Collected
  {
    /** Whichever of these comes first decides what is recorded. */
    predicate Settles() {
      Reconcile? || Collected?
    }
  }

  function ChunksSeen(history: seq<Event>): nat {
    if history == [] then 0
    else ChunksSeen(history[..|history| - 1]) + (if history[|history| - 1].Chunk? then 1 else 0)
  }

  /** The usage of the last chunk that carried any. */
  function LastUsage(history: seq<Event>): Option<ChunkUsage> {
    if history == [] then None
    else
      var event := history[|history| - 1];
      if event.Chunk? && ExtractChunkUsage(event.usage).Some? then ExtractChunkUsage(event.usage)
      else LastUsage(history[..|history| - 1])
  }

  /** Event i is a chunk with usage, and no later chunk carries any. */
  predicate IsLastReport(history: seq<Event>, i: nat) {
    && i < |history| && history[i].Chunk? && ExtractChunkUsage(history[i].usage).Some?
    && forall j | i < j < |history| :: history[j].Chunk? ==> ExtractChunkUsage(history[j].usage) == None
  }

  lemma {:induction false} LastUsageIsLast(history: seq<Event>)
    ensures forall i: nat | IsLastReport(history, i) :: LastUsage(history) == ExtractChunkUsage(history[i].usage)
    ensures LastUsage(history) == None <==>
      forall i | 0 <= i < |history| :: history[i].Chunk? ==> ExtractChunkUsage(history[i].usage) == None
  {
    if history != [] {
      var init := history[..|history| - 1];
      hide ExtractChunkUsage;
      LastUsageIsLast(init);
      assert forall i | 0 <= i < |init| :: init[i] == history[i];
      forall i: nat | IsLastReport(history, i) ensures LastUsage(history) == ExtractChunkUsage(history[i].usage) {
        if i < |init| {
          assert IsLastReport(init, i);
        }
      }
    }
  }

  lemma {:induction false} ChunksSeenCounts(history: seq<Event>)
    ensures ChunksSeen(history) == |set i: nat | i < |history| && history[i].Chunk?|
  {
    if history != [] {
      var n := |history| - 1;
      ChunksSeenCounts(history[..n]);
      assert (set i: nat | i < |history| && history[i].Chunk?) ==
        (set i: nat | i < n && history[..n][i].Chunk?) + (if history[n].Chunk? then {n} else {});
    }
  }

  /** The position of the first settling event, or the length of the history. */
  function FirstSettling(history: seq<Event>): (k: nat)
    ensures k <= |history|
    ensures k < |history| ==> history[k].Settles()
  {
    if history == [] then 0
    else
      var k := FirstSettling(history[..|history| - 1]);
      if k < |history| - 1 || history[|history| - 1].Settles() then k else |history|
  }

  lemma {:induction false} NothingSettlesBefore(history: seq<Event>, i: nat)
    requires i < FirstSettling(history)
    ensures !history[i].Settles()
  {
    if i < |history| - 1 {
      NothingSettlesBefore(history[..|history| - 1], i);
    }
  }

  /** The tokens a stream is charged: the reported total, an estimate if it was torn down, or the projection. */
  function Charge(projected: nat, usage: Option<ChunkUsage>, chunksSeen: nat, torn: bool): int {
    if usage.Some? && usage.value.total.Some? then Max(projected, usage.value.total.value)
    else if torn && chunksSeen > 0 then Max(projected, STREAM_CHUNK_TOKEN_ESTIMATE * chunksSeen)
    else projected
  }

  /** In numbers: never under the projection, and eight tokens a chunk for a torn stream that reported no total. */
  lemma ChargeInNumbers(projected: nat, usage: Option<ChunkUsage>, chunksSeen: nat, torn: bool)
    ensures var charge, reported := Charge(projected, usage, chunksSeen, torn), usage.Some? && usage.value.total.Some?;
      && charge >= projected
      && (reported ==> charge == if usage.value.total.value > projected then usage.value.total.value else projected)
      && (!reported && torn ==> charge == if 8 * chunksSeen > projected then 8 * chunksSeen else projected)
      && (!reported && !torn ==> charge == projected)
  {
  }

  function Expected(projected: nat, history: seq<Event>): int {
    var k := FirstSettling(history);
    if k < |history| && history[k].Reconcile? && !history[k].writeFails
    then Charge(projected, LastUsage(history[..k]), ChunksSeen(history[..k]), history[k].torn)
    else projected
  }

  /** How many reconciliations went past the `reconciled` flag. */
  function Reconciliations(history: seq<Event>): nat {
    if FirstSettling(history) < |history| && history[FirstSettling(history)].Reconcile? then 1 else 0
  }

  lemma NeverLessThanProjected(projected: nat, history: seq<Event>)
    ensures projected <= Expected(projected, history)
  {
  }

  /** A stream iterated to its end and reconciled is charged by its own chunks, whatever happens later. */
  lemma {:induction false} LaterEventsDoNotMatter(projected: nat, history: seq<Event>, later: seq<Event>)
    requires FirstSettling(history) < |history|
    ensures Expected(projected, history + later) == Expected(projected, history)
    ensures FirstSettling(history + later) == FirstSettling(history)
  {
    if later == [] {
      assert history + later == history;
    } else {
      var init := later[..|later| - 1];
      LaterEventsDoNotMatter(projected, history, init);
      assert (history + later)[..|history + later| - 1] == history + init;
      var k := FirstSettling(history);
      assert (history + later)[..k] == history[..k];
    }
  }

  /** A proxy collected before its reconciliation ran is charged the projection, whatever was reported. */
  lemma CollectionForfeitsUsage(projected: nat, before: seq<Event>, later: seq<Event>)
    requires forall i | 0 <= i < |before| :: !before[i].Reconcile?
    ensures Expected(projected, before + [Collected] + later) == projected
  {
    var history := before + [Collected];
    assert history[|before|] == Collected;
    if FirstSettling(history) == |history| {
      NothingSettlesBefore(history, |before|);
    }
    LaterEventsDoNotMatter(projected, history, later);
  }

  /**
   A spawned reconciliation runs only after its iterator is gone, and the proxy may go with it. The
   usage is charged exactly if the reconciliation runs first and its write works, or there was nothing to add.
   */
  lemma SpawnedReconcileIff(projected: nat, chunks: seq<Event>, torn: bool, writeFails: bool, collectedFirst: bool)
    requires forall i | 0 <= i < |chunks| :: !chunks[i].Settles()
    ensures
      var charge := Charge(projected, LastUsage(chunks), ChunksSeen(chunks), torn);
      var tail := if collectedFirst then [Collected, Reconcile(torn, writeFails)] else [Reconcile(torn, writeFails), Collected];
      Expected(projected, chunks + [Spawn(torn)] + tail) == charge <==>
        (!collectedFirst && !writeFails) || charge == projected
  {
    var spawned := chunks + [Spawn(torn)];
    assert spawned[..|chunks|] == chunks;
    if collectedFirst {
      CollectionForfeitsUsage(projected, spawned, [Reconcile(torn, writeFails)]);
      assert spawned + [Collected, Reconcile(torn, writeFails)] == spawned + [Collected] + [Reconcile(torn, writeFails)];
    } else {
      var history := spawned + [Reconcile(torn, writeFails)];
      assert history[..|spawned|] == spawned;
      NothingSettled(spawned);
      LaterEventsDoNotMatter(projected, history, [Collected]);
      assert spawned + [Reconcile(torn, writeFails), Collected] == history + [Collected];
    }
  }

  lemma {:induction false} NothingSettled(history: seq<Event>)
    requires forall i | 0 <= i < |history| :: !history[i].Settles()
    ensures FirstSettling(history) == |history|
  {
    if history != [] {
      NothingSettled(history[..|history| - 1]);
    }
  }

  lemma AppendEvent(projected: nat, history: seq<Event>, event: Event)
    ensures (history + [event])[..|history|] == history
    ensures
      var k, after := FirstSettling(history), history + [event];
      if k < |history| then
        FirstSettling(after) == k && Expected(projected, after) == Expected(projected, history)
        && Reconciliations(after) == Reconciliations(history)
      else
        Expected(projected, history) == projected && Reconciliations(history) == 0
        && match event
           case Reconcile(torn, writeFails) =>
             FirstSettling(after) == |history| && Reconciliations(after) == 1
             && Expected(projected, after) ==
                (if writeFails then projected else Charge(projected, LastUsage(history), ChunksSeen(history), torn))
           case _ =>
             FirstSettling(after) == (if event.Settles() then |history| else |after|)
             && Expected(projected, after) == projected && Reconciliations(after) == 0
  {
    var k, after := FirstSettling(history), history + [event];
    assert after[..|history|] == history;
    if k < |history| {
      assert after[..k] == history[..k] && after[k] == history[k];
    }
  }

  // ---- the proxy ----------------------------------------------------------------------

  class ReconcilingProxy {
    const projected: nat
    var lastUsage: Option<ChunkUsage>
    var reconciled: bool
    var chunksSeen: nat
    /** Spawned reconciliations that have not run yet. */
    var pending: seq<bool>
    /** Tokens tracked for this stream. */
    var recorded: int
    ghost var reconciliations: nat
    ghost var history: seq<Event>

    ghost predicate Valid()
      reads this
    {
      && chunksSeen == ChunksSeen(history) && lastUsage == LastUsage(history)
      && (reconciled <==> FirstSettling(history) < |history|)
      && recorded == Expected(projected, history)
      && reconciliations == Reconciliations(history)
    }

    /** The projection is tracked at once; without a positive one nothing is. */
    constructor (maxTokens: Option<int>, default: Option<int>)
      ensures Valid() && history == [] && pending == []
      ensures recorded == projected
      ensures maxTokens.Some? && maxTokens.value > 0 ==> projected == maxTokens.value
      ensures (maxTokens == None || maxTokens.value <= 0) && default.Some? && default.value > 0 ==> projected == default.value
      ensures (maxTokens == None || maxTokens.value <= 0) && (default == None || default.value <= 0) ==> projected == 0
    {
      var projectedTokens := ResolveProjectedTokens(maxTokens, default);
      var tracked := if projectedTokens.Some? && projectedTokens.value > 0 then projectedTokens.value else 0;
      projected, recorded := tracked, tracked;
      lastUsage, reconciled, chunksSeen, pending, reconciliations, history := None, false, 0, [], 0, [];
    }

    method OnChunk(usage: Option<ChunkUsage>)
      requires Valid()
      modifies this
      ensures Valid() && history == old(history) + [Chunk(usage)]
    {
      hide FirstSettling;
      hide Expected;
      hide Reconciliations;
      AppendEvent(projected, history, Chunk(usage));
      chunksSeen := chunksSeen + 1;
      if ExtractChunkUsage(usage).Some? {
        lastUsage := ExtractChunkUsage(usage);
      }
      history := history + [Chunk(usage)];
    }

    /** The shared flag lets only the first caller through; it adds to what is tracked, never refunds. */
    method RunReconcile(torn: bool, writeFails: bool)
      requires Valid()
      modifies this
      ensures Valid() && history == old(history) + [Reconcile(torn, writeFails)] && pending == old(pending)
      ensures reconciled && reconciliations == old(reconciliations) + (if old(reconciled) then 0 else 1)
      ensures recorded == if old(reconciled) || writeFails then old(recorded)
                          else Charge(projected, lastUsage, chunksSeen, torn)
    {
      hide FirstSettling;
      hide Expected;
      hide Reconciliations;
      AppendEvent(projected, history, Reconcile(torn, writeFails));
      history := history + [Reconcile(torn, writeFails)];
      if reconciled {
        return;
      }
      assert history[..|history| - 1] == old(history);
      reconciled, reconciliations := true, reconciliations + 1;
      var actual: int;
      if lastUsage == None || lastUsage.value.total == None {
        if !(torn && chunksSeen > 0) {
          return;
        }
        actual := Max(projected, chunksSeen * STREAM_CHUNK_TOKEN_ESTIMATE);
      } else {
        actual := lastUsage.value.total.value;
      }
      if !writeFails {
        recorded := recorded + TokensToAdd(projected, actual);
      }
    }

    /** The end of one iteration. A synchronous iterator inside a running loop can only spawn. */
    method EndIteration(torn: bool, mustSpawn: bool, writeFails: bool)
      requires Valid()
      modifies this
      ensures Valid()
      ensures history == old(history) + [if mustSpawn then Spawn(torn) else Reconcile(torn, writeFails)]
      ensures pending == if mustSpawn then old(pending) + [torn] else old(pending)
    {
      if mustSpawn {
        AppendEvent(projected, history, Spawn(torn));
        pending, history := pending + [torn], history + [Spawn(torn)];
      } else {
        RunReconcile(torn, writeFails);
      }
    }

    method RunSpawned(i: nat, writeFails: bool)
      requires Valid() && i < |pending|
      modifies this
      ensures Valid() && history == old(history) + [Reconcile(old(pending)[i], writeFails)]
      ensures pending == old(pending)[..i] + old(pending)[i + 1..]
    {
      var torn := pending[i];
      pending := pending[..i] + pending[i + 1..];
      RunReconcile(torn, writeFails);
    }

    /** The finalizer only warns, and closes the flag. */
    method Finalize()
      requires Valid()
      modifies this
      ensures Valid() && reconciled && history == old(history) + [Collected] && recorded == old(recorded)
    {
      AppendEvent(projected, history, Collected);
      reconciled, history := true, history + [Collected];
    }
  }
}
