/**
 `BatchingWriter`: `enqueue` and any number of overlapping flushes.

 A flush runs in steps, since it awaits between them: it takes the whole buffer under the lock, writes
 it to the primary, on failure to the fallback, and if that fails too appends what fits back to the
 buffer, again under the lock. A failing or timed-out write may have stored a prefix of its batch. The
 default fallback is an in-memory store that evicts its oldest rows at a cap.
 */
module BatchingWriter {
  import opened Records
  import opened Sequences
  import MemoryStore

  // ---- the fallback -------------------------------------------------------------------

  /** A fallback that keeps everything, or the in-memory ring, which skips rows it holds. */
  datatype Fallback = Keeps | Ring(max: nat) {
    /** A ring of size zero raises on every write. */
    predicate Works() {
      Keeps? || max >= 1
    }
  }

  /** Rows after a write, the rows it evicted, and the rows it skipped because it held them. */
  datatype Stored = Stored(rows: seq<Record>, evicted: multiset<Record>, merged: multiset<Record>)

  /** An id is drawn for one event only, so holding its id is holding the event. */
  function StoreOne(fallback: Fallback, rows: seq<Record>, e: Record): Stored
    requires fallback.Works()
  {
    if fallback.Keeps? then Stored(rows + [e], multiset{}, multiset{})
    else if e in rows then Stored(rows, multiset{}, multiset{e})
    else
      var kept := MemoryStore.MakeRoom(rows, fallback.max, true).value;
      Stored(kept + [e], multiset(rows[..|rows| - |kept|]), multiset{})
  }

  function StoreAll(fallback: Fallback, rows: seq<Record>, batch: seq<Record>): Stored
    requires fallback.Works()
  {
    if batch == [] then Stored(rows, multiset{}, multiset{})
    else
      var before := StoreAll(fallback, rows, batch[..|batch| - 1]);
      var one := StoreOne(fallback, before.rows, batch[|batch| - 1]);
      Stored(one.rows, before.evicted + one.evicted, before.merged + one.merged)
  }

  lemma StoreOneBalances(fallback: Fallback, rows: seq<Record>, e: Record, x: Record)
    requires fallback.Works()
    ensures var out := StoreOne(fallback, rows, e);
      multiset(rows)[x] + multiset{e}[x] == multiset(out.rows)[x] + out.evicted[x] + out.merged[x]
  {
    if fallback.Ring? && e !in rows {
      var kept := MemoryStore.MakeRoom(rows, fallback.max, true).value;
      var cut := |rows| - |kept|;
      assert rows == rows[..cut] + kept;
    }
  }

  /** Every copy handed in is stored, evicted or merged. */
  lemma {:induction false} StoreAllBalances(fallback: Fallback, rows: seq<Record>, batch: seq<Record>, x: Record)
    requires fallback.Works()
    ensures var out := StoreAll(fallback, rows, batch);
      multiset(rows)[x] + multiset(batch)[x] == multiset(out.rows)[x] + out.evicted[x] + out.merged[x]
  {
    hide StoreOne;
    if batch != [] {
      var init, last := batch[..|batch| - 1], batch[|batch| - 1];
      StoreAllBalances(fallback, rows, init, x);
      StoreOneBalances(fallback, StoreAll(fallback, rows, init).rows, last, x);
      assert batch == init + [last];
    }
  }

  lemma LastIsNew(fallback: Fallback, rows: seq<Record>, batch: seq<Record>)
    requires fallback.Works() && batch != [] && forall x :: multiset(rows)[x] + multiset(batch)[x] <= 1
    ensures var init := batch[..|batch| - 1];
      && (forall x :: multiset(rows)[x] + multiset(init)[x] <= 1)
      && batch[|batch| - 1] !in StoreAll(fallback, rows, init).rows
  {
    var init, last := batch[..|batch| - 1], batch[|batch| - 1];
    assert batch == init + [last];
    forall x ensures multiset(rows)[x] + multiset(init)[x] <= 1 {
      assert multiset(batch)[x] == multiset(init)[x] + multiset{last}[x];
      assert multiset(rows)[x] + multiset(batch)[x] <= 1;
    }
    StoreAllBalances(fallback, rows, init, last);
    assert multiset(rows)[last] + multiset(batch)[last] <= 1;
  }

  /** New events, each handed in once, are merged with nothing, and evict exactly what exceeds the ring. */
  lemma {:induction false} StoreAllNew(fallback: Fallback, rows: seq<Record>, batch: seq<Record>)
    requires fallback.Works() && (fallback.Ring? ==> |rows| <= fallback.max)
    requires forall x :: multiset(rows)[x] + multiset(batch)[x] <= 1
    ensures var out := StoreAll(fallback, rows, batch);
      && out.merged == multiset{}
      && (out.evicted != multiset{} <==> fallback.Ring? && |rows| + |batch| > fallback.max)
      && |out.rows| == if fallback.Ring? && |rows| + |batch| > fallback.max then fallback.max else |rows| + |batch|
  {
    if batch != [] {
      var init, last := batch[..|batch| - 1], batch[|batch| - 1];
      LastIsNew(fallback, rows, batch);
      StoreAllNew(fallback, rows, init);
      var before := StoreAll(fallback, rows, init);
      EvictsOne(fallback, before.rows, last);
    }
  }

  lemma EvictsOne(fallback: Fallback, rows: seq<Record>, e: Record)
    requires fallback.Works() && (fallback.Ring? ==> |rows| <= fallback.max) && e !in rows
    ensures var out := StoreOne(fallback, rows, e);
      && out.merged == multiset{}
      && (out.evicted != multiset{} <==> fallback.Ring? && |rows| == fallback.max)
      && |out.rows| == if fallback.Ring? && |rows| == fallback.max then fallback.max else |rows| + 1
  {
    if fallback.Ring? && |rows| == fallback.max {
      assert rows[0] in multiset(rows[..1]);
    } else if fallback.Ring? {
      assert rows[..0] == [];
    }
  }

  // ---- the writer's steps -------------------------------------------------------------

  datatype Phase = Writing | Spilling | Requeueing

  /** A flush suspended at an await. */
  datatype Flight = Flight(batch: seq<Record>, phase: Phase)

  /**
   The buffer, the suspended flushes and what each store holds; and tallies of copies: of events
   `accepted` by `enqueue`, written a further time (`repeated`), `dropped`, and `merged` by the ring.
   */
  datatype Books = Books(
    buffer: seq<Record>, flights: seq<Flight>, closed: bool, degraded: bool,
    primary: multiset<Record>, fallback: seq<Record>,
    accepted: multiset<Record>, repeated: multiset<Record>, dropped: multiset<Record>, merged: multiset<Record>)
  {
    function WithStored(out: Stored): Books {
      this.(fallback := out.rows, dropped := dropped + out.evicted, merged := merged + out.merged)
    }

    function WithoutFlight(i: nat): Books
      requires i < |flights|
    {
      this.(flights := Without(flights, i))
    }
  }

  datatype Config = Config(bufferMax: nat, fallback: Fallback)

  const EMPTY := Books([], [], false, false, multiset{}, [], multiset{}, multiset{}, multiset{}, multiset{})

  /** Copies of an event in the suspended flushes. */
  function InFlight(flights: seq<Flight>, e: Record): nat {
    if flights == [] then 0
    else InFlight(flights[..|flights| - 1], e) + multiset(flights[|flights| - 1].batch)[e]
  }

  /** How much of a batch the last-resort requeue puts back: all that fits. */
  function Fitting(bufferMax: nat, buffer: seq<Record>, batch: seq<Record>): nat {
    var space := bufferMax - |buffer|;
    if space < 0 then 0 else if |batch| <= space then |batch| else space
  }

  datatype Step =
    | Enqueue(event: Record, spillFails: bool)
    | Take
    | Written(flight: nat)
    | WriteFailed(flight: nat, kept: nat)
    | Spilled(flight: nat)
    | SpillFailed(flight: nat, kept: nat)
    | Requeue(flight: nat)
    | Cancel(flight: nat)
    | Close

  predicate FlightIs(b: Books, i: nat, phase: Phase) {
    i < |b.flights| && b.flights[i].phase == phase
  }

  predicate Enabled(c: Config, b: Books, step: Step) {
    match step
    case Enqueue(_, _) => true
    case Take => b.buffer != []
    case Written(i) => FlightIs(b, i, Writing)
    case WriteFailed(i, kept) => FlightIs(b, i, Writing) && kept <= |b.flights[i].batch|
    case Spilled(i) => FlightIs(b, i, Spilling) && c.fallback.Works()
    case SpillFailed(i, kept) =>
      FlightIs(b, i, Spilling) && kept <= |b.flights[i].batch| && (kept == 0 || c.fallback.Works())
    case Requeue(i) => FlightIs(b, i, Requeueing)
    case Cancel(i) => i < |b.flights|
    case Close => true
  }

  /** `enqueue` raises when the writer is closed, and when an overflowing event cannot be spilled. */
  predicate Takes(c: Config, b: Books, spillFails: bool) {
    !b.closed && (|b.buffer| < c.bufferMax || (!spillFails && c.fallback.Works()))
  }

  predicate Spills(c: Config, b: Books, spillFails: bool) {
    Takes(c, b, spillFails) && |b.buffer| >= c.bufferMax
  }

  function Apply(c: Config, b: Books, step: Step): Books
    requires Enabled(c, b, step)
  {
    match step
    case Enqueue(event, spillFails) =>
      if !Takes(c, b, spillFails) then b
      else if !Spills(c, b, spillFails)
      then b.(buffer := b.buffer + [event], accepted := b.accepted + multiset{event})
      else b.(accepted := b.accepted + multiset{event}).WithStored(StoreOne(c.fallback, b.fallback, event))
    case Take => b.(buffer := [], flights := b.flights + [Flight(b.buffer, Writing)])
    case Written(i) =>
      b.(primary := b.primary + multiset(b.flights[i].batch), degraded := false).WithoutFlight(i)
    case WriteFailed(i, kept) =>
      var batch := b.flights[i].batch;
      b.(primary := b.primary + multiset(batch[..kept]), repeated := b.repeated + multiset(batch[..kept]),
         degraded := true, flights := b.flights[i := Flight(batch, Spilling)])
    case Spilled(i) => b.WithoutFlight(i).WithStored(StoreAll(c.fallback, b.fallback, b.flights[i].batch))
    case SpillFailed(i, kept) =>
      var batch := b.flights[i].batch;
      var next := b.(flights := b.flights[i := Flight(batch, Requeueing)]);
      if kept == 0 then next
      else next.(repeated := b.repeated + multiset(batch[..kept])).WithStored(StoreAll(c.fallback, b.fallback, batch[..kept]))
    case Requeue(i) =>
      var batch := b.flights[i].batch;
      var n := Fitting(c.bufferMax, b.buffer, batch);
      b.(buffer := b.buffer + batch[..n], dropped := b.dropped + multiset(batch[n..])).WithoutFlight(i)
    case Cancel(i) => b.(dropped := b.dropped + multiset(b.flights[i].batch)).WithoutFlight(i)
    case Close => b.(closed := true)
  }

  predicate StepAt(c: Config, states: seq<Books>, steps: seq<Step>, i: nat)
    requires i < |steps| && |states| == |steps| + 1
  {
    Enabled(c, states[i], steps[i]) && states[i + 1] == Apply(c, states[i], steps[i])
  }

  /** One interleaving of calls and flushes, from the empty writer. */
  predicate IsRun(c: Config, states: seq<Books>, steps: seq<Step>) {
    && |states| == |steps| + 1 && states[0] == EMPTY
    && forall i | 0 <= i < |steps| :: StepAt(c, states, steps, i)
  }

  // ---- conservation -------------------------------------------------------------------

  /** Copies of an event in the buffer, the flushes and the stores. */
  function Held(b: Books, e: Record): nat {
    multiset(b.buffer)[e] + InFlight(b.flights, e) + b.primary[e] + multiset(b.fallback)[e]
  }

  predicate Balanced(b: Books, e: Record) {
    b.accepted[e] + b.repeated[e] == Held(b, e) + b.dropped[e] + b.merged[e]
  }

  /** Every held copy is an accepted event or a repeat of one, and only dropped and merged copies are gone. */
  ghost predicate Accounted(b: Books) {
    forall e :: Balanced(b, e)
  }

  ghost predicate Inv(c: Config, b: Books) {
    |b.buffer| <= c.bufferMax && Accounted(b)
  }

  lemma {:induction false} ReplaceFlight(flights: seq<Flight>, i: nat, phase: Phase, e: Record)
    requires i < |flights|
    ensures InFlight(flights[i := Flight(flights[i].batch, phase)], e) == InFlight(flights, e)
  {
    var after := flights[i := Flight(flights[i].batch, phase)];
    var n := |flights| - 1;
    if i < n {
      ReplaceFlight(flights[..n], i, phase, e);
      assert after[..n] == flights[..n][i := Flight(flights[i].batch, phase)];
    } else {
      assert after[..n] == flights[..n];
    }
  }

  lemma {:induction false} RemoveFlight(flights: seq<Flight>, i: nat, e: Record)
    requires i < |flights|
    ensures InFlight(flights, e) == InFlight(Without(flights, i), e) + multiset(flights[i].batch)[e]
  {
    var n := |flights| - 1;
    if i < n {
      RemoveFlight(flights[..n], i, e);
      WithoutKeepsLast(flights, i);
      hide Without;
      var init := Without(flights[..n], i);
      assert (init + [flights[n]])[..|init|] == init;
    } else {
      WithoutLast(flights);
    }
  }

  lemma SplitBatch(batch: seq<Record>, n: nat, e: Record)
    requires n <= |batch|
    ensures multiset(batch)[e] == multiset(batch[..n])[e] + multiset(batch[n..])[e]
  {
    assert batch == batch[..n] + batch[n..];
  }

  /** The three outcomes of `enqueue`: refused, buffered, spilled. */
  lemma EnqueueCases(c: Config, b: Books, event: Record, spillFails: bool)
    ensures !Takes(c, b, spillFails) ==> Apply(c, b, Enqueue(event, spillFails)) == b
    ensures Takes(c, b, spillFails) && |b.buffer| < c.bufferMax ==>
      Apply(c, b, Enqueue(event, spillFails)) ==
        b.(buffer := b.buffer + [event], accepted := b.accepted + multiset{event})
    ensures Spills(c, b, spillFails) ==>
      var out := StoreOne(c.fallback, b.fallback, event);
      && event in out.rows
      && Apply(c, b, Enqueue(event, spillFails)) ==
           b.(fallback := out.rows, accepted := b.accepted + multiset{event},
              dropped := b.dropped + out.evicted, merged := b.merged + out.merged)
  {
  }

  lemma EnqueueBalances(c: Config, b: Books, event: Record, spillFails: bool, e: Record)
    requires Balanced(b, e)
    ensures Balanced(Apply(c, b, Enqueue(event, spillFails)), e)
  {
    if Spills(c, b, spillFails) {
      StoreOneBalances(c.fallback, b.fallback, event, e);
    }
  }

  lemma TakeBalances(c: Config, b: Books, e: Record)
    requires Balanced(b, e) && b.buffer != []
    ensures Balanced(Apply(c, b, Take), e)
  {
    var flights := b.flights + [Flight(b.buffer, Writing)];
    assert flights[..|flights| - 1] == b.flights;
  }

  /** A batch moves on to its next store, having left a prefix in the previous one. */
  lemma FailedWriteBalances(c: Config, b: Books, step: Step, e: Record)
    requires Balanced(b, e) && Enabled(c, b, step) && (step.WriteFailed? || step.SpillFailed?)
    ensures Balanced(Apply(c, b, step), e)
  {
    ReplaceFlight(b.flights, step.flight, if step.WriteFailed? then Spilling else Requeueing, e);
    if step.SpillFailed? && step.kept > 0 {
      StoreAllBalances(c.fallback, b.fallback, b.flights[step.flight].batch[..step.kept], e);
    }
  }

  lemma FinishedFlightBalances(c: Config, b: Books, step: Step, e: Record)
    requires Balanced(b, e) && Enabled(c, b, step) && (step.Written? || step.Spilled? || step.Cancel?)
    ensures Balanced(Apply(c, b, step), e)
  {
    RemoveFlight(b.flights, step.flight, e);
    if step.Spilled? {
      StoreAllBalances(c.fallback, b.fallback, b.flights[step.flight].batch, e);
    }
  }

  lemma RequeueCase(c: Config, b: Books, i: nat)
    requires |b.buffer| <= c.bufferMax && FlightIs(b, i, Requeueing)
    ensures
      var batch, space := b.flights[i].batch, c.bufferMax - |b.buffer|;
      var kept := if |batch| <= space then batch else batch[..space];
      && Apply(c, b, Requeue(i)) ==
        b.(buffer := b.buffer + kept, dropped := b.dropped + multiset(batch[|kept|..]), flights := Without(b.flights, i))
      && |b.buffer + kept| == if |b.buffer| + |batch| <= c.bufferMax then |b.buffer| + |batch| else c.bufferMax
  {
    var batch := b.flights[i].batch;
    assert batch[..|batch|] == batch;
  }

  lemma RequeueBalances(c: Config, b: Books, i: nat, e: Record)
    requires Balanced(b, e) && FlightIs(b, i, Requeueing)
    ensures Balanced(Apply(c, b, Requeue(i)), e)
  {
    var batch := b.flights[i].batch;
    var n := Fitting(c.bufferMax, b.buffer, batch);
    RemoveFlight(b.flights, i, e);
    SplitBatch(batch, n, e);
    assert multiset(b.buffer + batch[..n])[e] == multiset(b.buffer)[e] + multiset(batch[..n])[e];
  }

  lemma StepBalances(c: Config, b: Books, step: Step, e: Record)
    requires Balanced(b, e) && Enabled(c, b, step)
    ensures Balanced(Apply(c, b, step), e)
  {
    match step
    case Enqueue(event, spillFails) => EnqueueBalances(c, b, event, spillFails, e);
    case Take => TakeBalances(c, b, e);
    case WriteFailed(_, _) => FailedWriteBalances(c, b, step, e);
    case SpillFailed(_, _) => FailedWriteBalances(c, b, step, e);
    case Written(_) => FinishedFlightBalances(c, b, step, e);
    case Spilled(_) => FinishedFlightBalances(c, b, step, e);
    case Cancel(_) => FinishedFlightBalances(c, b, step, e);
    case Requeue(i) => RequeueBalances(c, b, i, e);
    case Close =>
  }

  lemma StepKeepsInv(c: Config, b: Books, step: Step)
    requires Inv(c, b) && Enabled(c, b, step)
    ensures Inv(c, Apply(c, b, step))
  {
    forall e ensures Balanced(Apply(c, b, step), e) {
      assert Balanced(b, e);
      StepBalances(c, b, step, e);
    }
  }

  lemma RoomIsLeft(c: Config, b: Books)
    requires Inv(c, b)
    ensures |b.buffer| <= c.bufferMax
  {
  }

  /** Whatever interleaves: the buffer never exceeds its bound, and every copy is accounted for. */
  lemma {:induction false} RunKeepsInv(c: Config, states: seq<Books>, steps: seq<Step>, n: nat)
    requires IsRun(c, states, steps) && n < |states|
    ensures Inv(c, states[n])
  {
    if n > 0 {
      RunKeepsInv(c, states, steps, n - 1);
      assert StepAt(c, states, steps, n - 1);
      StepKeepsInv(c, states[n - 1], steps[n - 1]);
    }
  }

  // ---- when an event is gone ----------------------------------------------------------

  lemma TalliesGrow(c: Config, b: Books, step: Step, e: Record)
    requires Balanced(b, e) && Enabled(c, b, step)
    ensures var after := Apply(c, b, step);
      && b.accepted[e] <= after.accepted[e] && b.repeated[e] <= after.repeated[e]
      && b.dropped[e] <= after.dropped[e] && b.merged[e] <= after.merged[e]
      && (after.repeated[e] > b.repeated[e] ==> Held(b, e) > 0)
  {
    if (step.WriteFailed? || step.SpillFailed?) && step.kept > 0 {
      RemoveFlight(b.flights, step.flight, e);
      SplitBatch(b.flights[step.flight].batch, step.kept, e);
    }
  }

  /** A merged copy leaves a stored one, unless the same write evicts that. */
  lemma {:induction false} MergedIsHeldOrEvicted(fallback: Fallback, rows: seq<Record>, batch: seq<Record>, e: Record)
    requires fallback.Works()
    ensures var out := StoreAll(fallback, rows, batch); out.merged[e] > 0 ==> e in out.rows || out.evicted[e] > 0
  {
    if batch != [] {
      var init, last := batch[..|batch| - 1], batch[|batch| - 1];
      MergedIsHeldOrEvicted(fallback, rows, init, e);
      StoreOneBalances(fallback, StoreAll(fallback, rows, init).rows, last, e);
    }
  }

  /** An event enqueue never took is held nowhere. */
  lemma {:induction false} StrangersAreNotHeld(c: Config, states: seq<Books>, steps: seq<Step>, n: nat, e: Record)
    requires IsRun(c, states, steps) && n < |states| && states[n].accepted[e] == 0
    ensures states[n].repeated[e] == 0 && Held(states[n], e) == 0
  {
    hide Apply;
    hide Held;
    hide Enabled;
    if n > 0 {
      RunKeepsInv(c, states, steps, n - 1);
      assert StepAt(c, states, steps, n - 1) && Balanced(states[n - 1], e);
      TalliesGrow(c, states[n - 1], steps[n - 1], e);
      StrangersAreNotHeld(c, states, steps, n - 1, e);
    }
    RunKeepsInv(c, states, steps, n);
    assert Balanced(states[n], e);
  }

  lemma TakenIsHeld(c: Config, b: Books, step: Step, e: Record)
    requires Balanced(b, e) && Enabled(c, b, step) && Apply(c, b, step).accepted[e] > b.accepted[e]
    ensures Held(Apply(c, b, step), e) > 0
  {
    if Spills(c, b, step.spillFails) {
      assert step.event in StoreOne(c.fallback, b.fallback, step.event).rows;
    }
  }

  /** The step gives up the only copies there are of an event. */
  predicate LosesLastCopy(c: Config, states: seq<Books>, steps: seq<Step>, i: nat, e: Record)
    requires IsRun(c, states, steps) && i < |steps|
  {
    Held(states[i], e) > 0 && Held(states[i + 1], e) == 0
  }

  /** Once accepted, an event is gone exactly if some step gave up its last copy: nothing brings it back. */
  lemma {:induction false} VanishedIff(c: Config, states: seq<Books>, steps: seq<Step>, n: nat, e: Record)
    requires IsRun(c, states, steps) && n < |states| && states[n].accepted[e] == 1
    ensures Held(states[n], e) == 0 <==> exists i | 0 <= i < n :: LosesLastCopy(c, states, steps, i, e)
  {
    hide Apply;
    hide Held;
    hide Enabled;
    if n > 0 {
      RunKeepsInv(c, states, steps, n - 1);
      assert StepAt(c, states, steps, n - 1) && Balanced(states[n - 1], e);
      TalliesGrow(c, states[n - 1], steps[n - 1], e);
      if states[n - 1].accepted[e] == 0 {
        TakenIsHeld(c, states[n - 1], steps[n - 1], e);
        NeverHeldBefore(c, states, steps, n - 1, e);
      } else {
        VanishedIff(c, states, steps, n - 1, e);
        StepBalances(c, states[n - 1], steps[n - 1], e);
        assert Held(states[n], e) == 0 <==> Held(states[n - 1], e) == 0 || LosesLastCopy(c, states, steps, n - 1, e);
      }
    }
  }

  lemma {:induction false} NeverHeldBefore(c: Config, states: seq<Books>, steps: seq<Step>, n: nat, e: Record)
    requires IsRun(c, states, steps) && n < |states| && states[n].accepted[e] == 0
    ensures forall i | 0 <= i <= n :: Held(states[i], e) == 0
  {
    hide Apply;
    hide Held;
    hide Enabled;
    StrangersAreNotHeld(c, states, steps, n, e);
    if n > 0 {
      RunKeepsInv(c, states, steps, n - 1);
      assert StepAt(c, states, steps, n - 1) && Balanced(states[n - 1], e);
      TalliesGrow(c, states[n - 1], steps[n - 1], e);
      NeverHeldBefore(c, states, steps, n - 1, e);
    }
  }

  /** Only a step that drops a copy can lose the last one: a cut requeue, a cancelled flush, an eviction. */
  lemma LastCopyIsDropped(c: Config, b: Books, step: Step, e: Record)
    requires Balanced(b, e) && Enabled(c, b, step)
    requires Held(b, e) > 0 && Held(Apply(c, b, step), e) == 0
    ensures Apply(c, b, step).dropped[e] > b.dropped[e]
    ensures step.Requeue? || step.Cancel? || step.Spilled? || step.SpillFailed? || step.Enqueue?
  {
    StepBalances(c, b, step, e);
    TalliesGrow(c, b, step, e);
    if step.Spilled? {
      MergedIsHeldOrEvicted(c.fallback, b.fallback, b.flights[step.flight].batch, e);
    } else if step.SpillFailed? && step.kept > 0 {
      MergedIsHeldOrEvicted(c.fallback, b.fallback, b.flights[step.flight].batch[..step.kept], e);
    }
  }

  // ---- the guards that give up a last copy --------------------------------------------

  /** Copies still on their way to a store. */
  function Live(b: Books, e: Record): nat {
    multiset(b.buffer)[e] + InFlight(b.flights, e)
  }

  /** Writing the batch to the fallback pushes the event out, or pushes it through. */
  predicate RingDrops(c: Config, b: Books, batch: seq<Record>, e: Record)
    requires c.fallback.Works()
  {
    (e in b.fallback || e in batch) && e !in StoreAll(c.fallback, b.fallback, batch).rows
  }

  /**
   The guards under which a step gives up its last copy of an event, none having reached the primary: a
   requeue without room for it or a cancelled flush with none in the fallback, or an eviction from the
   fallback with none on its way.
   */
  predicate GivesUp(c: Config, b: Books, step: Step, e: Record)
    requires Enabled(c, b, step)
  {
    e !in b.primary &&
    match step
    case Requeue(i) => e in b.flights[i].batch[Fitting(c.bufferMax, b.buffer, b.flights[i].batch)..] && e !in b.fallback
    case Cancel(i) => e in b.flights[i].batch && e !in b.fallback
    case Enqueue(event, spillFails) => Spills(c, b, spillFails) && Live(b, e) == 0 && RingDrops(c, b, [event], e)
    case Spilled(i) => Live(b.WithoutFlight(i), e) == 0 && RingDrops(c, b, b.flights[i].batch, e)
    case SpillFailed(i, kept) => kept > 0 && Live(b, e) == 0 && RingDrops(c, b, b.flights[i].batch[..kept], e)
    case _ => false
  }

  predicate GivesUpAt(c: Config, states: seq<Books>, steps: seq<Step>, i: nat, e: Record)
    requires IsRun(c, states, steps) && i < |steps|
  {
    assert StepAt(c, states, steps, i);
    GivesUp(c, states[i], steps[i], e)
  }

  /** New rows, each handed in once: the newest that fit stay, so the others are the ones the ring drops. */
  lemma {:induction false} RingKeepsNewest(max: nat, rows: seq<Record>, batch: seq<Record>)
    requires max >= 1 && |rows| <= max && forall x :: multiset(rows)[x] + multiset(batch)[x] <= 1
    ensures StoreAll(Ring(max), rows, batch).rows == MemoryStore.Newest(rows + batch, max)
  {
    if batch == [] {
      assert rows + batch == rows;
    } else {
      var init, last := batch[..|batch| - 1], batch[|batch| - 1];
      LastIsNew(Ring(max), rows, batch);
      RingKeepsNewest(max, rows, init);
      RingTakesOne(max, rows + init, last);
      assert rows + batch == rows + init + [last];
    }
  }

  lemma RingTakesOne(max: nat, all: seq<Record>, e: Record)
    requires max >= 1 && e !in MemoryStore.Newest(all, max)
    ensures StoreOne(Ring(max), MemoryStore.Newest(all, max), e).rows == MemoryStore.Newest(all + [e], max)
  {
    MemoryStore.MakeRoomForOne(all, e, max);
    hide MemoryStore.MakeRoom;
    hide MemoryStore.Newest;
  }

  lemma StoreAllOfOne(fallback: Fallback, rows: seq<Record>, e: Record)
    requires fallback.Works()
    ensures StoreAll(fallback, rows, [e]).rows == StoreOne(fallback, rows, e).rows
  {
    assert [e][..0] == [];
    assert StoreAll(fallback, rows, []) == Stored(rows, multiset{}, multiset{});
  }

  lemma FlightHolds(flights: seq<Flight>, i: nat, e: Record)
    requires i < |flights|
    ensures InFlight(flights, e) >= multiset(flights[i].batch)[e]
  {
    RemoveFlight(flights, i, e);
  }

  lemma EnqueueGivesUp(c: Config, b: Books, event: Record, spillFails: bool, e: Record)
    ensures var after := Apply(c, b, Enqueue(event, spillFails));
      (Held(b, e) > 0 && Held(after, e) == 0 <==> GivesUp(c, b, Enqueue(event, spillFails), e))
      && Live(after, e) <= Live(b, e) + (after.accepted[e] - b.accepted[e])
  {
    EnqueueCases(c, b, event, spillFails);
    if Spills(c, b, spillFails) {
      StoreAllOfOne(c.fallback, b.fallback, event);
    }
  }

  lemma FailedWriteGivesUp(c: Config, b: Books, step: Step, e: Record)
    requires Enabled(c, b, step) && (step.WriteFailed? || step.SpillFailed?)
    ensures var after := Apply(c, b, step);
      (Held(b, e) > 0 && Held(after, e) == 0 <==> GivesUp(c, b, step, e))
      && Live(after, e) == Live(b, e)
  {
    var batch := b.flights[step.flight].batch;
    ReplaceFlight(b.flights, step.flight, if step.WriteFailed? then Spilling else Requeueing, e);
    FlightHolds(b.flights, step.flight, e);
    SplitBatch(batch, step.kept, e);
    hide StoreAll;
    hide InFlight;
    hide Fitting;
  }

  lemma WrittenGivesUp(c: Config, b: Books, i: nat, e: Record)
    requires Enabled(c, b, Written(i))
    ensures var after := Apply(c, b, Written(i)); Held(after, e) == Held(b, e) && Live(after, e) <= Live(b, e)
  {
    RemoveFlight(b.flights, i, e);
  }

  lemma SpilledCase(c: Config, b: Books, i: nat, e: Record)
    requires Enabled(c, b, Spilled(i))
    ensures var after, rows := Apply(c, b, Spilled(i)), StoreAll(c.fallback, b.fallback, b.flights[i].batch).rows;
      && after.buffer == b.buffer && after.flights == Without(b.flights, i) && after.primary == b.primary
      && after.fallback == rows
      && (GivesUp(c, b, Spilled(i), e) <==>
            && e !in b.primary && Live(b.WithoutFlight(i), e) == 0
            && (e in b.fallback || e in b.flights[i].batch) && e !in rows)
  {
    hide StoreAll;
    hide Live;
  }

  lemma SpilledGivesUp(c: Config, b: Books, i: nat, e: Record)
    requires Enabled(c, b, Spilled(i))
    ensures var after := Apply(c, b, Spilled(i));
      (Held(b, e) > 0 && Held(after, e) == 0 <==> GivesUp(c, b, Spilled(i), e))
      && Live(after, e) <= Live(b, e)
  {
    SpilledCase(c, b, i, e);
    RemoveFlight(b.flights, i, e);
    hide Apply;
    hide GivesUp;
    hide StoreAll;
    hide Without;
    hide InFlight;
  }

  /** A requeue, or a cancelled flush, gives up the batch from row n on. */
  lemma DropCase(c: Config, b: Books, step: Step, n: nat, e: Record)
    requires Enabled(c, b, step) && |b.buffer| <= c.bufferMax && (step.Requeue? || step.Cancel?)
    requires n == if step.Cancel? then 0 else Fitting(c.bufferMax, b.buffer, b.flights[step.flight].batch)
    ensures n <= |b.flights[step.flight].batch|
    ensures var after, batch := Apply(c, b, step), b.flights[step.flight].batch;
      && after.buffer == b.buffer + batch[..n] && after.flights == Without(b.flights, step.flight)
      && after.primary == b.primary && after.fallback == b.fallback
      && (GivesUp(c, b, step, e) <==> e !in b.primary && e in batch[n..] && e !in b.fallback)
  {
    var batch := b.flights[step.flight].batch;
    assert batch[0..] == batch && b.buffer + batch[..0] == b.buffer;
  }

  lemma DropGivesUp(c: Config, b: Books, step: Step, n: nat, e: Record)
    requires Enabled(c, b, step) && Live(b, e) <= 1 && |b.buffer| <= c.bufferMax && (step.Requeue? || step.Cancel?)
    requires n == if step.Cancel? then 0 else Fitting(c.bufferMax, b.buffer, b.flights[step.flight].batch)
    ensures var after := Apply(c, b, step);
      (Held(b, e) > 0 && Held(after, e) == 0 <==> GivesUp(c, b, step, e))
      && Live(after, e) <= Live(b, e)
  {
    var batch := b.flights[step.flight].batch;
    DropCase(c, b, step, n, e);
    RemoveFlight(b.flights, step.flight, e);
    SplitBatch(batch, n, e);
    assert multiset(b.buffer + batch[..n])[e] == multiset(b.buffer)[e] + multiset(batch[..n])[e];
    hide Apply;
    hide GivesUp;
    hide Enabled;
    hide Without;
    hide InFlight;
    hide Fitting;
  }

  /** With at most one live copy, a step loses the last copy exactly under its guard. */
  lemma StepGivesUp(c: Config, b: Books, step: Step, e: Record)
    requires Enabled(c, b, step) && Live(b, e) <= 1 && |b.buffer| <= c.bufferMax
    ensures var after := Apply(c, b, step);
      (Held(b, e) > 0 && Held(after, e) == 0 <==> GivesUp(c, b, step, e))
      && Live(after, e) <= Live(b, e) + (after.accepted[e] - b.accepted[e])
  {
    match step
    case Enqueue(event, spillFails) => EnqueueGivesUp(c, b, event, spillFails, e);
    case Take =>
      var flights := b.flights + [Flight(b.buffer, Writing)];
      assert flights[..|flights| - 1] == b.flights;
    case WriteFailed(_, _) => FailedWriteGivesUp(c, b, step, e);
    case SpillFailed(_, _) => FailedWriteGivesUp(c, b, step, e);
    case Close =>
    case Written(i) => WrittenGivesUp(c, b, i, e);
    case Spilled(i) => SpilledGivesUp(c, b, i, e);
    case Requeue(i) => DropGivesUp(c, b, step, Fitting(c.bufferMax, b.buffer, b.flights[i].batch), e);
    case Cancel(_) => DropGivesUp(c, b, step, 0, e);
  }

  lemma {:induction false} LiveAtMostOnce(c: Config, states: seq<Books>, steps: seq<Step>, n: nat, e: Record)
    requires IsRun(c, states, steps) && n < |states| && states[n].accepted[e] <= 1
    ensures forall i | 0 <= i <= n :: Live(states[i], e) <= states[i].accepted[e] <= states[n].accepted[e]
  {
    hide Apply;
    hide Enabled;
    hide GivesUp;
    hide Live;
    hide Held;
    if n > 0 {
      RunKeepsInv(c, states, steps, n - 1);
      assert StepAt(c, states, steps, n - 1) && Balanced(states[n - 1], e);
      TalliesGrow(c, states[n - 1], steps[n - 1], e);
      LiveAtMostOnce(c, states, steps, n - 1, e);
      StepGivesUp(c, states[n - 1], steps[n - 1], e);
    } else {
      NothingIsLive(e);
    }
  }

  lemma NothingIsLive(e: Record)
    ensures Live(EMPTY, e) == 0
  {
  }

  lemma LosesIffGivesUp(c: Config, states: seq<Books>, steps: seq<Step>, i: nat, n: nat, e: Record)
    requires IsRun(c, states, steps) && i < n < |states| && states[n].accepted[e] <= 1
    ensures LosesLastCopy(c, states, steps, i, e) <==> GivesUpAt(c, states, steps, i, e)
    ensures GivesUpAt(c, states, steps, i, e) ==> states[n].accepted[e] == 1
  {
    hide Apply;
    hide Enabled;
    hide GivesUp;
    hide Live;
    hide Held;
    LiveAtMostOnce(c, states, steps, n, e);
    RunKeepsInv(c, states, steps, i);
    assert StepAt(c, states, steps, i) && Balanced(states[i], e);
    StepGivesUp(c, states[i], steps[i], e);
    if states[i].accepted[e] == 0 {
      StrangersAreNotHeld(c, states, steps, i, e);
    }
  }

  /**
   Whatever the failing writes leave behind: if the events taken are all different, every one of them is
   held somewhere exactly if no step so far gave up a last copy.
   */
  lemma AllKeptIff(c: Config, states: seq<Books>, steps: seq<Step>, n: nat)
    requires IsRun(c, states, steps) && n < |states| && forall e :: states[n].accepted[e] <= 1
    ensures (forall e | e in states[n].accepted :: Held(states[n], e) > 0) <==>
            forall i, e | 0 <= i < n :: !GivesUpAt(c, states, steps, i, e)
  {
    hide StepAt;
    hide Held;
    hide GivesUpAt;
    hide LosesLastCopy;
    forall i, e | 0 <= i < n && GivesUpAt(c, states, steps, i, e)
      ensures e in states[n].accepted && Held(states[n], e) == 0
    {
      assert states[n].accepted[e] <= 1;
      LosesIffGivesUp(c, states, steps, i, n, e);
      VanishedIff(c, states, steps, n, e);
    }
    forall e | e in states[n].accepted && Held(states[n], e) == 0
      ensures exists i :: 0 <= i < n && GivesUpAt(c, states, steps, i, e)
    {
      assert states[n].accepted[e] <= 1;
      VanishedIff(c, states, steps, n, e);
      var i :| 0 <= i < n && LosesLastCopy(c, states, steps, i, e);
      LosesIffGivesUp(c, states, steps, i, n, e);
    }
  }

  // ---- writes that store all or nothing -----------------------------------------------

  predicate IsAllOrNothing(step: Step) {
    (step.WriteFailed? || step.SpillFailed?) ==> step.kept == 0
  }

  /** The fallback has no room for `more` events. */
  predicate RingIsFull(c: Config, b: Books, more: nat) {
    c.fallback.Ring? && |b.fallback| + more > c.fallback.max
  }

  /** The guard of a losing step: no room for a failed batch, a cancelled batch, or no room in the ring. */
  predicate Overflows(c: Config, b: Books, step: Step)
    requires Enabled(c, b, step)
  {
    match step
    case Requeue(i) => |b.flights[i].batch| > c.bufferMax - |b.buffer|
    case Cancel(i) => b.flights[i].batch != []
    case Enqueue(_, spillFails) => Spills(c, b, spillFails) && RingIsFull(c, b, 1)
    case Spilled(i) => b.flights[i].batch != [] && RingIsFull(c, b, |b.flights[i].batch|)
    case _ => false
  }

  predicate OverflowsAt(c: Config, states: seq<Books>, steps: seq<Step>, i: nat)
    requires IsRun(c, states, steps) && i < |steps|
  {
    assert StepAt(c, states, steps, i);
    Overflows(c, states[i], steps[i])
  }

  /** No event was taken twice, and none written twice. */
  ghost predicate OneCopyEach(c: Config, b: Books) {
    && b.repeated == multiset{} && b.merged == multiset{}
    && (forall e :: b.accepted[e] <= 1)
    && (c.fallback.Ring? ==> |b.fallback| <= c.fallback.max)
  }

  lemma FlightsAndFallbackDiffer(c: Config, b: Books, i: nat, x: Record)
    requires Inv(c, b) && OneCopyEach(c, b) && i < |b.flights|
    ensures multiset(b.fallback)[x] + multiset(b.flights[i].batch)[x] <= 1
  {
    assert Balanced(b, x);
    RemoveFlight(b.flights, i, x);
  }

  lemma SpillStep(c: Config, b: Books, i: nat)
    requires Inv(c, b) && OneCopyEach(c, b) && Enabled(c, b, Spilled(i))
    ensures OneCopyEach(c, Apply(c, b, Spilled(i)))
    ensures Apply(c, b, Spilled(i)).dropped != b.dropped <==> Overflows(c, b, Spilled(i))
  {
    forall x ensures multiset(b.fallback)[x] + multiset(b.flights[i].batch)[x] <= 1 {
      FlightsAndFallbackDiffer(c, b, i, x);
    }
    StoreAllNew(c.fallback, b.fallback, b.flights[i].batch);
  }

  lemma EnqueueStep(c: Config, b: Books, event: Record, spillFails: bool)
    requires Inv(c, b) && OneCopyEach(c, b) && b.accepted[event] == 0 && Spills(c, b, spillFails)
    ensures OneCopyEach(c, Apply(c, b, Enqueue(event, spillFails)))
    ensures Apply(c, b, Enqueue(event, spillFails)).dropped != b.dropped <==> Overflows(c, b, Enqueue(event, spillFails))
  {
    assert Balanced(b, event);
    EvictsOne(c.fallback, b.fallback, event);
    var out := StoreOne(c.fallback, b.fallback, event);
    if out.evicted != multiset{} {
      var x :| x in out.evicted;
      assert (b.dropped + out.evicted)[x] > b.dropped[x];
    }
  }

  lemma DropStep(c: Config, b: Books, step: Step)
    requires Enabled(c, b, step) && |b.buffer| <= c.bufferMax && (step.Requeue? || step.Cancel?)
    ensures Apply(c, b, step).dropped != b.dropped <==> Overflows(c, b, step)
  {
    var batch := b.flights[step.flight].batch;
    var n := if step.Cancel? then 0 else Fitting(c.bufferMax, b.buffer, batch);
    assert batch[0..] == batch;
    if n < |batch| {
      assert batch[n] in multiset(batch[n..]);
      assert (b.dropped + multiset(batch[n..]))[batch[n]] > b.dropped[batch[n]];
    } else {
      assert batch[n..] == [];
    }
  }

  /** A requeue gives up exactly the part of its batch that exceeds the free space. */
  lemma RequeueCuts(c: Config, b: Books, i: nat)
    requires FlightIs(b, i, Requeueing) && |b.buffer| <= c.bufferMax
    ensures
      var cut := |b.flights[i].batch| - (c.bufferMax - |b.buffer|);
      |Apply(c, b, Requeue(i)).dropped| == |b.dropped| + if cut > 0 then cut else 0
  {
    var batch := b.flights[i].batch;
    var n := Fitting(c.bufferMax, b.buffer, batch);
    assert |multiset(batch[n..])| == |batch| - n;
    assert |b.dropped + multiset(batch[n..])| == |b.dropped| + (|batch| - n);
  }

  lemma StepOverflows(c: Config, b: Books, step: Step)
    requires Inv(c, b) && OneCopyEach(c, b) && Enabled(c, b, step) && IsAllOrNothing(step)
    requires forall e :: Apply(c, b, step).accepted[e] <= 1
    ensures OneCopyEach(c, Apply(c, b, step))
    ensures Apply(c, b, step).dropped != b.dropped <==> Overflows(c, b, step)
  {
    match step
    case Enqueue(event, spillFails) =>
      if Takes(c, b, spillFails) {
        assert Apply(c, b, step).accepted[event] == b.accepted[event] + 1;
        if Spills(c, b, spillFails) {
          EnqueueStep(c, b, event, spillFails);
        }
      }
    case Spilled(i) => SpillStep(c, b, i);
    case Requeue(_) => DropStep(c, b, step);
    case Cancel(_) => DropStep(c, b, step);
    case WriteFailed(i, _) => assert b.flights[i].batch[..0] == [];
    case _ =>
  }

  lemma {:induction false} RunOverflows(c: Config, states: seq<Books>, steps: seq<Step>, n: nat)
    requires IsRun(c, states, steps) && n < |states|
    requires forall i | 0 <= i < n :: IsAllOrNothing(steps[i])
    requires forall e :: states[n].accepted[e] <= 1
    ensures OneCopyEach(c, states[n])
    ensures states[n].dropped != multiset{} <==> exists i | 0 <= i < n :: OverflowsAt(c, states, steps, i)
  {
    hide Apply;
    hide Held;
    hide Enabled;
    hide Overflows;
    if n > 0 {
      RunKeepsInv(c, states, steps, n - 1);
      assert StepAt(c, states, steps, n - 1);
      var before, step := states[n - 1], steps[n - 1];
      forall e ensures before.accepted[e] <= 1 {
        assert Balanced(before, e);
        TalliesGrow(c, before, step, e);
        assert states[n].accepted[e] <= 1;
      }
      RunOverflows(c, states, steps, n - 1);
      StepOverflows(c, before, step);
      DroppedStays(c, before, step);
      assert OverflowsAt(c, states, steps, n - 1) <==> states[n].dropped != before.dropped;
    }
  }

  lemma DroppedStays(c: Config, b: Books, step: Step)
    requires Inv(c, b) && Enabled(c, b, step)
    ensures b.dropped != multiset{} ==> Apply(c, b, step).dropped != multiset{}
  {
    if b.dropped != multiset{} {
      var e :| e in b.dropped;
      assert Balanced(b, e);
      TalliesGrow(c, b, step, e);
    }
  }

  /**
   With writes that store all or nothing and events that are all different, every accepted event is
   held exactly if no step's guard overflowed; each is then held exactly once.
   */
  lemma KeptIff(c: Config, states: seq<Books>, steps: seq<Step>, n: nat)
    requires IsRun(c, states, steps) && n < |states|
    requires forall i | 0 <= i < n :: IsAllOrNothing(steps[i])
    requires forall e :: states[n].accepted[e] <= 1
    ensures (forall e | e in states[n].accepted :: Held(states[n], e) > 0) <==>
            forall i | 0 <= i < n :: !OverflowsAt(c, states, steps, i)
    ensures (forall i | 0 <= i < n :: !OverflowsAt(c, states, steps, i)) ==>
            forall e :: Held(states[n], e) == states[n].accepted[e]
  {
    RunKeepsInv(c, states, steps, n);
    RunOverflows(c, states, steps, n);
    forall e ensures states[n].accepted[e] == Held(states[n], e) + states[n].dropped[e] {
      assert Balanced(states[n], e);
    }
    if states[n].dropped != multiset{} {
      var e :| e in states[n].dropped;
      assert states[n].accepted[e] <= 1;
      assert e in states[n].accepted && Held(states[n], e) == 0;
    }
  }

  // ---- runs that lose an event --------------------------------------------------------

  /** A run accepted the event, no flush is under way, and it is held nowhere. */
  predicate Vanishes(c: Config, states: seq<Books>, steps: seq<Step>, event: Record) {
    IsRun(c, states, steps) &&
    var end := states[|steps|];
    event in end.accepted && end.flights == [] && Held(end, event) == 0
  }

  lemma NoSteps(c: Config) returns (states: seq<Books>, steps: seq<Step>)
    ensures IsRun(c, states, steps) && |states| == |steps| + 1 && states[|steps|] == EMPTY
  {
    states, steps := [EMPTY], [];
  }

  lemma ExtendRun(c: Config, states: seq<Books>, steps: seq<Step>, step: Step)
    returns (states': seq<Books>, steps': seq<Step>)
    requires IsRun(c, states, steps) && |states| == |steps| + 1 && Enabled(c, states[|steps|], step)
    ensures IsRun(c, states', steps') && |states'| == |steps'| + 1
    ensures states'[|steps'|] == Apply(c, states[|steps|], step)
  {
    hide Apply;
    states', steps' := states + [Apply(c, states[|steps|], step)], steps + [step];
    forall i | 0 <= i < |steps'| ensures StepAt(c, states', steps', i) {
      assert i < |steps| ==> StepAt(c, states, steps, i);
    }
  }

  /** One event is buffered, taken by a flush, and another fills the buffer again. */
  lemma BufferRefills(c: Config, first: Record, second: Record)
    requires c.bufferMax == 1
    ensures
      var b1 := Apply(c, EMPTY, Enqueue(first, false));
      b1.buffer != [] &&
      var b3 := Apply(c, Apply(c, b1, Take), Enqueue(second, false));
      && b3.buffer == [second] && b3.flights == [Flight([first], Writing)] && first in b3.accepted
      && b3.primary == multiset{} && b3.fallback == [] && !b3.closed
  {
    assert [] + [first] == [first] && [] + [second] == [second];
  }

  lemma RefilledRun(c: Config, first: Record, second: Record) returns (states: seq<Books>, steps: seq<Step>)
    requires c.bufferMax == 1
    ensures IsRun(c, states, steps) && |states| == |steps| + 1
    ensures var b3 := states[|steps|];
      && b3.buffer == [second] && b3.flights == [Flight([first], Writing)] && first in b3.accepted
      && b3.primary == multiset{} && b3.fallback == [] && !b3.closed
  {
    BufferRefills(c, first, second);
    hide Apply;
    hide IsRun;
    states, steps := NoSteps(c);
    states, steps := ExtendRun(c, states, steps, Enqueue(first, false));
    states, steps := ExtendRun(c, states, steps, Take);
    states, steps := ExtendRun(c, states, steps, Enqueue(second, false));
  }

  /** The only flush fails at both stores, having stored nothing, and finds a full buffer. */
  lemma TwiceFailedBatch(c: Config, b: Books, batch: seq<Record>)
    requires b.flights == [Flight(batch, Writing)] && |b.buffer| == c.bufferMax
    ensures
      var b1 := Apply(c, b, WriteFailed(0, 0));
      FlightIs(b1, 0, Spilling) &&
      var b2 := Apply(c, b1, SpillFailed(0, 0));
      FlightIs(b2, 0, Requeueing) &&
      var b3 := Apply(c, b2, Requeue(0));
      && b3.buffer == b.buffer && b3.flights == [] && b3.accepted == b.accepted
      && b3.primary == b.primary && b3.fallback == b.fallback
  {
    assert batch[..0] == [];
    assert b.flights[0 := Flight(batch, Spilling)] == [Flight(batch, Spilling)];
    assert [Flight(batch, Spilling)][0 := Flight(batch, Requeueing)] == [Flight(batch, Requeueing)];
    assert b.buffer + [] == b.buffer;
  }

  /** "Never silently dropped" fails: an event refilling the buffer pushes a twice-failed batch out. */
  lemma RequeueDropsEvent(c: Config, first: Record, second: Record)
    requires c.bufferMax == 1 && first != second
    ensures exists states, steps :: Vanishes(c, states, steps, first)
  {
    hide Apply;
    hide IsRun;
    var states, steps := RefilledRun(c, first, second);
    TwiceFailedBatch(c, states[|steps|], [first]);
    states, steps := ExtendRun(c, states, steps, WriteFailed(0, 0));
    states, steps := ExtendRun(c, states, steps, SpillFailed(0, 0));
    states, steps := ExtendRun(c, states, steps, Requeue(0));
    assert Held(states[|steps|], first) == 0;
    assert Vanishes(c, states, steps, first);
  }

  /** An overflowing event takes the place of whatever a ring of one holds. */
  lemma SpillReplaces(c: Config, b: Books, e: Record)
    requires c.fallback == Ring(1) && |b.buffer| >= c.bufferMax && !b.closed && |b.fallback| <= 1 && e !in b.fallback
    ensures
      var after := Apply(c, b, Enqueue(e, false));
      && after.fallback == [e] && after.accepted == b.accepted + multiset{e}
      && after.buffer == b.buffer && after.flights == b.flights && after.primary == b.primary && after.closed == b.closed
  {
  }

  /** The only flush succeeds. */
  lemma OnlyFlushEnds(c: Config, b: Books)
    requires |b.flights| == 1 && b.flights[0].phase == Writing
    ensures
      var after := Apply(c, b, Written(0));
      && after.flights == [] && after.primary == b.primary + multiset(b.flights[0].batch)
      && after.buffer == b.buffer && after.fallback == b.fallback && after.accepted == b.accepted
  {
    assert Without(b.flights, 0) == [];
  }

  /** Two events spill into a ring of one while a flush is stalled, which then succeeds. */
  lemma SpillsEvict(c: Config, b: Books, third: Record, fourth: Record)
    requires c.fallback == Ring(1) && |b.buffer| == c.bufferMax && !b.closed && b.fallback == [] && third != fourth
    requires |b.flights| == 1 && b.flights[0].phase == Writing && third !in b.flights[0].batch
    requires b.primary == multiset{} && third !in b.buffer
    ensures
      var b1 := Apply(c, b, Enqueue(third, false));
      var b2 := Apply(c, b1, Enqueue(fourth, false));
      FlightIs(b2, 0, Writing) &&
      var b3 := Apply(c, b2, Written(0));
      third in b3.accepted && b3.flights == [] && Held(b3, third) == 0
  {
    hide Apply;
    SpillReplaces(c, b, third);
    var b1 := Apply(c, b, Enqueue(third, false));
    SpillReplaces(c, b1, fourth);
    var b2 := Apply(c, b1, Enqueue(fourth, false));
    OnlyFlushEnds(c, b2);
  }

  /** Nor does the default fallback keep what it is given: a second spill evicts the first. */
  lemma EvictionDropsEvent(c: Config, first: Record, second: Record, third: Record, fourth: Record)
    requires c == Config(1, Ring(1)) && third != first && third != second && third != fourth
    ensures exists states, steps :: Vanishes(c, states, steps, third)
  {
    hide Apply;
    hide IsRun;
    var states, steps := RefilledRun(c, first, second);
    SpillsEvict(c, states[|steps|], third, fourth);
    states, steps := ExtendRun(c, states, steps, Enqueue(third, false));
    states, steps := ExtendRun(c, states, steps, Enqueue(fourth, false));
    states, steps := ExtendRun(c, states, steps, Written(0));
    assert Vanishes(c, states, steps, third);
  }

  // ---- the writer ---------------------------------------------------------------------

  class Writer {
    const bufferMax: nat
    const fallbackKind: Fallback
    var buffer: seq<Record>
    var closed: bool
    var degraded: bool
    /** The fallback's rows. */
    var fallback: seq<Record>
    /** The suspended flushes with their local `batch`, what the primary holds, and the tallies of `Books`. */
    ghost var flights: seq<Flight>
    ghost var primary: multiset<Record>
    ghost var accepted: multiset<Record>
    ghost var repeated: multiset<Record>
    ghost var dropped: multiset<Record>
    ghost var merged: multiset<Record>

    ghost function State(): Books
      reads this
    {
      Books(buffer, flights, closed, degraded, primary, fallback, accepted, repeated, dropped, merged)
    }

    function Limits(): Config {
      Config(bufferMax, fallbackKind)
    }

    ghost predicate Valid()
      reads this
    {
      Inv(Limits(), State())
    }

    constructor (c: Config)
      ensures Valid() && State() == EMPTY && Limits() == c
    {
      bufferMax, fallbackKind := c.bufferMax, c.fallback;
      buffer, closed, degraded, fallback, flights := [], false, false, [], [];
      primary, accepted, repeated, dropped, merged := multiset{}, multiset{}, multiset{}, multiset{}, multiset{};
    }

    /** The lock is held across the spill, so the whole call is one step. */
    method Enqueue(event: Record, spillFails: bool) returns (ok: bool)
      requires Valid()
      modifies this
      ensures Valid() && State() == Apply(Limits(), old(State()), Step.Enqueue(event, spillFails))
      ensures var room := old(|buffer|) < bufferMax;
        && (ok <==> !old(closed) && (room || (!spillFails && (fallbackKind.Keeps? || fallbackKind.max >= 1))))
        && (ok ==> buffer == if room then old(buffer) + [event] else old(buffer))
        && (ok && room ==> fallback == old(fallback))
      ensures ok ==> accepted == old(accepted) + multiset{event} && (event in buffer || event in fallback)
      ensures !ok ==> State() == old(State())
    {
      hide Inv;
      hide StoreOne;
      hide Apply;
      StepKeepsInv(Limits(), State(), Step.Enqueue(event, spillFails));
      EnqueueCases(Limits(), State(), event, spillFails);
      if closed {
        return false;
      }
      if |buffer| >= bufferMax {
        if spillFails || !fallbackKind.Works() {
          return false;
        }
        var out := StoreOne(fallbackKind, fallback, event);
        fallback, dropped, merged := out.rows, dropped + out.evicted, merged + out.merged;
      } else {
        buffer := buffer + [event];
      }
      accepted := accepted + multiset{event};
      return true;
    }

    /** The first locked region of a flush. */
    method TakeBatch() returns (batch: seq<Record>)
      requires Valid()
      modifies this
      ensures Valid() && batch == old(buffer) && buffer == []
      ensures State() == if batch == [] then old(State()) else Apply(Limits(), old(State()), Take)
    {
      hide Inv;
      batch := buffer;
      if buffer == [] {
        return;
      }
      StepKeepsInv(Limits(), State(), Take);
      buffer, flights := [], flights + [Flight(buffer, Writing)];
    }

    /** The second locked region of a flush: put back what fits. */
    method RequeueBatch(batch: seq<Record>, ghost i: nat)
      requires Valid() && FlightIs(State(), i, Requeueing) && flights[i].batch == batch
      modifies this
      ensures Valid() && State() == Apply(Limits(), old(State()), Requeue(i))
      ensures |buffer| == if old(|buffer|) + |batch| <= bufferMax then old(|buffer|) + |batch| else bufferMax
    {
      hide Inv;
      hide Apply;
      StepKeepsInv(Limits(), State(), Requeue(i));
      RoomIsLeft(Limits(), State());
      RequeueCase(Limits(), State(), i);
      hide FlightIs;
      hide Without;
      var space := bufferMax - |buffer|;
      var kept := if |batch| <= space then batch else batch[..space];
      ghost var after := Apply(Limits(), State(), Requeue(i));
      buffer := buffer + kept;
      dropped, flights := after.dropped, after.flights;
      assert State() == after;
    }
  }
}
