/**
 `AuditModule._log_unsafe`: log to the primary; on failure mark the session degraded and log to the
 fallback; on the next success mark the recovery and replay the fallback.

 Runs are sequential `log` calls of one session. The primary fails at arbitrary calls, the fallback
 succeeds, and a drain is all or nothing.
 */
module OutageRuns {
  import opened Wrappers
  import opened Records
  import opened Ledger
  import opened MemoryStore
  import opened JsonlStore

  const DEGRADED_START := "chain.degraded_start"

  /** The discontinuity marker written next to an event. */
  function MarkerFor(event: Body, id: Uuid, at: Timestamp): Body {
    Body(id, event.sessionId, event.agentId, None, DEGRADED_START, None, None, None,
         "{\"reason\":\"store unreachable at session start\"}", None, at)
  }

  predicate IsMarker(r: Record) {
    r.body.kind == DEGRADED_START
  }

  /** A valid marker row of the event's session and agent, whatever its id and the hash it links to. */
  predicate Marks(secret: Secret, r: Record, event: Body, at: Timestamp) {
    && VerifyEvent(r, secret)
    && r.body == Body(r.body.eventId, event.sessionId, event.agentId, None, "chain.degraded_start", None, None, None,
                      r.body.metadata, r.body.prevHash, at)
  }

  /** The rows as the fallback holds them: a file drops the model and the signature. */
  function AsHeld(rows: seq<Record>, fromFile: bool): (held: seq<Record>)
    ensures |held| == |rows|
  {
    seq(|rows|, i requires 0 <= i < |rows| => if fromFile then ThroughFile(rows[i]) else rows[i])
  }

  // ---- what a run keeps ---------------------------------------------------------------

  /** Row i links to the row before it, or is a marker. */
  predicate LinkedOrMarker(rows: seq<Record>, i: nat)
    requires 1 <= i < |rows|
  {
    LinkedAt(rows, i) || IsMarker(rows[i])
  }

  predicate GapsAreMarked(rows: seq<Record>) {
    forall i | 1 <= i < |rows| :: LinkedOrMarker(rows, i)
  }

  /** The row is stored, either as built or as it comes back from the file. */
  predicate Kept(rows: seq<Record>, r: Record) {
    r in rows || ThroughFile(r) in rows
  }

  ghost predicate IdsBelow(rows: seq<Record>, bound: nat) {
    forall r | r in rows :: r.body.eventId < bound
  }

  /** Every row accepted so far is stored exactly once: ids are distinct, nothing is missing or extra. */
  ghost predicate ExactlyOnce(stored: seq<Record>, accepted: seq<Record>) {
    && DistinctIds(stored)
    && |stored| == |accepted|
    && DistinctIds(accepted)
    && forall r | r in accepted :: Kept(stored, r)
  }

  /**
   The primary's and the fallback's rows, the hash the fallback would link the next row to, whether
   the session is marked degraded, every row accepted so far, the next unused id, whether the
   fallback writes to its file, and whether rows were ever replayed from it.
   */
  datatype Books = Books(
    primary: seq<Record>, pending: seq<Record>, prev: Option<Digest>, degraded: bool,
    accepted: seq<Record>, nextId: nat, fromFile: bool, replayed: bool)

  ghost predicate OutageInv(session: Uuid, b: Books) {
    && (forall r | r in b.primary + b.pending :: r.body.sessionId == session)
    && GenesisRooted(b.primary) && GapsAreMarked(b.primary)
    && (b.pending != [] ==> IsMarker(b.pending[0]) && b.prev == LastHmac(b.pending))
    && Linked(b.pending)
    && (b.degraded ==> b.pending != [])
    && ExactlyOnce(b.primary + b.pending, b.accepted)
    && IdsBelow(b.primary + b.pending, b.nextId) && IdsBelow(b.accepted, b.nextId)
    && (b.fromFile ==> FileStartsAfresh(b) && (Linked(b.primary) <==> !b.replayed))
  }

  /** A file starts each outage without a predecessor. */
  ghost predicate FileStartsAfresh(b: Books) {
    if b.pending == [] then b.prev == None else b.pending[0].body.prevHash == None
  }

  lemma AcceptOne(stored: seq<Record>, accepted: seq<Record>, r: Record, row: Record, nextId: nat)
    requires ExactlyOnce(stored, accepted) && IdsBelow(stored, nextId) && IdsBelow(accepted, nextId)
    requires r.body.eventId == nextId && (row == r || row == ThroughFile(r))
    ensures ExactlyOnce(stored + [row], accepted + [r])
    ensures IdsBelow(stored + [row], nextId + 1) && IdsBelow(accepted + [r], nextId + 1)
  {
    forall i, j | 0 <= i < j < |stored + [row]|
      ensures (stored + [row])[i].body.eventId != (stored + [row])[j].body.eventId
    {
      assert stored[i] in stored;
    }
    forall i, j | 0 <= i < j < |accepted + [r]|
      ensures (accepted + [r])[i].body.eventId != (accepted + [r])[j].body.eventId
    {
      assert accepted[i] in accepted;
    }
    forall a | a in accepted + [r] ensures Kept(stored + [row], a) {
      assert a == r || Kept(stored, a);
    }
  }

  /** The order the rows are stored in does not matter to `ExactlyOnce`. */
  lemma Regroup(primary: seq<Record>, pending: seq<Record>, row: Record, accepted: seq<Record>, nextId: nat)
    requires ExactlyOnce(primary + pending + [row], accepted) && IdsBelow(primary + pending + [row], nextId)
    ensures ExactlyOnce(primary + [row] + pending, accepted) && IdsBelow(primary + [row] + pending, nextId)
  {
    var before, after := primary + pending + [row], primary + [row] + pending;
    forall i, j | 0 <= i < j < |after| ensures after[i].body.eventId != after[j].body.eventId {
      var i' := if i < |primary| then i else if i == |primary| then |before| - 1 else i - 1;
      var j' := if j < |primary| then j else if j == |primary| then |before| - 1 else j - 1;
      assert after[i] == before[i'] && after[j] == before[j'];
    }
    forall a | a in accepted ensures Kept(after, a) {
      assert Kept(before, a);
    }
  }

  lemma GapsAppend(rows: seq<Record>, r: Record)
    requires GapsAreMarked(rows) && (rows == [] || r.body.prevHash == LastHmac(rows) || IsMarker(r))
    ensures GapsAreMarked(rows + [r])
  {
    forall i | 1 <= i < |rows| + 1 ensures LinkedOrMarker(rows + [r], i) {
      assert i < |rows| ==> LinkedOrMarker(rows, i);
      assert LinkedAt(rows + [r], i) || i < |rows| || IsMarker(r);
    }
  }

  lemma NoLongerDegraded(session: Uuid, b: Books)
    requires OutageInv(session, b)
    ensures OutageInv(session, b.(degraded := false))
  {
  }

  lemma DegradedHasPending(session: Uuid, b: Books)
    requires OutageInv(session, b) && b.degraded
    ensures b.pending != []
  {
  }

  lemma EmptyFileHasNoHead(session: Uuid, b: Books)
    requires OutageInv(session, b) && b.fromFile && b.pending == []
    ensures b.prev == None
  {
  }

  lemma PrimaryIsOneSession(session: Uuid, b: Books)
    requires OutageInv(session, b)
    ensures SessionRows(b.primary, session) == b.primary
  {
    assert forall r | r in b.primary :: r in b.primary + b.pending;
    OneSessionIsItsRows(b.primary, session);
  }

  lemma LinkedAppend(rows: seq<Record>, r: Record)
    requires rows != [] ==> r.body.prevHash == LastHmac(rows)
    ensures Linked(rows + [r]) <==> Linked(rows)
  {
    forall i | 1 <= i < |rows| ensures LinkedAt(rows + [r], i) == LinkedAt(rows, i) {
    }
    assert rows != [] ==> LinkedAt(rows + [r], |rows|);
  }

  /** A row built on the primary's newest hash. */
  lemma PrimaryAccepts(session: Uuid, b: Books, r: Record)
    requires OutageInv(session, b)
    requires r.body.sessionId == session && r.body.eventId == b.nextId && r.body.prevHash == LastHmac(b.primary)
    ensures OutageInv(session, b.(primary := b.primary + [r], accepted := b.accepted + [r], nextId := b.nextId + 1))
  {
    GapsAppend(b.primary, r);
    LinkedAppend(b.primary, r);
    AcceptOne(b.primary + b.pending, b.accepted, r, r, b.nextId);
    Regroup(b.primary, b.pending, r, b.accepted + [r], b.nextId + 1);
  }

  /** A row built on the fallback's newest hash: a marker, or an event behind one. */
  lemma FallbackAccepts(session: Uuid, b: Books, r: Record, row: Record)
    requires OutageInv(session, b)
    requires r.body.sessionId == session && r.body.eventId == b.nextId && r.body.prevHash == b.prev
    requires row == r || row == ThroughFile(r)
    requires b.pending == [] ==> IsMarker(r)
    ensures OutageInv(session, b.(pending := b.pending + [row], prev := Some(r.hmac), degraded := true,
                                  accepted := b.accepted + [r], nextId := b.nextId + 1))
  {
    LinkedAppend(b.pending, row);
    AcceptOne(b.primary + b.pending, b.accepted, r, row, b.nextId);
    assert b.primary + b.pending + [row] == b.primary + (b.pending + [row]);
  }

  /** A drain moves the pending rows, whose first is a marker, behind the primary's. */
  lemma DrainAccepts(session: Uuid, b: Books, prev': Option<Digest>)
    requires OutageInv(session, b) && b.primary != []
    requires b.fromFile ==> prev' == None
    ensures OutageInv(session, b.(primary := b.primary + b.pending, pending := [], prev := prev', degraded := false,
                                  replayed := b.replayed || b.pending != []))
  {
    ReplayedGapsAreMarked(b.primary, b.pending);
    var stored := b.primary + b.pending;
    assert stored + [] == stored;
    if b.pending == [] {
      assert stored == b.primary;
    } else if b.fromFile {
      assert !LinkedAt(stored, |b.primary|);
    }
  }

  lemma ReplayedGapsAreMarked(primary: seq<Record>, pending: seq<Record>)
    requires GapsAreMarked(primary) && Linked(pending) && (pending != [] ==> IsMarker(pending[0]))
    ensures GapsAreMarked(primary + pending)
  {
    var stored := primary + pending;
    forall i | 1 <= i < |stored| ensures LinkedOrMarker(stored, i) {
      if i < |primary| {
        assert LinkedOrMarker(primary, i);
      } else if i > |primary| {
        assert LinkedAt(pending, i - |primary|);
        assert LinkedAt(stored, i);
      }
    }
  }

  lemma PendingIsNew(session: Uuid, b: Books)
    requires OutageInv(session, b)
    ensures AllNew(b.primary, b.pending)
  {
    var primary, pending, stored := b.primary, b.pending, b.primary + b.pending;
    forall i, k | 0 <= i < |pending| && 0 <= k < |primary| ensures primary[k].body.eventId != pending[i].body.eventId {
      assert stored[k] == primary[k] && stored[|primary| + i] == pending[i];
    }
    forall i, j | 0 <= i < j < |pending| ensures pending[i].body.eventId != pending[j].body.eventId {
      assert stored[|primary| + i] == pending[i] && stored[|primary| + j] == pending[j];
    }
  }

  lemma {:induction false} DeliverNew(target: seq<Record>, batch: seq<Record>)
    requires AllNew(target, batch)
    ensures Deliver(target, batch) == target + batch
  {
    if batch != [] {
      var init, last := batch[..|batch| - 1], batch[|batch| - 1];
      DeliverNew(target, init);
      HasIdConcat(target, init, last.body.eventId);
    } else {
      assert target + batch == target;
    }
  }

  lemma NewInParts(target: seq<Record>, rows: seq<Record>, n: nat)
    requires AllNew(target, rows) && n <= |rows|
    ensures AllNew(target, rows[..n]) && AllNew(target + rows[..n], rows[n..])
  {
    var first, rest := rows[..n], rows[n..];
    forall i | 0 <= i < |rest| ensures !HasId(target + first, rest[i].body.eventId) {
      assert rest[i] == rows[n + i];
      HasIdConcat(target, first, rest[i].body.eventId);
      forall k | 0 <= k < |first| ensures first[k].body.eventId != rest[i].body.eventId {
        assert first[k] == rows[k];
      }
    }
  }

  lemma {:induction false} SendNew(onDuplicate: OnDuplicate, target: seq<Record>, rows: seq<Record>)
    requires AllNew(target, rows)
    ensures SendAll(onDuplicate, target, rows, []) == Sent(target + rows, [], true, [])
    decreases |rows|
  {
    if rows == [] {
      assert target + rows == target;
    } else {
      var n := if |rows| < DRAIN_BATCH_SIZE then |rows| else DRAIN_BATCH_SIZE;
      NewInParts(target, rows, n);
      DeliverNew(target, rows[..n]);
      SendNew(onDuplicate, target + rows[..n], rows[n..]);
      assert target + rows[..n] + rows[n..] == target + rows;
    }
  }

  /** A first call that fails leaves everything where it was. */
  lemma FailNew(onDuplicate: OnDuplicate, target: seq<Record>, rows: seq<Record>)
    requires rows != []
    ensures SendAll(onDuplicate, target, rows, [Fails(0)]) == Sent(target, rows, false, [])
  {
    assert rows[..BatchSize(rows)][..0] == [];
  }

  // ---- what one call adds -------------------------------------------------------------

  /** The primary's rows, the rows waiting in the fallback, and every row accepted so far. */
  datatype View = View(primary: seq<Record>, pending: seq<Record>, accepted: seq<Record>)

  /** How a call went: a recovery reached the primary, it replayed the fallback, the event went to the primary. */
  datatype Course = Course(recovered: bool, replayed: bool, onPrimary: bool, firstOfOutage: bool)

  function Count(b: bool): nat {
    if b then 1 else 0
  }

  /** A recovery writes one marker behind the primary's rows, and the replayed rows behind that. */
  ghost predicate AfterRecovery(secret: Secret, event: Body, at: Timestamp, recovered: bool, replayed: bool, v: View, v': View) {
    if !recovered then v' == v
    else
      var n := |v.accepted|;
      && |v'.accepted| == n + 1 && v'.accepted[..n] == v.accepted
      && Marks(secret, v'.accepted[n], event, at) && v'.accepted[n].body.prevHash == LastHmac(v.primary)
      && v'.primary == v.primary + [v'.accepted[n]] + (if replayed then v.pending else [])
      && v'.pending == if replayed then [] else v.pending
  }

  lemma NoRecovery(secret: Secret, event: Body, at: Timestamp, v: View)
    ensures AfterRecovery(secret, event, at, false, false, v, v)
  {
  }

  ghost predicate AfterPrimary(v: View, v': View, record: Record) {
    && v' == View(v.primary + [record], v.pending, v.accepted + [record])
    && record.body.prevHash == LastHmac(v.primary)
  }

  /** The fallback takes the event, behind one marker if it is the first of the outage. */
  ghost predicate AfterFallback(secret: Secret, event: Body, at: Timestamp, first: bool, fromFile: bool,
                                v: View, v': View, record: Record)
  {
    var n := |v.accepted|;
    && |v'.accepted| == n + Count(first) + 1 && v'.accepted[..n] == v.accepted
    && v'.accepted[|v'.accepted| - 1] == record
    && (first ==> Marks(secret, v'.accepted[n], event, at))
    && v'.primary == v.primary && v'.pending == v.pending + AsHeld(v'.accepted[n..], fromFile)
  }

  lemma EventTaken(secret: Secret, event: Body, at: Timestamp, fromFile: bool, v: View, v': View, record: Record)
    requires v' == View(v.primary, v.pending + AsHeld([record], fromFile), v.accepted + [record])
    ensures AfterFallback(secret, event, at, false, fromFile, v, v', record)
  {
    assert v'.accepted[|v.accepted|..] == [record];
  }

  lemma MarkerAndEventTaken(secret: Secret, event: Body, at: Timestamp, fromFile: bool,
                            v: View, mid: View, v': View, marker: Record, record: Record)
    requires Marks(secret, marker, event, at)
    requires mid == View(v.primary, v.pending + AsHeld([marker], fromFile), v.accepted + [marker])
    requires v' == View(mid.primary, mid.pending + AsHeld([record], fromFile), mid.accepted + [record])
    ensures AfterFallback(secret, event, at, true, fromFile, v, v', record)
  {
    hide Marks;
    assert v'.accepted[|v.accepted|..] == [marker, record];
    assert AsHeld([marker, record], fromFile) == AsHeld([marker], fromFile) + AsHeld([record], fromFile);
    assert v'.accepted[..|v.accepted|] == v.accepted;
  }

  /**
   Everything one call writes: one marker for a recovery, one for the first event of an outage, no other;
   then the event. Each goes where it belongs, and nothing else moves but replayed rows.
   */
  ghost predicate Logged(secret: Secret, event: Body, at: Timestamp, c: Course, fromFile: bool,
                         v: View, v': View, record: Record)
  {
    var n, markers := |v.accepted|, Count(c.recovered) + Count(c.firstOfOutage);
    && |v'.accepted| == n + markers + 1 && v'.accepted[..n] == v.accepted && v'.accepted[n + markers] == record
    && (forall i | n <= i < n + markers :: Marks(secret, v'.accepted[i], event, at))
    && (c.recovered ==> v'.accepted[n].body.prevHash == LastHmac(v.primary))
    && v'.primary == v.primary + (if c.recovered then [v'.accepted[n]] else [])
         + (if c.replayed then v.pending else []) + (if c.onPrimary then [record] else [])
    && (c.onPrimary ==> record.body.prevHash == LastHmac(v'.primary[..|v'.primary| - 1]))
    && v'.pending == (if c.replayed then [] else v.pending)
         + (if c.onPrimary then [] else AsHeld(v'.accepted[n + Count(c.recovered)..], fromFile))
  }

  lemma PrimaryLogged(secret: Secret, event: Body, at: Timestamp, c: Course, fromFile: bool,
                      v: View, mid: View, v': View, record: Record)
    requires AfterRecovery(secret, event, at, c.recovered, c.replayed, v, mid) && AfterPrimary(mid, v', record)
    requires c.onPrimary && !c.firstOfOutage && (c.replayed ==> c.recovered)
    ensures Logged(secret, event, at, c, fromFile, v, v', record)
    ensures v'.primary != [] && v'.primary[|v'.primary| - 1] == record
    ensures v'.pending == [] <==> v.pending == [] || c.replayed
  {
    hide Marks;
    hide LastHmac;
    assert v'.primary[..|v'.primary| - 1] == mid.primary;
    assert v'.accepted[..|v.accepted|] == mid.accepted[..|v.accepted|] == v.accepted;
  }

  lemma FallbackLogged(secret: Secret, event: Body, at: Timestamp, c: Course, fromFile: bool,
                       v: View, mid: View, v': View, record: Record)
    requires AfterRecovery(secret, event, at, c.recovered, c.replayed, v, mid) && AfterFallback(secret, event, at, c.firstOfOutage, fromFile, mid, v', record)
    requires !c.onPrimary && (c.replayed ==> c.recovered)
    ensures Logged(secret, event, at, c, fromFile, v, v', record)
  {
    hide Marks;
    hide LastHmac;
    hide AsHeld;
    assert v'.accepted[..|v.accepted|] == v'.accepted[..|mid.accepted|][..|v.accepted|] == v.accepted;
    assert c.recovered ==> v'.accepted[|v.accepted|] == v'.accepted[..|mid.accepted|][|v.accepted|];
  }

  // ---- the audit module ---------------------------------------------------------------

  class AuditModule {
    const secret: Secret
    const session: Uuid
    const store: PrimaryStore
    const fallback: JsonlFallbackStore
    var degradedStarts: set<Uuid>
    /** Stands for the freshness of the ids the builders draw. */
    var nextId: nat
    /** Every row some store has accepted, in the order they were built. */
    ghost var accepted: seq<Record>
    /** Whether a drain has ever moved rows into the primary. */
    ghost var replayed: bool

    /** The rows waiting in the fallback. */
    ghost function Pending(): seq<Record>
      reads this, fallback
    {
      if fallback.fsAvailable then fallback.Lines() else fallback.memoryBuffer
    }

    ghost function Seen(): View
      reads this, store, fallback
    {
      View(store.rows, Pending(), accepted)
    }

    ghost function BooksWhen(degraded: bool): Books
      requires fallback.Valid()
      reads this, store, fallback
    {
      Books(store.rows, Pending(), fallback.PrevFor(session), degraded,
            accepted, nextId, fallback.fsAvailable, replayed)
    }

    ghost predicate Inv(degraded: bool)
      reads this, store, fallback
    {
      && fallback.Valid()
      && (!fallback.fsAvailable ==> fallback.Lines() == [])
      && (fallback.fsAvailable && Pending() != [] ==> fallback.file.Some?)
      && OutageInv(session, BooksWhen(degraded))
    }

    ghost predicate Valid()
      reads this, store, fallback
    {
      Inv(session in degradedStarts)
    }

    constructor (secret: Secret, session: Uuid, store: PrimaryStore, fallback: JsonlFallbackStore)
      requires store.rows == [] && fallback.Valid() && fallback.Lines() == [] && fallback.memoryBuffer == []
      requires fallback.initialized == {}
      ensures Valid() && !replayed && accepted == [] && degradedStarts == {}
      ensures this.secret == secret && this.session == session && this.store == store && this.fallback == fallback
    {
      this.secret, this.session, this.store, this.fallback := secret, session, store, fallback;
      degradedStarts, nextId, accepted, replayed := {}, 0, [], false;
    }

    method InsertPrimary(event: Body, signature: Signature, unreachable: bool) returns (record: Option<Record>)
      requires Valid() && event.sessionId == session
      modifies this`nextId, this`accepted, store
      ensures Valid()
      ensures unreachable ==> record == None && store.rows == old(store.rows) && accepted == old(accepted)
      ensures !unreachable ==>
        && record.Some? && VerifyEvent(record.value, secret)
        && record.value.body == event.(eventId := old(nextId), prevHash := LastHmac(old(store.rows)))
        && store.rows == old(store.rows) + [record.value]
        && accepted == old(accepted) + [record.value]
    {
      hide OutageInv;
      ghost var books := BooksWhen(session in degradedStarts);
      record := store.InsertWithChainLock(secret, event.(eventId := nextId), signature, unreachable);
      if record.Some? {
        PrimaryIsOneSession(session, books);
        PrimaryAccepts(session, books, record.value);
        accepted, nextId := accepted + [record.value], nextId + 1;
      }
    }

    method InsertFallback(event: Body, signature: Signature, ghost degraded: bool) returns (record: Record)
      requires Inv(degraded) && event.sessionId == session
      requires degraded || event.kind == DEGRADED_START
      modifies this`nextId, this`accepted, fallback
      ensures Inv(true)
      ensures degradedStarts == old(degradedStarts) && fallback.fsAvailable == old(fallback.fsAvailable)
      ensures VerifyEvent(record, secret)
      ensures record.body == event.(eventId := old(nextId), prevHash := old(fallback.PrevFor(session)))
      ensures Pending() == old(Pending()) + AsHeld([record], fallback.fsAvailable)
      ensures accepted == old(accepted) + [record]
    {
      hide OutageInv;
      ghost var books := BooksWhen(degraded);
      record := fallback.InsertWithChainLock(secret, event.(eventId := nextId), signature, NoFault);
      ghost var row := if fallback.fsAvailable then ThroughFile(record) else record;
      assert Pending() == books.pending + [row];
      if degraded {
        DegradedHasPending(session, books);
      }
      FallbackAccepts(session, books, record, row);
      accepted, nextId := accepted + [record], nextId + 1;
    }

    /** Best effort: an outage leaves everything where it was, and the error is swallowed. */
    method MaybeDrainFallback(drainDown: bool)
      requires Valid() && store.rows != [] && session !in degradedStarts
      modifies this`replayed, store, fallback
      ensures Valid() && fallback.fsAvailable == old(fallback.fsAvailable)
      ensures if drainDown && old(Pending()) != []
              then store.rows == old(store.rows) && Pending() == old(Pending()) && replayed == old(replayed)
              else store.rows == old(store.rows) + old(Pending()) && Pending() == []
                   && replayed == (old(replayed) || old(Pending()) != [])
    {
      hide OutageInv;
      ghost var books := BooksWhen(session in degradedStarts);
      PendingIsNew(session, books);
      SendNew(store.onDuplicate, store.rows, Pending());
      if Pending() != [] {
        FailNew(store.onDuplicate, store.rows, Pending());
      }
      var _ := fallback.DrainTo(store, if drainDown then [Fails(0)] else []);
      if books.fromFile && books.pending == [] {
        EmptyFileHasNoHead(session, books);
      }
      if !drainDown || books.pending == [] {
        DrainAccepts(session, books, fallback.PrevFor(session));
        replayed := replayed || books.pending != [];
        assert store.rows == books.primary + books.pending;
      }
    }

    /** Mark the recovery on the primary; only then stop being degraded, and replay the fallback. */
    method Recover(event: Body, at: Timestamp, markerDown: bool, drainDown: bool) returns (reached: bool)
      requires Valid() && event.sessionId == session && session in degradedStarts
      modifies this, store, fallback
      ensures Valid() && fallback.fsAvailable == old(fallback.fsAvailable)
      ensures reached <==> !markerDown
      ensures session in degradedStarts <==> !reached
      ensures AfterRecovery(secret, event, at, reached, reached && !drainDown, old(Seen()), Seen())
    {
      hide OutageInv;
      var marker := InsertPrimary(MarkerFor(event, 0, at), UNSIGNED, markerDown);
      if marker == None {
        return false;
      }
      NoLongerDegraded(session, BooksWhen(session in degradedStarts));
      degradedStarts := degradedStarts - {session};
      MaybeDrainFallback(drainDown);
      return true;
    }

    /** The first degraded event of a session is preceded by a marker. */
    method LogToFallback(event: Body, signature: Signature, at: Timestamp) returns (record: Record)
      requires Valid() && event.sessionId == session
      modifies this, fallback
      ensures Valid() && session in degradedStarts && Pending() != []
      ensures VerifyEvent(record, secret)
      ensures record.body == event.(eventId := record.body.eventId, prevHash := record.body.prevHash)
      ensures fallback.fsAvailable == old(fallback.fsAvailable)
      ensures AfterFallback(secret, event, at, old(session !in degradedStarts), fallback.fsAvailable,
                            old(Seen()), Seen(), record)
    {
      hide OutageInv;
      hide AfterFallback;
      hide AsHeld;
      ghost var before, fromFile := Seen(), fallback.fsAvailable;
      var first := session !in degradedStarts;
      degradedStarts := degradedStarts + {session};
      assert Inv(!first);
      if first {
        var _ := InsertFallback(MarkerFor(event, 0, at), UNSIGNED, false);
      }
      ghost var mid := Seen();
      record := InsertFallback(event, signature, true);
      if first {
        MarkerAndEventTaken(secret, event, at, fromFile, before, mid, Seen(), mid.accepted[|before.accepted|], record);
      } else {
        EventTaken(secret, event, at, fromFile, before, Seen(), record);
      }
      DegradedHasPending(session, BooksWhen(true));
    }

    /**
     One `log` call. `markerDown`, `drainDown` and `insertDown` say whether the primary is down when
     the recovery marker, the drain and the event reach it.
     */
    method LogUnsafe(event: Body, signature: Signature, at: Timestamp,
                     markerDown: bool, drainDown: bool, insertDown: bool) returns (record: Record)
      requires Valid() && event.sessionId == session
      modifies this, store, fallback
      ensures Valid() && fallback.fsAvailable == old(fallback.fsAvailable)
      ensures VerifyEvent(record, secret)
      ensures record.body == event.(eventId := record.body.eventId, prevHash := record.body.prevHash)
      ensures session in degradedStarts <==> insertDown || (old(session in degradedStarts) && markerDown)
      ensures session in degradedStarts ==> Pending() != []
      ensures session !in degradedStarts ==> store.rows != [] && store.rows[|store.rows| - 1] == record
      ensures session !in degradedStarts ==>
        (Pending() == [] <==> old(Pending()) == [] || (old(session in degradedStarts) && !drainDown))
      ensures
        var recovered, onPrimary := old(session in degradedStarts) && !markerDown, session !in degradedStarts;
        var firstOfOutage := !onPrimary && (recovered || old(session !in degradedStarts));
        Logged(secret, event, at, Course(recovered, recovered && !drainDown, onPrimary, firstOfOutage),
               fallback.fsAvailable, old(Seen()), Seen(), record)
    {
      hide OutageInv;
      hide Logged;
      hide AfterRecovery;
      hide AfterFallback;
      ghost var before, recovered := Seen(), session in degradedStarts && !markerDown;
      ghost var firstOfOutage := recovered || session !in degradedStarts;
      var reached := true;
      if session in degradedStarts {
        reached := Recover(event, at, markerDown, drainDown);
      }
      ghost var mid := Seen();
      ghost var course := Course(recovered, recovered && !drainDown, true, false);
      if mid == before {
        NoRecovery(secret, event, at, before);
      }
      if reached {
        var stored := InsertPrimary(event, signature, insertDown);
        if stored.Some? {
          PrimaryLogged(secret, event, at, course, fallback.fsAvailable, before, mid, Seen(), stored.value);
          return stored.value;
        }
      }
      record := LogToFallback(event, signature, at);
      course := Course(recovered, recovered && !drainDown, false, firstOfOutage);
      FallbackLogged(secret, event, at, course, fallback.fsAvailable, before, mid, Seen(), record);
    }

    /**
     An event during an outage, a recovery whose replay fails, then any number of successful calls: the
     replay is never retried, and the rows still wait in the fallback.
     */
    method FailedReplayIsNotRetried(event: Body, signature: Signature, at: Timestamp, later: nat)
      requires Valid() && event.sessionId == session
      modifies this, store, fallback
      ensures Valid() && session !in degradedStarts && Pending() != []
    {
      var _ := LogUnsafe(event, signature, at, false, false, true);
      var _ := LogUnsafe(event, signature, at, false, true, false);
      for i := 0 to later
        invariant Valid() && session !in degradedStarts && Pending() != []
      {
        var _ := LogUnsafe(event, signature, at, false, false, false);
      }
    }
  }
}
