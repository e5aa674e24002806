/** The in-memory audit store: one sequence of rows kept under three indexes, with a size cap. */
module MemoryStore {
  import opened Wrappers
  import opened Records
  import opened Ledger
  import opened ChainVerifier
  import SessionLinkage

  datatype StoreError = StoreFull | PopFromEmpty

  predicate HasId(rows: seq<Record>, id: Uuid) {
    exists i | 0 <= i < |rows| :: rows[i].body.eventId == id
  }

  function Ids(rows: seq<Record>): (ids: seq<Uuid>)
    ensures |ids| == |rows|
  {
    seq(|rows|, i requires 0 <= i < |rows| => rows[i].body.eventId)
  }

  // ---- the store on values ------------------------------------------------------------

  /** The rows left after making room for one more: none dropped below the cap, else the oldest go. */
  function MakeRoom(rows: seq<Record>, max: int, evict: bool): Result<seq<Record>, StoreError> {
    if |rows| < max then Ok(rows)
    else if !evict then Err(StoreFull)
    else if max >= 1 then Ok(rows[|rows| - (max - 1)..])
    else Err(PopFromEmpty)
  }

  /** `write_batch`: rows whose id is present are skipped; the first refusal ends the batch. */
  function WriteAll(rows: seq<Record>, batch: seq<Record>, max: int, evict: bool): (seq<Record>, bool) {
    if batch == [] then (rows, true)
    else
      var (before, ok) := WriteAll(rows, batch[..|batch| - 1], max, evict);
      var event := batch[|batch| - 1];
      if !ok || HasId(before, event.body.eventId) then (before, ok)
      else
        match MakeRoom(before, max, evict)
        case Ok(kept) => (kept + [event], true)
        case Err(StoreFull) => (before, false)
        case Err(PopFromEmpty) => ([], false)
  }

  /** How many rows a batch write appends, evicted again or not. */
  function Appended(rows: seq<Record>, batch: seq<Record>, max: int, evict: bool): nat {
    if batch == [] then 0
    else
      var init, event := batch[..|batch| - 1], batch[|batch| - 1];
      var (before, ok) := WriteAll(rows, init, max, evict);
      Appended(rows, init, max, evict) +
        (if ok && !HasId(before, event.body.eventId) && MakeRoom(before, max, evict).Ok? then 1 else 0)
  }

  // ---- dropping the oldest row --------------------------------------------------------

  lemma SessionRowsDropFirst(rows: seq<Record>, session: Uuid)
    requires rows != []
    ensures rows[0].body.sessionId == session ==>
      SessionRows(rows, session) != [] && SessionRows(rows, session)[0] == rows[0]
    ensures SessionRows(rows[1..], session) ==
      if rows[0].body.sessionId == session then SessionRows(rows, session)[1..] else SessionRows(rows, session)
  {
    assert rows == [rows[0]] + rows[1..];
    SessionRowsAppend([rows[0]], rows[1..], session);
    assert SessionRows([rows[0]][..0], session) == [];
    assert SessionRows([rows[0]], session) == if rows[0].body.sessionId == session then [rows[0]] else [];
  }

  /** Chain inserts in flight: each session whose lock is held, with the hash its holder has read. */
  type Held = map<Uuid, Option<Digest>>

  /**
   Each session's rows are linked, and a held session's newest surviving row is the one its holder
   read; with nothing ever evicted the rows also start at genesis.
   */
  ghost predicate SessionLinks(rows: seq<Record>, held: Held, session: Uuid, complete: bool) {
    var mine := SessionRows(rows, session);
    && Linked(mine)
    && (complete ==> GenesisRooted(mine))
    && (session in held && mine != [] ==> held[session] == LastHmac(mine))
    && (session in held && mine == [] && complete ==> held[session] == None)
  }

  ghost predicate AllLinks(rows: seq<Record>, held: Held, complete: bool) {
    forall s :: SessionLinks(rows, held, s, complete)
  }

  lemma EvictionKeepsLinks(rows: seq<Record>, held: Held)
    requires rows != [] && AllLinks(rows, held, false)
    ensures AllLinks(rows[1..], held, false)
  {
    forall s ensures SessionLinks(rows[1..], held, s, false) {
      assert SessionLinks(rows, held, s, false);
      SessionRowsDropFirst(rows, s);
      var mine, left := SessionRows(rows, s), SessionRows(rows[1..], s);
      forall i | 1 <= i < |left| ensures LinkedAt(left, i) {
        assert LinkedAt(mine, if left == mine then i else i + 1);
      }
    }
  }

  lemma {:induction false} EvictionsKeepLinks(rows: seq<Record>, held: Held, dropped: nat)
    requires dropped <= |rows| && AllLinks(rows, held, false)
    ensures AllLinks(rows[dropped..], held, false)
  {
    if dropped == 0 {
      assert rows[0..] == rows;
    } else {
      EvictionKeepsLinks(rows, held);
      EvictionsKeepLinks(rows[1..], held, dropped - 1);
      assert rows[1..][dropped - 1..] == rows[dropped..];
    }
  }

  /** A row built on the hash its session's lock holder read keeps every session linked. */
  lemma ChainInsertKeepsLinks(rows: seq<Record>, held: Held, record: Record, complete: bool)
    requires AllLinks(rows, held, complete)
    requires record.body.sessionId in held && record.body.prevHash == held[record.body.sessionId]
    ensures AllLinks(rows + [record], held - {record.body.sessionId}, complete)
  {
    var session := record.body.sessionId;
    forall s ensures SessionLinks(rows + [record], held - {session}, s, complete) {
      assert SessionLinks(rows, held, s, complete);
      SessionRowsAppend(rows, [record], s);
      assert SessionRows([record][..0], s) == [];
      var mine := SessionRows(rows, s);
      if s == session {
        forall i | 1 <= i < |mine| + 1 ensures LinkedAt(mine + [record], i) {
          assert i < |mine| ==> LinkedAt(mine, i);
        }
        assert SessionRows(rows + [record], s) == mine + [record];
      } else {
        assert SessionRows(rows + [record], s) == mine;
      }
    }
  }

  lemma BeginKeepsLinks(rows: seq<Record>, held: Held, session: Uuid, complete: bool)
    requires AllLinks(rows, held, complete)
    ensures AllLinks(rows, held[session := LastHmac(SessionRows(rows, session))], complete)
  {
    var held' := held[session := LastHmac(SessionRows(rows, session))];
    forall s ensures SessionLinks(rows, held', s, complete) {
      assert SessionLinks(rows, held, s, complete);
    }
  }

  /** Whether the append goes through, evicts first, or is refused, the sessions stay linked. */
  lemma FinishKeepsLinks(rows: seq<Record>, held: Held, record: Record, max: int, evict: bool)
    requires AllLinks(rows, held, !evict)
    requires record.body.sessionId in held && record.body.prevHash == held[record.body.sessionId]
    ensures var released := held - {record.body.sessionId};
            match MakeRoom(rows, max, evict)
            case Ok(kept) => AllLinks(kept + [record], released, !evict)
            case Err(StoreFull) => AllLinks(rows, released, !evict)
            case Err(PopFromEmpty) => AllLinks([], released, !evict)
  {
    match MakeRoom(rows, max, evict)
    case Ok(kept) =>
      if |rows| >= max {
        EvictionsKeepLinks(rows, held, |rows| - (max - 1));
      }
      ChainInsertKeepsLinks(kept, held, record, !evict);
    case Err(_) =>
      var released, complete := held - {record.body.sessionId}, !evict;
      forall s ensures SessionLinks(rows, released, s, complete) {
        assert SessionLinks(rows, held, s, complete);
      }
      forall s ensures !complete ==> SessionLinks([], released, s, complete) {
        assert SessionRows([], s) == [];
      }
  }

  /**
   In raise mode a store filled by chain inserts holds an honest log: every verifier result about
   honest logs applies to it.
   */
  lemma RaiseModeIsHonest(secret: Secret, rows: seq<Record>, held: Held)
    requires AllLinks(rows, held, true) && AllVerify(secret, rows)
    ensures HonestLog(secret, rows)
  {
    forall s ensures ChainOfSession(secret, rows, s) {
      assert SessionLinks(rows, held, s, true);
      var mine := SessionRows(rows, s);
      forall i | 0 <= i < |mine| ensures VerifyEvent(mine[i], secret) {
        SessionRowsBelong(rows, s, mine[i]);
        var k :| 0 <= k < |rows| && rows[k] == mine[i];
      }
    }
    ChainsMakeHonestLog(secret, rows);
  }

  lemma {:induction false} OneSessionIsItsRows(rows: seq<Record>, session: Uuid)
    requires forall r | r in rows :: r.body.sessionId == session
    ensures SessionRows(rows, session) == rows
  {
    if rows != [] {
      OneSessionIsItsRows(rows[..|rows| - 1], session);
    }
  }

  /** An honest list is one chain exactly if it is one session. */
  lemma OneChainIffOneSession(secret: Secret, rows: seq<Record>)
    requires HonestLog(secret, rows)
    ensures FullChain(secret, rows)
      <==> forall i | 0 <= i < |rows| :: rows[i].body.sessionId == rows[0].body.sessionId
  {
    if rows != [] {
      if FullChain(secret, rows) {
        forall i: nat | i < |rows| {
          LinksKeepSession(secret, rows, rows, i);
        }
      }
      if forall i | 0 <= i < |rows| :: rows[i].body.sessionId == rows[0].body.sessionId {
        OneSessionIsItsRows(rows, rows[0].body.sessionId);
        SessionIsChain(secret, rows, rows[0].body.sessionId);
      }
    }
  }

  /** Python's `list.remove`. */
  function RemoveFirst(ids: seq<Uuid>, id: Uuid): seq<Uuid>
    requires id in ids
  {
    if ids[0] == id then ids[1..] else [ids[0]] + RemoveFirst(ids[1..], id)
  }

  // ---- the three indexes --------------------------------------------------------------

  type Buckets = map<Uuid, seq<Uuid>>

  function BucketOf(bySession: Buckets, session: Uuid): seq<Uuid> {
    if session in bySession then bySession[session] else []
  }

  /** `_events`, `_by_session` and `_order` describe the one sequence `log`. */
  ghost predicate Indexed(log: seq<Record>, events: map<Uuid, Record>, bySession: Buckets, order: seq<Uuid>) {
    && order == Ids(log)
    && DistinctIds(log)
    && (forall i | 0 <= i < |log| :: log[i].body.eventId in events && events[log[i].body.eventId] == log[i])
    && (forall id | id in events :: HasId(log, id))
    && (forall s :: BucketOf(bySession, s) == Ids(SessionRows(log, s)))
  }

  /** The keys of a dictionary in insertion order. */
  ghost predicate ListsKeys(sessions: seq<Uuid>, bySession: Buckets) {
    Distinct(sessions) && forall s :: s in sessions <==> s in bySession
  }

  lemma KeyIsListed(sessions: seq<Uuid>, bySession: Buckets, session: Uuid, bucket: seq<Uuid>)
    requires ListsKeys(sessions, bySession)
    ensures ListsKeys(if session in bySession then sessions else sessions + [session], bySession[session := bucket])
  {
  }

  lemma SessionsAreListed(log: seq<Record>, events: map<Uuid, Record>, bySession: Buckets, order: seq<Uuid>,
                          sessions: seq<Uuid>)
    requires Indexed(log, events, bySession, order) && ListsKeys(sessions, bySession)
    ensures ListsSessions(sessions, log)
  {
    forall r | r in log ensures r.body.sessionId in sessions {
      SessionRowsBelong(log, r.body.sessionId, r);
      assert BucketOf(bySession, r.body.sessionId) == Ids(SessionRows(log, r.body.sessionId));
    }
  }

  /** Nothing is unaccounted for, and a cap of at least one is kept. */
  predicate IsCounted(log: seq<Record>, max: int, evictedTotal: nat, inserted: nat) {
    evictedTotal + |log| == inserted && (max >= 1 ==> |log| <= max)
  }

  lemma PopKeepsCount(log: seq<Record>, max: int, evictedTotal: nat, inserted: nat)
    requires IsCounted(log, max, evictedTotal, inserted) && log != []
    ensures IsCounted(log[1..], max, evictedTotal + 1, inserted)
  {
  }

  lemma AppendKeepsCount(log: seq<Record>, max: int, evictedTotal: nat, inserted: nat, r: Record)
    requires IsCounted(log, max, evictedTotal, inserted) && (max >= 1 ==> |log| < max)
    ensures IsCounted(log + [r], max, evictedTotal, inserted + 1)
  {
  }

  ghost predicate DistinctIds(log: seq<Record>) {
    forall i, j | 0 <= i < j < |log| :: log[i].body.eventId != log[j].body.eventId
  }

  lemma IdsAppend(log: seq<Record>, r: Record)
    ensures Ids(log + [r]) == Ids(log) + [r.body.eventId]
    ensures forall id :: HasId(log + [r], id) <==> HasId(log, id) || id == r.body.eventId
  {
    forall id | HasId(log, id) ensures HasId(log + [r], id) {
      var i :| 0 <= i < |log| && log[i].body.eventId == id;
      assert (log + [r])[i].body.eventId == id;
    }
    assert (log + [r])[|log|] == r;
  }

  lemma HasIdConcat(a: seq<Record>, b: seq<Record>, id: Uuid)
    ensures HasId(a + b, id) <==> HasId(a, id) || HasId(b, id)
  {
    if HasId(a + b, id) {
      var i :| 0 <= i < |a + b| && (a + b)[i].body.eventId == id;
      assert if i < |a| then a[i].body.eventId == id else b[i - |a|].body.eventId == id;
    }
    if HasId(a, id) {
      var i :| 0 <= i < |a| && a[i].body.eventId == id;
      assert (a + b)[i] == a[i];
    } else if HasId(b, id) {
      var i :| 0 <= i < |b| && b[i].body.eventId == id;
      assert (a + b)[|a| + i] == b[i];
    }
  }

  lemma IdsDropFirst(log: seq<Record>)
    requires log != [] && DistinctIds(log)
    ensures Ids(log[1..]) == Ids(log)[1..]
    ensures DistinctIds(log[1..])
    ensures forall id :: HasId(log[1..], id) <==> HasId(log, id) && id != log[0].body.eventId
  {
    forall id | HasId(log, id) && id != log[0].body.eventId ensures HasId(log[1..], id) {
      var i :| 0 <= i < |log| && log[i].body.eventId == id;
      assert log[1..][i - 1].body.eventId == id;
    }
  }

  lemma BucketAppend(log: seq<Record>, bySession: Buckets, r: Record, session: Uuid)
    requires forall s :: BucketOf(bySession, s) == Ids(SessionRows(log, s))
    ensures BucketOf(bySession[r.body.sessionId := BucketOf(bySession, r.body.sessionId) + [r.body.eventId]], session)
         == Ids(SessionRows(log + [r], session))
  {
    SessionRowsAppend(log, [r], session);
    assert SessionRows([r][..0], session) == [];
    if session == r.body.sessionId {
      IdsAppend(SessionRows(log, session), r);
      assert SessionRows(log + [r], session) == SessionRows(log, session) + [r];
    } else {
      assert SessionRows(log + [r], session) == SessionRows(log, session);
    }
  }

  lemma BucketPopOldest(log: seq<Record>, bySession: Buckets, session: Uuid)
    requires log != [] && forall s :: BucketOf(bySession, s) == Ids(SessionRows(log, s))
    ensures var bucket := BucketOf(bySession, log[0].body.sessionId);
            && bucket != [] && bucket[0] == log[0].body.eventId
            && BucketOf(bySession[log[0].body.sessionId := bucket[1..]], session)
                 == Ids(SessionRows(log[1..], session))
  {
    hide SessionRows;
    SessionRowsDropFirst(log, session);
    SessionRowsDropFirst(log, log[0].body.sessionId);
  }

  lemma IndexAppend(log: seq<Record>, events: map<Uuid, Record>, bySession: Buckets, order: seq<Uuid>, r: Record)
    requires Indexed(log, events, bySession, order) && r.body.eventId !in events
    ensures Indexed(log + [r], events[r.body.eventId := r],
                    bySession[r.body.sessionId := BucketOf(bySession, r.body.sessionId) + [r.body.eventId]],
                    order + [r.body.eventId])
  {
    IdsAppend(log, r);
    forall s {
      BucketAppend(log, bySession, r, s);
    }
  }

  lemma IndexPopOldest(log: seq<Record>, events: map<Uuid, Record>, bySession: Buckets, order: seq<Uuid>)
    requires Indexed(log, events, bySession, order) && log != []
    ensures var oldest := log[0];
            var bucket := BucketOf(bySession, oldest.body.sessionId);
            && order[0] == oldest.body.eventId && order[0] in events && events[order[0]] == oldest
            && bucket != [] && bucket[0] == order[0]
            && Indexed(log[1..], events - {order[0]}, bySession[oldest.body.sessionId := bucket[1..]], order[1..])
  {
    IdsDropFirst(log);
    BucketPopOldest(log, bySession, log[0].body.sessionId);
    forall s {
      BucketPopOldest(log, bySession, s);
    }
    forall i | 0 <= i < |log[1..]|
      ensures log[1..][i].body.eventId in events - {order[0]} && events[log[1..][i].body.eventId] == log[1..][i]
    {
      assert log[1..][i] == log[i + 1];
    }
  }

  lemma OrderIsAsLong(log: seq<Record>, events: map<Uuid, Record>, bySession: Buckets, order: seq<Uuid>)
    requires Indexed(log, events, bySession, order)
    ensures |order| == |log|
  {
  }

  lemma StoredRow(log: seq<Record>, events: map<Uuid, Record>, session: Uuid, k: nat)
    requires forall i | 0 <= i < |log| :: log[i].body.eventId in events && events[log[i].body.eventId] == log[i]
    requires k < |SessionRows(log, session)|
    ensures var r := SessionRows(log, session)[k]; r.body.eventId in events && events[r.body.eventId] == r
  {
    SessionRowsBelong(log, session, SessionRows(log, session)[k]);
  }

  // ---- what a batch write stores ------------------------------------------------------

  /** Rows of the batch whose id is new, appended in order. */
  function Deliver(target: seq<Record>, batch: seq<Record>): seq<Record> {
    if batch == [] then target
    else
      var before := Deliver(target, batch[..|batch| - 1]);
      var last := batch[|batch| - 1];
      if HasId(before, last.body.eventId) then before else before + [last]
  }

  predicate AllNew(target: seq<Record>, batch: seq<Record>) {
    && (forall i | 0 <= i < |batch| :: !HasId(target, batch[i].body.eventId))
    && (forall i, j | 0 <= i < j < |batch| :: batch[i].body.eventId != batch[j].body.eventId)
  }

  /** The id of row i occurs neither among `rows` nor earlier in the batch. */
  predicate IsNewAt(rows: seq<Record>, batch: seq<Record>, i: nat)
    requires i < |batch|
  {
    !HasId(rows, batch[i].body.eventId) && !HasId(batch[..i], batch[i].body.eventId)
  }

  /** The new rows among the first `n` of a batch, in batch order. */
  function NewRows(rows: seq<Record>, batch: seq<Record>, n: nat): seq<Record>
    requires n <= |batch|
  {
    if n == 0 then []
    else NewRows(rows, batch, n - 1) + (if IsNewAt(rows, batch, n - 1) then [batch[n - 1]] else [])
  }

  lemma {:induction false} DeliveredIds(rows: seq<Record>, batch: seq<Record>, id: Uuid)
    ensures HasId(Deliver(rows, batch), id) <==> HasId(rows, id) || HasId(batch, id)
  {
    if batch != [] {
      var init, last := batch[..|batch| - 1], batch[|batch| - 1];
      DeliveredIds(rows, init, id);
      DeliveredIds(rows, init, last.body.eventId);
      IdsAppend(init, last);
      IdsAppend(Deliver(rows, init), last);
      assert batch == init + [last];
    }
  }

  /** Delivery skips the ids it knows and appends the rest in order. */
  lemma {:induction false} DeliverAppendsNewRows(rows: seq<Record>, batch: seq<Record>, n: nat)
    requires n <= |batch|
    ensures Deliver(rows, batch[..n]) == rows + NewRows(rows, batch, n)
  {
    if n > 0 {
      DeliverAppendsNewRows(rows, batch, n - 1);
      assert batch[..n][..n - 1] == batch[..n - 1];
      DeliveredIds(rows, batch[..n - 1], batch[n - 1].body.eventId);
    }
  }

  lemma {:induction false} DeliverExtendsRows(rows: seq<Record>, batch: seq<Record>)
    ensures rows <= Deliver(rows, batch)
  {
    if batch != [] {
      DeliverExtendsRows(rows, batch[..|batch| - 1]);
    }
  }

  /** The size a raise-mode store never passes: its cap, or what it held already. */
  function Ceiling(rows: seq<Record>, max: int): nat {
    if |rows| >= max then |rows| else max
  }

  /** In raise mode a batch is delivered up to the cap, and refused at the first new row beyond it. */
  lemma {:induction false} RaiseModeBatch(rows: seq<Record>, batch: seq<Record>, max: int)
    ensures
      var all := Deliver(rows, batch);
      WriteAll(rows, batch, max, false) == if |all| <= Ceiling(rows, max) then (all, true) else (all[..Ceiling(rows, max)], false)
  {
    if batch != [] {
      var init, last := batch[..|batch| - 1], batch[|batch| - 1];
      RaiseModeBatch(rows, init, max);
      DeliverExtendsRows(rows, init);
      var before, cap := Deliver(rows, init), Ceiling(rows, max);
      if |before| > cap {
        assert (before + [last])[..cap] == before[..cap];
      } else if !HasId(before, last.body.eventId) && |before| >= max {
        assert (before + [last])[..cap] == before;
      }
    }
  }

  /** A raise-mode store appends what it has more of afterwards. */
  lemma {:induction false} RaiseModeAppends(rows: seq<Record>, batch: seq<Record>, max: int)
    ensures Appended(rows, batch, max, false) == |WriteAll(rows, batch, max, false).0| - |rows|
  {
    if batch != [] {
      RaiseModeAppends(rows, batch[..|batch| - 1], max);
    }
  }

  /** A raise-mode batch is stored whole or not at all exactly if the store was full or has room for all of it. */
  lemma AllOrNothingIff(rows: seq<Record>, batch: seq<Record>, max: int)
    ensures
      var stored := WriteAll(rows, batch, max, false).0;
      stored == Deliver(rows, batch) || stored == rows <==>
        |rows| >= max || |rows| + |NewRows(rows, batch, |batch|)| <= max
  {
    RaiseModeBatch(rows, batch, max);
    DeliverExtendsRows(rows, batch);
    DeliverAppendsNewRows(rows, batch, |batch|);
    assert batch[..|batch|] == batch;
  }

  /** Two new rows, room for one: the first is stored, and the call raises. */
  lemma RefusedBatchLeavesPrefix(rows: seq<Record>, first: Record, second: Record)
    requires AllNew(rows, [first, second])
    ensures WriteAll(rows, [first, second], |rows| + 1, false) == (rows + [first], false)
  {
    var batch := [first, second];
    assert batch[..1] == [first] && batch[..1][..0] == [] && batch[..0] == [];
    assert !HasId(rows, batch[0].body.eventId) && !HasId(rows, batch[1].body.eventId);
    IdsAppend(rows, first);
    assert WriteAll(rows, [first], |rows| + 1, false) == (rows + [first], true);
  }

  function Newest(rows: seq<Record>, max: nat): seq<Record> {
    if |rows| <= max then rows else rows[|rows| - max..]
  }

  lemma MakeRoomForOne(all: seq<Record>, last: Record, max: nat)
    requires 1 <= max
    ensures MakeRoom(Newest(all, max), max, true).Ok?
    ensures MakeRoom(Newest(all, max), max, true).value + [last] == Newest(all + [last], max)
  {
  }

  /** In evict mode new rows push the oldest out: the newest `max` of all of them stay. */
  lemma {:induction false} EvictModeBatch(rows: seq<Record>, batch: seq<Record>, max: nat)
    requires 1 <= max && |rows| <= max && AllNew(rows, batch)
    ensures WriteAll(rows, batch, max, true) == (Newest(rows + batch, max), true)
    ensures Appended(rows, batch, max, true) == |batch|
  {
    if batch == [] {
      assert rows + batch == rows;
    } else {
      hide HasId;
      EvictModeBatch(rows, batch[..|batch| - 1], max);
      EvictOneMore(rows, batch, max);
    }
  }

  lemma EvictOneMore(rows: seq<Record>, batch: seq<Record>, max: nat)
    requires 1 <= max && batch != [] && AllNew(rows, batch)
    requires WriteAll(rows, batch[..|batch| - 1], max, true) == (Newest(rows + batch[..|batch| - 1], max), true)
    ensures WriteAll(rows, batch, max, true) == (Newest(rows + batch, max), true)
    ensures Appended(rows, batch, max, true) == Appended(rows, batch[..|batch| - 1], max, true) + 1
  {
    hide WriteAll;
    hide Appended;
    hide MakeRoom;
    hide Newest;
    var init, last := batch[..|batch| - 1], batch[|batch| - 1];
    LastIsNew(rows, batch, max);
    MakeRoomForOne(rows + init, last, max);
    WriteOneMore(rows, batch, max, true);
    assert rows + init + [last] == rows + batch;
  }

  lemma WriteOneMore(rows: seq<Record>, batch: seq<Record>, max: int, evict: bool)
    requires batch != []
    requires var (before, ok) := WriteAll(rows, batch[..|batch| - 1], max, evict);
      ok && !HasId(before, batch[|batch| - 1].body.eventId) && MakeRoom(before, max, evict).Ok?
    ensures var before := WriteAll(rows, batch[..|batch| - 1], max, evict).0;
      WriteAll(rows, batch, max, evict) == (MakeRoom(before, max, evict).value + [batch[|batch| - 1]], true)
    ensures Appended(rows, batch, max, evict) == Appended(rows, batch[..|batch| - 1], max, evict) + 1
  {
  }

  lemma LastIsNew(rows: seq<Record>, batch: seq<Record>, max: nat)
    requires batch != [] && AllNew(rows, batch)
    ensures !HasId(Newest(rows + batch[..|batch| - 1], max), batch[|batch| - 1].body.eventId)
  {
    var all, id := rows + batch[..|batch| - 1], batch[|batch| - 1].body.eventId;
    HasIdConcat(rows, batch[..|batch| - 1], id);
    forall i | 0 <= i < |Newest(all, max)| ensures Newest(all, max)[i].body.eventId != id {
      assert Newest(all, max)[i] == all[|all| - |Newest(all, max)| + i];
    }
  }

  // ---- the rows session by session ----------------------------------------------------

  /** What `verify_chain` without a session and `list_all_records` read: one session after another. */
  function Grouped(log: seq<Record>, sessions: seq<Uuid>): seq<Record> {
    if sessions == [] then []
    else Grouped(log, sessions[..|sessions| - 1]) + SessionRows(log, sessions[|sessions| - 1])
  }

  predicate Distinct(sessions: seq<Uuid>) {
    forall i, j | 0 <= i < j < |sessions| :: sessions[i] != sessions[j]
  }

  /** Each session of the log is listed, once. */
  ghost predicate ListsSessions(sessions: seq<Uuid>, log: seq<Record>) {
    Distinct(sessions) && forall r | r in log :: r.body.sessionId in sessions
  }

  lemma {:induction false} SessionRowsOfOther(rows: seq<Record>, session: Uuid)
    requires forall r | r in rows :: r.body.sessionId != session
    ensures SessionRows(rows, session) == []
  {
    if rows != [] {
      SessionRowsOfOther(rows[..|rows| - 1], session);
    }
  }

  lemma SessionRowsTwice(log: seq<Record>, s: Uuid, t: Uuid)
    ensures SessionRows(SessionRows(log, t), s) == if s == t then SessionRows(log, t) else []
  {
    var mine := SessionRows(log, t);
    forall r | r in mine ensures r.body.sessionId == t {
      SessionRowsBelong(log, t, r);
    }
    if s == t {
      OneSessionIsItsRows(mine, s);
    } else {
      SessionRowsOfOther(mine, s);
    }
  }

  lemma GroupOneMore(log: seq<Record>, sessions: seq<Uuid>, s: Uuid)
    requires sessions != []
    ensures var init, last := sessions[..|sessions| - 1], sessions[|sessions| - 1];
      SessionRows(Grouped(log, sessions), s) ==
        SessionRows(Grouped(log, init), s) + (if s == last then SessionRows(log, last) else [])
  {
    var init, last := sessions[..|sessions| - 1], sessions[|sessions| - 1];
    assert Grouped(log, sessions) == Grouped(log, init) + SessionRows(log, last);
    hide Grouped;
    SessionRowsAppend(Grouped(log, init), SessionRows(log, last), s);
    SessionRowsTwice(log, s, last);
  }

  /** Grouping keeps each session's rows and their order. */
  lemma {:induction false} GroupingKeepsSessions(log: seq<Record>, sessions: seq<Uuid>, s: Uuid)
    requires Distinct(sessions)
    ensures SessionRows(Grouped(log, sessions), s) == if s in sessions then SessionRows(log, s) else []
  {
    if sessions == [] {
      return;
    }
    var init, last := sessions[..|sessions| - 1], sessions[|sessions| - 1];
    GroupingKeepsSessions(log, init, s);
    GroupOneMore(log, sessions, s);
    hide SessionRows;
    hide Grouped;
    assert sessions == init + [last] && last !in init;
    assert SessionRows(log, s) + [] == SessionRows(log, s) && [] + SessionRows(log, s) == SessionRows(log, s);
  }

  lemma GroupedSession(log: seq<Record>, sessions: seq<Uuid>, s: Uuid)
    requires ListsSessions(sessions, log)
    ensures SessionRows(Grouped(log, sessions), s) == SessionRows(log, s)
  {
    GroupingKeepsSessions(log, sessions, s);
    if s !in sessions {
      SessionRowsOfOther(log, s);
    }
  }

  /** The grouped list of an honest log is an honest log again. */
  lemma GroupedIsHonest(secret: Secret, log: seq<Record>, sessions: seq<Uuid>)
    requires HonestLog(secret, log) && ListsSessions(sessions, log)
    ensures HonestLog(secret, Grouped(log, sessions))
  {
    forall s ensures ChainOfSession(secret, Grouped(log, sessions), s) {
      GroupedSession(log, sessions, s);
      SessionIsChain(secret, log, s);
    }
    ChainsMakeHonestLog(secret, Grouped(log, sessions));
  }

  /** So every contiguous window of the grouped list passes the report's check. */
  lemma GroupedWindowPasses(secret: Secret, log: seq<Record>, sessions: seq<Uuid>, a: nat, b: nat)
    requires HonestLog(secret, log) && ListsSessions(sessions, log) && a <= b <= |Grouped(log, sessions)|
    ensures var window := Grouped(log, sessions)[a..b];
      AllVerify(secret, window) && SessionLinkage.PerSessionLinked(window, a == 0)
  {
    GroupedIsHonest(secret, log, sessions);
    SessionLinkage.HonestWindowsPass(secret, Grouped(log, sessions), a, b);
  }

  /**
   `verify_chain` without a session id checks the grouped list as one chain: on an honest store it
   passes exactly when the store holds at most one session.
   */
  lemma WholeStoreCheckPassesIff(secret: Secret, log: seq<Record>, sessions: seq<Uuid>)
    requires HonestLog(secret, log) && ListsSessions(sessions, log)
    ensures FullChain(secret, Grouped(log, sessions)) <==>
      forall r, r' | r in log && r' in log :: r.body.sessionId == r'.body.sessionId
  {
    var rows := Grouped(log, sessions);
    GroupedIsHonest(secret, log, sessions);
    OneChainIffOneSession(secret, rows);
    forall r ensures r in rows <==> r in log {
      GroupedSession(log, sessions, r.body.sessionId);
      SessionRowsBelong(rows, r.body.sessionId, r);
      SessionRowsBelong(log, r.body.sessionId, r);
    }
    if forall r, r' | r in log && r' in log :: r.body.sessionId == r'.body.sessionId {
      forall i | 0 <= i < |rows| ensures rows[i].body.sessionId == rows[0].body.sessionId {
        assert rows[i] in rows && rows[0] in rows;
      }
    }
  }

  /** The first rows of two sessions, each a valid chain: the whole-store check fails. */
  lemma TwoSessionsFailTheWholeCheck(secret: Secret, a: Record, b: Record)
    requires VerifyEvent(a, secret) && VerifyEvent(b, secret) && a.body.prevHash == b.body.prevHash == None
    requires a.body.sessionId != b.body.sessionId
    ensures var log, sessions := [a, b], [a.body.sessionId, b.body.sessionId];
      HonestLog(secret, log) && ListsSessions(sessions, log) && !FullChain(secret, Grouped(log, sessions))
  {
    var log, sessions := [a, b], [a.body.sessionId, b.body.sessionId];
    assert log[..1] == [a] && [a][..0] == [];
    assert SessionRows([], a.body.sessionId) == [] && SessionRows([a], b.body.sessionId) == [];
    assert Extends(secret, [], a) && HonestLog(secret, [a]) && Extends(secret, [a], b);
    assert a in log && b in log;
    WholeStoreCheckPassesIff(secret, log, sessions);
  }

  // ---- the store ----------------------------------------------------------------------

  class InMemoryAuditStore {
    var events: map<Uuid, Record>
    var bySession: Buckets
    var order: seq<Uuid>
    /** The keys of `bySession`, in the order they were first used. */
    var sessions: seq<Uuid>
    const max: int
    const evict: bool
    var evictedTotal: nat
    /** Session locks held by inserts that have read but not yet appended. */
    var held: Held
    /** The rows in insertion order, and how many were ever inserted. */
    ghost var log: seq<Record>
    ghost var inserted: nat

    ghost predicate Valid()
      reads this
    {
      && Indexed(log, events, bySession, order) && ListsKeys(sessions, bySession)
      && IsCounted(log, max, evictedTotal, inserted)
    }

    constructor (maxEvents: int, evictOnFull: bool)
      ensures Valid() && log == [] && evictedTotal == 0 && inserted == 0 && held == map[]
      ensures max == maxEvents && evict == evictOnFull
    {
      events, bySession, order, sessions, log := map[], map[], [], [], [];
      max, evict, evictedTotal, inserted, held := maxEvents, evictOnFull, 0, 0, map[];
    }

    method PopOldest()
      requires Valid() && order != []
      modifies this`events, this`bySession, this`order, this`evictedTotal, this`log
      ensures Valid()
      ensures log == old(log)[1..] && evictedTotal == old(evictedTotal) + 1
    {
      hide Indexed;
      hide IsCounted;
      hide ListsKeys;
      OrderIsAsLong(log, events, bySession, order);
      IndexPopOldest(log, events, bySession, order);
      PopKeepsCount(log, max, evictedTotal, inserted);
      var oldest := order[0];
      order := order[1..];
      var evicted := events[oldest];
      events := events - {oldest};
      var bucket := BucketOf(bySession, evicted.body.sessionId);
      KeyIsListed(sessions, bySession, evicted.body.sessionId, bucket[1..]);
      if bucket != [] && oldest in bucket {
        bySession := bySession[evicted.body.sessionId := RemoveFirst(bucket, oldest)];
      }
      evictedTotal := evictedTotal + 1;
      log := log[1..];
    }

    method EnforceCapBeforeAppend() returns (r: Result<(), StoreError>)
      requires Valid()
      modifies this`events, this`bySession, this`order, this`evictedTotal, this`log
      ensures Valid()
      ensures match MakeRoom(old(log), max, evict)
              case Ok(kept) => r.Ok? && log == kept
              case Err(StoreFull) => r == Err(StoreFull) && log == old(log)
              case Err(PopFromEmpty) => r == Err(PopFromEmpty) && log == []
      ensures evictedTotal + |log| == old(evictedTotal + |log|)
    {
      hide Indexed;
      hide ListsKeys;
      hide IsCounted;
      OrderIsAsLong(log, events, bySession, order);
      if |order| < max {
        return Ok(());
      }
      if !evict {
        return Err(StoreFull);
      }
      while |order| >= max
        invariant Valid() && |order| == |log|
        invariant |log| <= |old(log)| && (max >= 1 ==> |log| >= max - 1)
        invariant log == old(log)[|old(log)| - |log|..]
        invariant evictedTotal + |log| == old(evictedTotal + |log|)
        decreases |order|
      {
        if order == [] {
          return Err(PopFromEmpty);
        }
        PopOldest();
        OrderIsAsLong(log, events, bySession, order);
      }
      return Ok(());
    }

    method Append(record: Record)
      requires Valid() && record.body.eventId !in events && (max >= 1 ==> |log| < max)
      modifies this`events, this`bySession, this`order, this`sessions, this`log, this`inserted
      ensures Valid() && log == old(log) + [record] && inserted == old(inserted) + 1
    {
      hide Indexed;
      hide IsCounted;
      hide ListsKeys;
      var session := record.body.sessionId;
      AppendKeepsCount(log, max, evictedTotal, inserted, record);
      IndexAppend(log, events, bySession, order, record);
      KeyIsListed(sessions, bySession, session, BucketOf(bySession, session) + [record.body.eventId]);
      inserted := inserted + 1;
      if session !in bySession {
        sessions := sessions + [session];
      }
      events := events[record.body.eventId := record];
      bySession := bySession[session := BucketOf(bySession, session) + [record.body.eventId]];
      order := order + [record.body.eventId];
      log := log + [record];
    }

    /** The first half of a chain insert: take the session lock, read the newest hash. */
    method BeginInsert(session: Uuid) returns (prevHash: Option<Digest>)
      requires Valid() && session !in held
      modifies this`held
      ensures Valid() && log == old(log)
      ensures prevHash == LastHmac(SessionRows(log, session))
      ensures held == old(held)[session := prevHash]
      ensures old(AllLinks(log, held, !evict)) ==> AllLinks(log, held, !evict)
    {
      var ids := BucketOf(bySession, session);
      ghost var mine := SessionRows(log, session);
      if ids != [] {
        StoredRow(log, events, session, |mine| - 1);
        prevHash := Some(events[ids[|ids| - 1]].hmac);
      } else {
        prevHash := None;
      }
      if AllLinks(log, held, !evict) {
        BeginKeepsLinks(log, held, session, !evict);
      }
      held := held[session := prevHash];
    }

    /** The second half, after the builder ran: append under the store lock, release the session. */
    method FinishInsert(record: Record) returns (r: Result<(), StoreError>)
      requires Valid() && record.body.eventId !in events && record.body.sessionId in held
      modifies this
      ensures Valid()
      ensures held == old(held) - {record.body.sessionId}
      ensures match MakeRoom(old(log), max, evict)
              case Ok(kept) => r.Ok? && log == kept + [record]
              case Err(StoreFull) => r == Err(StoreFull) && log == old(log)
              case Err(PopFromEmpty) => r == Err(PopFromEmpty) && log == []
      ensures inserted == old(inserted) + if r.Ok? then 1 else 0
      ensures old(AllLinks(log, held, !evict)) && record.body.prevHash == old(held)[record.body.sessionId]
        ==> AllLinks(log, held, !evict)
    {
      ghost var before := log;
      r := EnforceCapBeforeAppend();
      if r.Ok? {
        Append(record);
      }
      held := held - {record.body.sessionId};
      if AllLinks(before, old(held), !evict) && record.body.prevHash == old(held)[record.body.sessionId] {
        FinishKeepsLinks(before, old(held), record, max, evict);
      }
    }

    method WriteBatch(batch: seq<Record>) returns (ok: bool)
      requires Valid()
      modifies this`events, this`bySession, this`order, this`sessions, this`evictedTotal, this`log, this`inserted
      ensures Valid()
      ensures (log, ok) == WriteAll(old(log), batch, max, evict)
      ensures inserted == old(inserted) + Appended(old(log), batch, max, evict)
    {
      for i := 0 to |batch|
        invariant Valid()
        invariant (log, true) == WriteAll(old(log), batch[..i], max, evict)
        invariant inserted == old(inserted) + Appended(old(log), batch[..i], max, evict)
      {
        assert batch[..i + 1][..i] == batch[..i];
        assert HasId(log, batch[i].body.eventId) <==> batch[i].body.eventId in events;
        if batch[i].body.eventId in events {
          continue;
        }
        var room := EnforceCapBeforeAppend();
        if room.Err? {
          StopsForGood(old(log), batch, i + 1, max, evict);
          return false;
        }
        Append(batch[i]);
      }
      assert batch[..|batch|] == batch;
      return true;
    }

    method GetSessionEvents(session: Uuid) returns (rows: seq<Record>)
      requires Valid()
      ensures rows == SessionRows(log, session)
    {
      var ids := BucketOf(bySession, session);
      ghost var mine := SessionRows(log, session);
      rows := [];
      for i := 0 to |ids|
        invariant rows == mine[..i]
      {
        StoredRow(log, events, session, i);
        if ids[i] in events {
          rows := rows + [events[ids[i]]];
        }
      }
    }

    /** `list_all_records`: every session's rows, sessions in the order they were first used. */
    method ListAllRecords() returns (rows: seq<Record>)
      requires Valid()
      ensures ListsSessions(sessions, log) && rows == Grouped(log, sessions)
    {
      SessionsAreListed(log, events, bySession, order, sessions);
      rows := [];
      for i := 0 to |sessions|
        invariant rows == Grouped(log, sessions[..i])
      {
        assert sessions[..i + 1][..i] == sessions[..i];
        var mine := GetSessionEvents(sessions[i]);
        rows := rows + mine;
      }
      assert sessions[..|sessions|] == sessions;
    }

    /** `verify_not_truncated` succeeds exactly when everything ever inserted is still there. */
    method VerifyNotTruncated() returns (ok: bool)
      requires Valid()
      ensures ok <==> |log| == inserted
    {
      ok := evictedTotal == 0;
    }
  }

  lemma {:induction false} StopsForGood(rows: seq<Record>, batch: seq<Record>, i: nat, max: int, evict: bool)
    requires i <= |batch| && !WriteAll(rows, batch[..i], max, evict).1
    ensures WriteAll(rows, batch, max, evict) == WriteAll(rows, batch[..i], max, evict)
    ensures Appended(rows, batch, max, evict) == Appended(rows, batch[..i], max, evict)
  {
    if i == |batch| {
      assert batch[..i] == batch;
    } else {
      assert batch[..|batch| - 1][..i] == batch[..i];
      StopsForGood(rows, batch[..|batch| - 1], i, max, evict);
    }
  }
}
