/**
 `PostgresAuditStore.insert_with_chain_lock` run by any number of workers.

 One step is what happens between two awaits. A worker reads the latest hash without a lock, builds
 a row on it, takes the session's advisory lock, reads again, rebuilds if the hash moved, inserts
 (which draws the next `chain_seq`) and commits (which releases the lock). It may fail anywhere;
 a rolled-back insert leaves a gap in `chain_seq`, and sessions commit out of `chain_seq` order.
 */
module PostgresStore {
  import opened Wrappers
  import opened Records
  import opened Ledger

  type Worker = nat

  const TWO_TO_64: nat := 0x1_0000_0000_0000_0000

  /** The first eight bytes of the session UUID, as a signed 64-bit integer. */
  function SessionLockKey(session: Uuid): int {
    var high := (session / TWO_TO_64) % TWO_TO_64;
    if high < TWO_TO_64 / 2 then high else high - TWO_TO_64
  }

  /** Two sessions share a lock exactly when their UUIDs share the first eight bytes. */
  lemma LockKeyCollidesIff(a: Uuid, b: Uuid)
    ensures SessionLockKey(a) == SessionLockKey(b) <==> (a / TWO_TO_64) % TWO_TO_64 == (b / TWO_TO_64) % TWO_TO_64
    ensures -(TWO_TO_64 / 2) <= SessionLockKey(a) < TWO_TO_64 / 2
  {
    var highA, highB := (a / TWO_TO_64) % TWO_TO_64, (b / TWO_TO_64) % TWO_TO_64;
    assert 0 <= highA < TWO_TO_64 && 0 <= highB < TWO_TO_64;
  }

  /** Any two sessions that differ in their last eight bytes only share a lock. */
  lemma SessionsShareALock(high: nat, low: nat, low': nat)
    requires low < TWO_TO_64 && low' < TWO_TO_64 && low != low'
    ensures high * TWO_TO_64 + low != high * TWO_TO_64 + low'
    ensures SessionLockKey(high * TWO_TO_64 + low) == SessionLockKey(high * TWO_TO_64 + low')
  {
    HighHalf(high, low);
    HighHalf(high, low');
  }

  lemma HighHalf(high: nat, low: nat)
    requires low < TWO_TO_64
    ensures (high * TWO_TO_64 + low) / TWO_TO_64 == high
  {
  }

  datatype Phase =
    | Idle
    | SnapshotRead(event: Body, optimisticPrev: Option<Digest>)
    | Built(event: Body, optimisticPrev: Option<Digest>, record: Record)
    | Locked(event: Body, optimisticPrev: Option<Digest>, record: Record)
    | Stale(event: Body, actualPrev: Option<Digest>)
    | Ready(event: Body, record: Record)
    | Inserted(event: Body, record: Record, chainSeq: nat)
  {
    function Session(): Uuid
      requires !Idle?
    {
      event.sessionId
    }

    predicate HoldsLock() {
      Locked? || Stale? || Ready? || Inserted?
    }
  }

  /** Committed rows by `chain_seq`, the sequence counter, and what each worker is doing. */
  datatype Db = Db(table: map<nat, Record>, nextSeq: nat, workers: map<Worker, Phase>)
  {
    function PhaseOf(w: Worker): Phase {
      if w in workers then workers[w] else Idle
    }

    function Move(w: Worker, phase: Phase): Db {
      this.(workers := workers[w := phase])
    }
  }

  const EMPTY := Db(map[], 0, map[])

  /** Committed rows with `chain_seq` below `n`, in `chain_seq` order. */
  function Rows(table: map<nat, Record>, n: nat): seq<Record> {
    if n == 0 then []
    else Rows(table, n - 1) + (if n - 1 in table then [table[n - 1]] else [])
  }

  /** One session's committed rows with `chain_seq` below `n`, in `chain_seq` order. */
  function SessionBelow(table: map<nat, Record>, session: Uuid, n: nat): seq<Record> {
    if n == 0 then []
    else
      var below := SessionBelow(table, session, n - 1);
      if n - 1 in table && table[n - 1].body.sessionId == session then below + [table[n - 1]] else below
  }

  function Session(db: Db, session: Uuid): seq<Record> {
    SessionBelow(db.table, session, db.nextSeq)
  }

  // ---- the protocol -------------------------------------------------------------------

  /** The builder draws an id, and signs, each time it is called. */
  datatype Step =
    | Read(worker: Worker, event: Body)
    | Build(worker: Worker, eventId: Uuid, signature: Signature)
    | Lock(worker: Worker)
    | Recheck(worker: Worker)
    | Rebuild(worker: Worker, eventId: Uuid, signature: Signature)
    | Insert(worker: Worker)
    | Commit(worker: Worker)
    | Fail(worker: Worker)

  ghost predicate LockIsFree(db: Db, session: Uuid) {
    forall w | w in db.workers && db.workers[w].HoldsLock() ::
      SessionLockKey(db.workers[w].Session()) != SessionLockKey(session)
  }

  ghost predicate Enabled(db: Db, step: Step) {
    var phase := db.PhaseOf(step.worker);
    match step
    case Read(_, _) => phase.Idle?
    case Build(_, _, _) => phase.SnapshotRead?
    case Lock(_) => phase.Built? && LockIsFree(db, phase.Session())
    case Recheck(_) => phase.Locked?
    case Rebuild(_, _, _) => phase.Stale?
    case Insert(_) => phase.Ready?
    case Commit(_) => phase.Inserted?
    case Fail(_) => true
  }

  ghost function Apply(secret: Secret, db: Db, step: Step): Db
    requires Enabled(db, step)
  {
    var w, phase := step.worker, db.PhaseOf(step.worker);
    match step
    case Read(_, event) => db.Move(w, SnapshotRead(event, LastHmac(Session(db, event.sessionId))))
    case Build(_, eventId, signature) =>
      var record := BuildRecord(secret, phase.event.(eventId := eventId), signature, phase.optimisticPrev);
      db.Move(w, Built(phase.event, phase.optimisticPrev, record))
    case Lock(_) => db.Move(w, Locked(phase.event, phase.optimisticPrev, phase.record))
    case Recheck(_) =>
      var actualPrev := LastHmac(Session(db, phase.Session()));
      if actualPrev != phase.optimisticPrev
      then db.Move(w, Stale(phase.event, actualPrev))
      else db.Move(w, Ready(phase.event, phase.record))
    case Rebuild(_, eventId, signature) =>
      var record := BuildRecord(secret, phase.event.(eventId := eventId), signature, phase.actualPrev);
      db.Move(w, Ready(phase.event, record))
    case Insert(_) =>
      db.Move(w, Inserted(phase.event, phase.record, db.nextSeq)).(nextSeq := db.nextSeq + 1)
    case Commit(_) =>
      db.Move(w, Idle).(table := db.table[phase.chainSeq := phase.record])
    case Fail(_) => db.Move(w, Idle)
  }

  ghost predicate StepAt(secret: Secret, states: seq<Db>, steps: seq<Step>, i: nat)
    requires i < |steps| && |states| == |steps| + 1
  {
    Enabled(states[i], steps[i]) && states[i + 1] == Apply(secret, states[i], steps[i])
  }

  /** One interleaving of the workers' steps, from the empty table. */
  ghost predicate IsRun(secret: Secret, states: seq<Db>, steps: seq<Step>) {
    && |states| == |steps| + 1 && states[0] == EMPTY
    && forall i | 0 <= i < |steps| :: StepAt(secret, states, steps, i)
  }

  // ---- the invariant ------------------------------------------------------------------

  /** The event as handed in, under an id of its own and linked to `prev`. */
  ghost predicate BuiltOn(secret: Secret, record: Record, event: Body, prev: Option<Digest>) {
    VerifyEvent(record, secret) && record.body == event.(eventId := record.body.eventId, prevHash := prev)
  }

  ghost predicate NoneAfter(table: map<nat, Record>, session: Uuid, chainSeq: nat) {
    forall q | q in table && chainSeq <= q :: table[q].body.sessionId != session
  }

  ghost predicate WorkerOk(secret: Secret, db: Db, w: Worker) {
    match db.PhaseOf(w)
    case Idle | SnapshotRead(_, _) => true
    case Built(event, prev, record) => BuiltOn(secret, record, event, prev)
    case Locked(event, prev, record) => BuiltOn(secret, record, event, prev)
    case Stale(event, prev) => prev == LastHmac(Session(db, event.sessionId))
    case Ready(event, record) => BuiltOn(secret, record, event, LastHmac(Session(db, event.sessionId)))
    case Inserted(event, record, chainSeq) =>
      && BuiltOn(secret, record, event, LastHmac(Session(db, event.sessionId)))
      && chainSeq < db.nextSeq && chainSeq !in db.table && NoneAfter(db.table, event.sessionId, chainSeq)
  }

  ghost predicate Exclusive(db: Db, w: Worker, v: Worker) {
    var p, q := db.PhaseOf(w), db.PhaseOf(v);
    w != v ==>
      && (p.HoldsLock() && q.HoldsLock() ==> SessionLockKey(p.Session()) != SessionLockKey(q.Session()))
      && (p.Inserted? && q.Inserted? ==> p.chainSeq != q.chainSeq)
  }

  ghost predicate Chain(secret: Secret, rows: seq<Record>) {
    AllVerify(secret, rows) && Linked(rows) && GenesisRooted(rows)
  }

  ghost predicate Inv(secret: Secret, db: Db) {
    && (forall q | q in db.table :: q < db.nextSeq)
    && (forall w :: WorkerOk(secret, db, w))
    && (forall w, v :: Exclusive(db, w, v))
    && (forall s :: Chain(secret, Session(db, s)))
  }

  // ---- what a step does to the sessions -----------------------------------------------

  lemma {:induction false} CommitElsewhere(table: map<nat, Record>, q: nat, r: Record, session: Uuid, n: nat)
    requires q !in table && r.body.sessionId != session
    ensures SessionBelow(table[q := r], session, n) == SessionBelow(table, session, n)
  {
    if n > 0 {
      CommitElsewhere(table, q, r, session, n - 1);
    }
  }

  lemma {:induction false} CommitBeyond(table: map<nat, Record>, q: nat, r: Record, session: Uuid, n: nat)
    requires n <= q
    ensures SessionBelow(table[q := r], session, n) == SessionBelow(table, session, n)
  {
    if n > 0 {
      CommitBeyond(table, q, r, session, n - 1);
    }
  }

  /** A row committed behind every other row of its session becomes that session's last row. */
  lemma {:induction false} CommitAppends(table: map<nat, Record>, q: nat, r: Record, n: nat)
    requires q !in table && q < n && NoneAfter(table, r.body.sessionId, q)
    ensures SessionBelow(table[q := r], r.body.sessionId, n) == SessionBelow(table, r.body.sessionId, n) + [r]
  {
    var s := r.body.sessionId;
    if n == q + 1 {
      CommitBeyond(table, q, r, s, q);
    } else {
      CommitAppends(table, q, r, n - 1);
      assert n - 1 in table ==> table[n - 1].body.sessionId != s;
    }
  }

  /** What one step means for the sessions: nothing, or one row appended to one of them. */
  ghost predicate AppendsOrKeeps(secret: Secret, db: Db, db': Db) {
    || (forall s :: Session(db', s) == Session(db, s))
    || (exists r: Record ::
         && VerifyEvent(r, secret)
         && r.body.prevHash == LastHmac(Session(db, r.body.sessionId))
         && AppendsExactly(db, db', r))
  }

  ghost predicate AppendsExactly(db: Db, db': Db, r: Record) {
    forall s :: Session(db', s) == Session(db, s) + if s == r.body.sessionId then [r] else []
  }

  lemma CommitStep(secret: Secret, db: Db, w: Worker)
    requires Inv(secret, db) && Enabled(db, Commit(w))
    ensures var phase := db.PhaseOf(w);
      && AppendsExactly(db, Apply(secret, db, Commit(w)), phase.record)
      && phase.record.hmac == Mac(secret, phase.record.body)
      && phase.record.body == phase.event.(eventId := phase.record.body.eventId,
                                           prevHash := LastHmac(Session(db, phase.event.sessionId)))
  {
    assert WorkerOk(secret, db, w);
    var phase := db.PhaseOf(w);
    forall s ensures SessionBelow(db.table[phase.chainSeq := phase.record], s, db.nextSeq)
                     == Session(db, s) + if s == phase.record.body.sessionId then [phase.record] else []
    {
      if s == phase.record.body.sessionId {
        CommitAppends(db.table, phase.chainSeq, phase.record, db.nextSeq);
      } else {
        CommitElsewhere(db.table, phase.chainSeq, phase.record, s, db.nextSeq);
      }
    }
  }

  lemma OtherStepsKeepSessions(secret: Secret, db: Db, step: Step)
    requires Inv(secret, db) && Enabled(db, step) && !step.Commit?
    ensures forall s :: Session(Apply(secret, db, step), s) == Session(db, s)
  {
    forall s ensures Session(Apply(secret, db, step), s) == Session(db, s) {
      assert db.nextSeq !in db.table;
    }
  }

  /** The optimistic protocol refines an atomic append: every step stutters or appends one linked row. */
  lemma StepRefinesAppend(secret: Secret, db: Db, step: Step)
    requires Inv(secret, db) && Enabled(db, step)
    ensures AppendsOrKeeps(secret, db, Apply(secret, db, step))
  {
    if step.Commit? {
      CommitStep(secret, db, step.worker);
      assert WorkerOk(secret, db, step.worker);
    } else {
      OtherStepsKeepSessions(secret, db, step);
    }
  }

  // ---- preservation -------------------------------------------------------------------

  lemma StepKeepsExclusion(secret: Secret, db: Db, step: Step, w: Worker, v: Worker)
    requires Inv(secret, db) && Enabled(db, step)
    ensures Exclusive(Apply(secret, db, step), w, v)
  {
    assert Exclusive(db, w, v);
    assert WorkerOk(secret, db, w) && WorkerOk(secret, db, v);
  }

  lemma NonCommitKeepsWorker(secret: Secret, db: Db, step: Step, w: Worker)
    requires Inv(secret, db) && Enabled(db, step) && !step.Commit?
    ensures WorkerOk(secret, Apply(secret, db, step), w)
  {
    OtherStepsKeepSessions(secret, db, step);
    assert WorkerOk(secret, db, w);
  }

  lemma CommitKeepsWorker(secret: Secret, db: Db, step: Step, w: Worker)
    requires Inv(secret, db) && Enabled(db, step) && step.Commit?
    ensures WorkerOk(secret, Apply(secret, db, step), w)
  {
    CommitStep(secret, db, step.worker);
    assert WorkerOk(secret, db, w) && WorkerOk(secret, db, step.worker);
    assert Exclusive(db, w, step.worker);
  }

  lemma StepKeepsChains(secret: Secret, db: Db, step: Step, session: Uuid)
    requires Inv(secret, db) && Enabled(db, step)
    ensures Chain(secret, Session(Apply(secret, db, step), session))
  {
    var rows := Session(db, session);
    assert Chain(secret, rows);
    if step.Commit? && db.PhaseOf(step.worker).record.body.sessionId == session {
      var record := db.PhaseOf(step.worker).record;
      CommitStep(secret, db, step.worker);
      assert WorkerOk(secret, db, step.worker);
      forall i | 1 <= i < |rows| + 1 ensures LinkedAt(rows + [record], i) {
        assert i < |rows| ==> LinkedAt(rows, i);
      }
      assert Session(Apply(secret, db, step), session) == rows + [record];
    } else if step.Commit? {
      CommitStep(secret, db, step.worker);
      assert Session(Apply(secret, db, step), session) == rows;
    } else {
      OtherStepsKeepSessions(secret, db, step);
    }
  }

  lemma StepKeepsInv(secret: Secret, db: Db, step: Step)
    requires Inv(secret, db) && Enabled(db, step)
    ensures Inv(secret, Apply(secret, db, step))
  {
    var db' := Apply(secret, db, step);
    assert WorkerOk(secret, db, step.worker);
    forall w ensures WorkerOk(secret, db', w) {
      if step.Commit? {
        CommitKeepsWorker(secret, db, step, w);
      } else {
        NonCommitKeepsWorker(secret, db, step, w);
      }
    }
    forall w, v ensures Exclusive(db', w, v) {
      StepKeepsExclusion(secret, db, step, w, v);
    }
    forall s ensures Chain(secret, Session(db', s)) {
      StepKeepsChains(secret, db, step, s);
    }
  }

  lemma {:induction false} RunKeepsInv(secret: Secret, states: seq<Db>, steps: seq<Step>, i: nat)
    requires IsRun(secret, states, steps) && i < |states|
    ensures Inv(secret, states[i])
  {
    if i > 0 {
      RunKeepsInv(secret, states, steps, i - 1);
      assert StepAt(secret, states, steps, i - 1);
      StepKeepsInv(secret, states[i - 1], steps[i - 1]);
    }
  }

  /** One of the first n steps handed the event in. */
  ghost predicate IsHandedIn(steps: seq<Step>, n: nat, event: Body)
    requires n <= |steps|
  {
    exists k | 0 <= k < n :: steps[k].Read? && steps[k].event == event
  }

  ghost predicate WorkIsHandedIn(db: Db, steps: seq<Step>, n: nat, w: Worker)
    requires n <= |steps|
  {
    !db.PhaseOf(w).Idle? ==> IsHandedIn(steps, n, db.PhaseOf(w).event)
  }

  lemma HandedInStays(steps: seq<Step>, n: nat, event: Body)
    requires n < |steps| && IsHandedIn(steps, n, event)
    ensures IsHandedIn(steps, n + 1, event)
  {
  }

  lemma {:induction false} WorkersHoldHandedIn(secret: Secret, states: seq<Db>, steps: seq<Step>, n: nat, w: Worker)
    requires IsRun(secret, states, steps) && n < |states|
    ensures WorkIsHandedIn(states[n], steps, n, w)
  {
    if n > 0 {
      WorkersHoldHandedIn(secret, states, steps, n - 1, w);
      assert StepAt(secret, states, steps, n - 1);
      var step := steps[n - 1];
      if !states[n].PhaseOf(w).Idle? && !(step.Read? && step.worker == w) {
        HandedInStays(steps, n - 1, states[n].PhaseOf(w).event);
      }
    }
  }

  /** Every row of the table is a handed-in event, changed in nothing but its id and its link. */
  lemma {:induction false} CommittedAreHandedIn(secret: Secret, states: seq<Db>, steps: seq<Step>, n: nat, q: nat)
    returns (event: Body)
    requires IsRun(secret, states, steps) && n < |states| && q in states[n].table
    ensures IsHandedIn(steps, n, event)
    ensures var record := states[n].table[q];
      && record.hmac == Mac(secret, record.body)
      && record.body == event.(eventId := record.body.eventId, prevHash := record.body.prevHash)
  {
    var before, step := states[n - 1], steps[n - 1];
    assert StepAt(secret, states, steps, n - 1);
    if q in before.table && before.table[q] == states[n].table[q] {
      event := CommittedAreHandedIn(secret, states, steps, n - 1, q);
    } else {
      RunKeepsInv(secret, states, steps, n - 1);
      CommitStep(secret, before, step.worker);
      event := before.PhaseOf(step.worker).event;
      WorkersHoldHandedIn(secret, states, steps, n - 1, step.worker);
    }
    HandedInStays(steps, n - 1, event);
  }

  // ---- the table an auditor reads -----------------------------------------------------

  lemma {:induction false} TableSessions(table: map<nat, Record>, session: Uuid, n: nat)
    ensures SessionRows(Rows(table, n), session) == SessionBelow(table, session, n)
  {
    if n > 0 {
      TableSessions(table, session, n - 1);
      var rows := Rows(table, n - 1);
      if n - 1 in table {
        SessionRowsAppend(rows, [table[n - 1]], session);
        assert SessionRows([table[n - 1]], session)
            == if table[n - 1].body.sessionId == session then [table[n - 1]] else [];
      } else {
        assert Rows(table, n) == rows;
      }
    }
  }

  /**
   Under every interleaving, with failures anywhere, the committed table read in `chain_seq` order
   is one an honest sequential writer could have produced.
   */
  lemma EveryInterleavingIsHonest(secret: Secret, states: seq<Db>, steps: seq<Step>, i: nat)
    requires IsRun(secret, states, steps) && i < |states|
    ensures HonestLog(secret, Rows(states[i].table, states[i].nextSeq))
  {
    var db := states[i];
    RunKeepsInv(secret, states, steps, i);
    var log := Rows(db.table, db.nextSeq);
    forall s ensures ChainOfSession(secret, log, s) {
      TableSessions(db.table, s, db.nextSeq);
      assert Chain(secret, Session(db, s));
    }
    ChainsMakeHonestLog(secret, log);
  }
}
