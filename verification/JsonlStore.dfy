/**
 The on-disk fallback store: a JSONL file, a memory buffer for when the file system gives out, and
 the drain that replays both into a target store in batches.
 */
module JsonlStore {
  import opened Wrappers
  import opened Records
  import opened Ledger
  import opened MemoryStore

  const DRAIN_BATCH_SIZE: nat := 1000

  /** A row as it comes back from the file: `_serialize` writes neither `model` nor the signature. */
  function ThroughFile(r: Record): Record {
    Record(r.body.(model := None), r.hmac, UNSIGNED)
  }

  /** A row that has been through the file verifies exactly when it had no model. */
  lemma FileRoundTripVerifiesIff(secret: Secret, r: Record)
    requires VerifyEvent(r, secret)
    ensures VerifyEvent(ThroughFile(r), secret) <==> r.body.model == None
    ensures ThroughFile(r).hmac == r.hmac && ThroughFile(r).body.prevHash == r.body.prevHash
  {
  }

  /** A row logged with a model verifies as built, and no longer once read back. */
  lemma ModelDoesNotSurviveTheFile(secret: Secret, event: Body, signature: Signature, prevHash: Option<Digest>)
    requires event.model.Some?
    ensures var r := BuildRecord(secret, event, signature, prevHash);
      VerifyEvent(r, secret) && !VerifyEvent(ThroughFile(r), secret)
  {
  }

  // ---- the primary store, target of a drain -------------------------------------------

  /** Either a target that skips ids it holds, or one whose primary key rejects the whole batch. */
  datatype OnDuplicate = Skip | Reject

  function Write(onDuplicate: OnDuplicate, target: seq<Record>, batch: seq<Record>): Option<seq<Record>> {
    match onDuplicate
    case Skip => Some(Deliver(target, batch))
    case Reject => if AllNew(target, batch) then Some(target + batch) else None
  }

  /** How a call goes: it works, or it fails with the first `stored` rows of its batch stored. */
  datatype Call = Works | Fails(stored: nat)

  /**
   What a failing call leaves behind. The rejecting target writes in a transaction: the rows are stored
   only all at once, when the acknowledgement of the commit is what was lost.
   */
  function Interrupted(onDuplicate: OnDuplicate, target: seq<Record>, batch: seq<Record>, stored: nat): seq<Record> {
    match onDuplicate
    case Skip => Deliver(target, batch[..if stored < |batch| then stored else |batch|])
    case Reject => if stored >= |batch| && AllNew(target, batch) then target + batch else target
  }

  /** A raise-mode store that fills up fails like this. */
  lemma {:induction false} RaiseModeWriteIsACall(rows: seq<Record>, batch: seq<Record>, max: int) returns (k: nat)
    ensures k <= |batch| && WriteAll(rows, batch, max, false).0 == Interrupted(Skip, rows, batch, k)
    ensures WriteAll(rows, batch, max, false).1 ==> k == |batch|
  {
    k := 0;
    if batch != [] {
      var init := batch[..|batch| - 1];
      var j := RaiseModeWriteIsACall(rows, init, max);
      assert init[..j] == batch[..j];
      k := if WriteAll(rows, batch, max, false).1 then |batch| else j;
      assert batch[..|batch|] == batch && init[..|init|] == init;
    }
  }

  class PrimaryStore {
    var rows: seq<Record>
    const onDuplicate: OnDuplicate

    constructor (onDuplicate: OnDuplicate)
      ensures rows == [] && this.onDuplicate == onDuplicate
    {
      rows, this.onDuplicate := [], onDuplicate;
    }

    /** Lock, read, build, insert; nothing is written during an outage. */
    method InsertWithChainLock(secret: Secret, event: Body, signature: Signature, unreachable: bool)
      returns (record: Option<Record>)
      modifies this
      ensures unreachable ==> record == None && rows == old(rows)
      ensures !unreachable ==>
        && record == Some(BuildRecord(secret, event, signature, LastHmac(SessionRows(old(rows), event.sessionId))))
        && rows == old(rows) + [record.value]
    {
      if unreachable {
        return None;
      }
      record := Some(BuildRecord(secret, event, signature, LastHmac(SessionRows(rows, event.sessionId))));
      rows := rows + [record.value];
    }

    method WriteBatch(batch: seq<Record>, call: Call) returns (ok: bool)
      modifies this
      ensures var written := Write(onDuplicate, old(rows), batch);
              match call
              case Works => if written == None then !ok && rows == old(rows) else ok && rows == written.value
              case Fails(stored) => !ok && rows == Interrupted(onDuplicate, old(rows), batch, stored)
    {
      if call.Fails? {
        rows := Interrupted(onDuplicate, rows, batch, call.stored);
        return false;
      }
      var written := Write(onDuplicate, rows, batch);
      if written == None {
        return false;
      }
      rows := written.value;
      return true;
    }
  }

  // ---- sending rows in batches --------------------------------------------------------

  /** What is left to send, and whether every batch went through; one outcome per call made. */
  datatype Sent = Sent(target: seq<Record>, left: seq<Record>, ok: bool, calls: seq<Call>)

  function BatchSize(rows: seq<Record>): nat {
    if |rows| < DRAIN_BATCH_SIZE then |rows| else DRAIN_BATCH_SIZE
  }

  function SendAll(onDuplicate: OnDuplicate, target: seq<Record>, rows: seq<Record>, calls: seq<Call>): Sent
    decreases |rows|
  {
    if rows == [] then Sent(target, [], true, calls)
    else
      var batch := rows[..BatchSize(rows)];
      match Head(calls)
      case Fails(stored) => Sent(Interrupted(onDuplicate, target, batch, stored), rows, false, Tail(calls))
      case Works =>
        match Write(onDuplicate, target, batch)
        case None => Sent(target, rows, false, Tail(calls))
        case Some(written) => SendAll(onDuplicate, written, rows[|batch|..], Tail(calls))
  }

  /** Sending starts with one full batch, or with all there is. */
  lemma SendBatch(onDuplicate: OnDuplicate, target: seq<Record>, batch: seq<Record>, more: seq<Record>, calls: seq<Call>)
    requires 0 < |batch| <= DRAIN_BATCH_SIZE && (|batch| == DRAIN_BATCH_SIZE || more == [])
    ensures SendAll(onDuplicate, target, batch + more, calls) ==
      match Head(calls)
      case Fails(stored) => Sent(Interrupted(onDuplicate, target, batch, stored), batch + more, false, Tail(calls))
      case Works =>
        match Write(onDuplicate, target, batch)
        case None => Sent(target, batch + more, false, Tail(calls))
        case Some(written) => SendAll(onDuplicate, written, more, Tail(calls))
  {
    var rows := batch + more;
    assert rows[..|batch|] == batch && rows[|batch|..] == more;
  }

  lemma SendNothing(onDuplicate: OnDuplicate, target: seq<Record>, calls: seq<Call>)
    ensures SendAll(onDuplicate, target, [], calls) == Sent(target, [], true, calls)
  {
  }

  /** A call beyond the listed ones works. */
  function Head(calls: seq<Call>): Call {
    if calls == [] then Works else calls[0]
  }

  function Tail(calls: seq<Call>): seq<Call> {
    if calls == [] then [] else calls[1..]
  }

  // ---- the store ----------------------------------------------------------------------

  /** The newest hash a scan of `rows` finds for the session, `last` if it finds none. */
  function ScanFrom(rows: seq<Record>, session: Uuid, last: Option<Digest>): Option<Digest> {
    if SessionRows(rows, session) == [] then last else LastHmac(SessionRows(rows, session))
  }

  /** Row k is the session's newest. */
  predicate IsNewest(rows: seq<Record>, session: Uuid, k: nat) {
    && k < |rows| && rows[k].body.sessionId == session
    && forall j | k < j < |rows| :: rows[j].body.sessionId != session
  }

  /** The scan finds the hash of the session's newest row, by its place in the list. */
  lemma {:induction false} ScanFindsNewest(rows: seq<Record>, session: Uuid, last: Option<Digest>)
    ensures forall k: nat | IsNewest(rows, session, k) :: ScanFrom(rows, session, last) == Some(rows[k].hmac)
    ensures (forall r | r in rows :: r.body.sessionId != session) ==> ScanFrom(rows, session, last) == last
  {
    if rows != [] {
      var init, row := rows[..|rows| - 1], rows[|rows| - 1];
      ScanFindsNewest(init, session, last);
      forall k: nat | IsNewest(rows, session, k) ensures ScanFrom(rows, session, last) == Some(rows[k].hmac) {
        if k < |init| {
          assert IsNewest(init, session, k);
        }
      }
    }
  }

  /** Where an append hits a file-system error, if it does: the new file's mode is changed after the line is written. */
  datatype Fault = NoFault | BeforeWrite | AfterWrite

  class JsonlFallbackStore {
    /** The lines of the file; `None` when there is no file. */
    var file: Option<seq<Record>>
    var memoryBuffer: seq<Record>
    var fsAvailable: bool
    var lastHmac: map<Uuid, Option<Digest>>
    var initialized: set<Uuid>

    ghost predicate Valid()
      reads this
    {
      && (fsAvailable ==> memoryBuffer == [])
      && (forall s | s in initialized :: s in lastHmac)
    }

    function Lines(): seq<Record>
      reads this
    {
      if file.Some? then file.value else []
    }

    constructor (fsWorks: bool)
      ensures Valid() && Lines() == [] && memoryBuffer == [] && fsAvailable == fsWorks && initialized == {}
    {
      file, memoryBuffer, fsAvailable, lastHmac, initialized := None, [], fsWorks, map[], {};
    }

    method ScanLastHmac(session: Uuid) returns (last: Option<Digest>)
      ensures last == ScanFrom(memoryBuffer, session,
                        ScanFrom(if fsAvailable then Lines() else [], session, None))
    {
      last := None;
      var lines := if fsAvailable then Lines() else [];
      for i := 0 to |lines|
        invariant last == ScanFrom(lines[..i], session, None)
      {
        assert lines[..i + 1][..i] == lines[..i];
        if lines[i].body.sessionId == session {
          last := Some(lines[i].hmac);
        }
      }
      assert lines[..|lines|] == lines;
      ghost var fromFile := last;
      for i := 0 to |memoryBuffer|
        invariant last == ScanFrom(memoryBuffer[..i], session, fromFile)
      {
        assert memoryBuffer[..i + 1][..i] == memoryBuffer[..i];
        if memoryBuffer[i].body.sessionId == session {
          last := Some(memoryBuffer[i].hmac);
        }
      }
      assert memoryBuffer[..|memoryBuffer|] == memoryBuffer;
    }

    /** A file-system error switches to the memory buffer for good; a line already written stays in the file. */
    method Append(record: Record, fault: Fault)
      requires Valid()
      modifies this`file, this`memoryBuffer, this`fsAvailable
      ensures Valid()
      ensures fsAvailable == (old(fsAvailable) && fault == NoFault)
      ensures memoryBuffer == old(memoryBuffer) + if fsAvailable then [] else [record]
      ensures file == if old(fsAvailable) && fault != BeforeWrite then Some(old(Lines()) + [ThroughFile(record)]) else old(file)
    {
      if !fsAvailable {
        memoryBuffer := memoryBuffer + [record];
        return;
      }
      if fault != BeforeWrite {
        file := Some(Lines() + [ThroughFile(record)]);
      }
      if fault != NoFault {
        fsAvailable := false;
        memoryBuffer := memoryBuffer + [record];
      }
    }

    /** The hash the next row of the session links to: cached, else scanned. */
    ghost function PrevFor(session: Uuid): Option<Digest>
      reads this
      requires Valid()
    {
      if session in initialized then lastHmac[session]
      else ScanFrom(memoryBuffer, session, ScanFrom(if fsAvailable then Lines() else [], session, None))
    }

    method InsertWithChainLock(secret: Secret, event: Body, signature: Signature, fault: Fault)
      returns (record: Record)
      requires Valid()
      modifies this
      ensures Valid()
      ensures record == BuildRecord(secret, event, signature, old(PrevFor(event.sessionId)))
      ensures fsAvailable == (old(fsAvailable) && fault == NoFault)
      ensures memoryBuffer == old(memoryBuffer) + if fsAvailable then [] else [record]
      ensures file == if old(fsAvailable) && fault != BeforeWrite then Some(old(Lines()) + [ThroughFile(record)]) else old(file)
      ensures initialized == old(initialized) + {event.sessionId}
      ensures PrevFor(event.sessionId) == Some(record.hmac)
      ensures forall s | s in old(initialized) && s != event.sessionId :: lastHmac[s] == old(lastHmac[s])
    {
      var session := event.sessionId;
      if session !in initialized {
        var last := ScanLastHmac(session);
        lastHmac := lastHmac[session := last];
        initialized := initialized + {session};
      }
      record := BuildRecord(secret, event, signature, lastHmac[session]);
      Append(record, fault);
      lastHmac := lastHmac[session := Some(record.hmac)];
    }

    /** Send the memory buffer, then the file; what was not sent stays where it was. */
    method DrainTo(target: PrimaryStore, calls: seq<Call>) returns (ok: bool)
      requires Valid()
      modifies this, target
      ensures Valid() && fsAvailable == old(fsAvailable)
      ensures
        var memory := SendAll(target.onDuplicate, old(target.rows), old(memoryBuffer), calls);
        && memoryBuffer == memory.left
        && if !memory.ok then !ok && target.rows == memory.target && file == old(file)
           else if !fsAvailable || old(file) == None then ok && target.rows == memory.target && file == old(file)
           else
             var disk := SendAll(target.onDuplicate, memory.target, old(Lines()), memory.calls);
             && ok == disk.ok && target.rows == disk.target
             && file == if ok then None else old(file)
      ensures if ok && fsAvailable && old(file).Some? then initialized == {} && lastHmac == map[]
              else initialized == old(initialized) && lastHmac == old(lastHmac)
    {
      hide SendAll;
      var sent, rest := DrainMemory(target, calls);
      if !sent {
        return false;
      }
      if !fsAvailable || file == None {
        return true;
      }
      ok := DrainFile(target, rest);
      if ok {
        file, initialized, lastHmac := None, {}, map[];
      }
    }

    /** Send the memory buffer; the batches not sent stay buffered. */
    method DrainMemory(target: PrimaryStore, calls: seq<Call>) returns (ok: bool, rest: seq<Call>)
      requires Valid()
      modifies this`memoryBuffer, target
      ensures Valid()
      ensures SendAll(target.onDuplicate, old(target.rows), old(memoryBuffer), calls)
           == Sent(target.rows, memoryBuffer, ok, rest)
      ensures ok ==> memoryBuffer == []
    {
      rest := calls;
      var rows, i := memoryBuffer, 0;
      while i < |rows|
        invariant 0 <= i <= |rows| && unchanged(this)
        invariant SendAll(target.onDuplicate, old(target.rows), rows, calls)
               == SendAll(target.onDuplicate, target.rows, rows[i..], rest)
        decreases |rows| - i
      {
        var n := BatchSize(rows[i..]);
        var batch := rows[i..i + n];
        assert batch == rows[i..][..n] && rows[i..][n..] == rows[i + n..];
        var sent := target.WriteBatch(batch, Head(rest));
        rest := Tail(rest);
        if !sent {
          memoryBuffer := rows[i..];
          return false, rest;
        }
        i := i + n;
      }
      memoryBuffer := [];
      return true, rest;
    }

    /** Read the file line by line, sending each full batch and then the remainder. */
    method DrainFile(target: PrimaryStore, calls: seq<Call>) returns (ok: bool)
      modifies target
      ensures var disk := SendAll(target.onDuplicate, old(target.rows), Lines(), calls);
              ok == disk.ok && target.rows == disk.target
    {
      hide SendAll;
      var rest, batch, lines := calls, [], Lines();
      assert batch + lines[0..] == lines;
      for i := 0 to |lines|
        invariant |batch| < DRAIN_BATCH_SIZE
        invariant SendAll(target.onDuplicate, old(target.rows), lines, calls)
               == SendAll(target.onDuplicate, target.rows, batch + lines[i..], rest)
      {
        var pending := batch + lines[i..];
        batch := batch + [lines[i]];
        assert pending == batch + lines[i + 1..];
        if |batch| >= DRAIN_BATCH_SIZE {
          SendBatch(target.onDuplicate, target.rows, batch, lines[i + 1..], rest);
          var sent := target.WriteBatch(batch, Head(rest));
          rest := Tail(rest);
          if !sent {
            return false;
          }
          batch := [];
          assert [] + lines[i + 1..] == lines[i + 1..];
        }
      }
      assert batch + lines[|lines|..] == batch + [] == batch;
      SendNothing(target.onDuplicate, target.rows, rest);
      if batch != [] {
        SendBatch(target.onDuplicate, target.rows, batch, [], rest);
        ok := target.WriteBatch(batch, Head(rest));
        SendNothing(target.onDuplicate, target.rows, Tail(rest));
      } else {
        ok := true;
      }
    }
  }
}
