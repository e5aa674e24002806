/**
 The table an honest writer produces, and what any list of rows checked against it can be.

 The verifiers compare neither session ids nor row counts. `LinkedListIsSegment` shows that
 validity and linkage alone still pin a list to one contiguous stretch of one session.
 */
module Ledger {
  import opened Wrappers
  import opened Records

  /** The rows of one session, in table order. */
  function SessionRows(log: seq<Record>, session: Uuid): seq<Record> {
    if log == [] then []
    else
      var last := log[|log| - 1];
      SessionRows(log[..|log| - 1], session) + if last.body.sessionId == session then [last] else []
  }

  lemma {:induction false} SessionRowsBelong(log: seq<Record>, session: Uuid, r: Record)
    ensures r in SessionRows(log, session) <==> r in log && r.body.sessionId == session
  {
    if log != [] {
      SessionRowsBelong(log[..|log| - 1], session, r);
    }
  }

  function LastHmac(rows: seq<Record>): Option<Digest> {
    if rows == [] then None else Some(rows[|rows| - 1].hmac)
  }

  /** `record` is what a store holding the session lock writes after `log`. */
  ghost predicate Extends(secret: Secret, log: seq<Record>, record: Record) {
    && VerifyEvent(record, secret)
    && record.body.prevHash == LastHmac(SessionRows(log, record.body.sessionId))
  }

  ghost predicate HonestLog(secret: Secret, log: seq<Record>) {
    log == [] ||
    (HonestLog(secret, log[..|log| - 1]) && Extends(secret, log[..|log| - 1], log[|log| - 1]))
  }

  predicate AllVerify(secret: Secret, rows: seq<Record>) {
    forall i | 0 <= i < |rows| :: VerifyEvent(rows[i], secret)
  }

  predicate LinkedAt(rows: seq<Record>, i: nat)
    requires 1 <= i < |rows|
  {
    rows[i].body.prevHash == Some(rows[i - 1].hmac)
  }

  predicate Linked(rows: seq<Record>) {
    forall i | 1 <= i < |rows| :: LinkedAt(rows, i)
  }

  predicate GenesisRooted(rows: seq<Record>) {
    rows != [] ==> rows[0].body.prevHash == None
  }

  ghost predicate ChainOfSession(secret: Secret, log: seq<Record>, session: Uuid) {
    && AllVerify(secret, SessionRows(log, session))
    && Linked(SessionRows(log, session))
    && GenesisRooted(SessionRows(log, session))
  }

  /** The adversary cannot make MACs: every MAC under `secret` in `rows` sits in `log`. */
  ghost predicate Unforged(secret: Secret, log: seq<Record>, rows: seq<Record>) {
    forall r | r in rows && r.hmac.Mac? && r.hmac.key == secret :: exists h :: h in log && h.hmac == r.hmac
  }

  /** `rows` is, up to the signature columns, `whole[from..from + |rows|]`. */
  ghost predicate IsSegment(rows: seq<Record>, whole: seq<Record>, from: nat) {
    && from + |rows| <= |whole|
    && forall i | 0 <= i < |rows| :: SameSigned(rows[i], whole[from + i])
  }

  /** Every session of an honest log is a genesis-rooted chain of valid rows, indexed by depth. */
  lemma {:induction false} SessionIsChain(secret: Secret, log: seq<Record>, session: Uuid)
    requires HonestLog(secret, log)
    ensures ChainOfSession(secret, log, session)
    ensures forall i | 0 <= i < |SessionRows(log, session)| :: Depth(SessionRows(log, session)[i].hmac) == i
  {
    if log != [] {
      var init, last := log[..|log| - 1], log[|log| - 1];
      var before := SessionRows(init, session);
      SessionIsChain(secret, init, session);
      assert Extends(secret, init, last);
      if last.body.sessionId == session {
        assert SessionRows(log, session) == before + [last];
        assert before != [] ==> last.body.prevHash == Some(before[|before| - 1].hmac);
        forall i | 1 <= i < |before| + 1 ensures LinkedAt(before + [last], i) {
          assert i < |before| ==> LinkedAt(before, i);
        }
      } else {
        assert SessionRows(log, session) == before;
      }
    }
  }

  lemma {:induction false} SessionRowsAppend(log: seq<Record>, more: seq<Record>, session: Uuid)
    ensures SessionRows(log + more, session) == SessionRows(log, session) + SessionRows(more, session)
  {
    if more == [] {
      assert log + more == log;
    } else {
      var init := more[..|more| - 1];
      assert (log + more)[..|log + more| - 1] == log + init;
      SessionRowsAppend(log, init, session);
    }
  }

  /** A row of an honest log stands, within its session, at the index given by its depth. */
  lemma {:induction false} RowStandsAtDepth(secret: Secret, log: seq<Record>, r: Record)
    requires HonestLog(secret, log) && r in log
    ensures Depth(r.hmac) < |SessionRows(log, r.body.sessionId)|
    ensures SessionRows(log, r.body.sessionId)[Depth(r.hmac)] == r
  {
    var init, session := log[..|log| - 1], r.body.sessionId;
    if r == log[|log| - 1] {
      SessionIsChain(secret, log, session);
      assert SessionRows(log, session)[|SessionRows(log, session)| - 1] == r;
    } else {
      RowStandsAtDepth(secret, init, r);
    }
  }

  /** A single valid, unforged row is the row of its own session at its own depth. */
  lemma ValidRowIsHonest(secret: Secret, log: seq<Record>, rows: seq<Record>, i: nat)
    requires HonestLog(secret, log) && Unforged(secret, log, rows)
    requires i < |rows| && VerifyEvent(rows[i], secret)
    ensures var whole := SessionRows(log, rows[i].body.sessionId);
            Depth(rows[i].hmac) < |whole| && SameSigned(rows[i], whole[Depth(rows[i].hmac)])
  {
    assert rows[i] in rows;
    var h :| h in log && h.hmac == rows[i].hmac;
    var session := h.body.sessionId;
    RowStandsAtDepth(secret, log, h);
    SessionIsChain(secret, log, session);
    assert VerifyEvent(SessionRows(log, session)[Depth(h.hmac)], secret);
  }

  /** A linked row names its predecessor's session, one level deeper. */
  lemma LinkKeepsSession(secret: Secret, log: seq<Record>, rows: seq<Record>, i: nat)
    requires HonestLog(secret, log) && Unforged(secret, log, rows)
    requires 1 <= i < |rows| && AllVerify(secret, rows) && Linked(rows)
    ensures rows[i].body.sessionId == rows[i - 1].body.sessionId
    ensures Depth(rows[i].hmac) == Depth(rows[i - 1].hmac) + 1
  {
    ValidRowIsHonest(secret, log, rows, i);
    var whole := SessionRows(log, rows[i].body.sessionId);
    var at := Depth(rows[i].hmac);
    assert LinkedAt(rows, i);
    SessionIsChain(secret, log, rows[i].body.sessionId);
    assert LinkedAt(whole, at);
    assert VerifyEvent(whole[at - 1], secret) && VerifyEvent(rows[i - 1], secret);
    SessionRowsBelong(log, rows[i].body.sessionId, whole[at - 1]);
  }

  lemma {:induction false} LinksKeepSession(secret: Secret, log: seq<Record>, rows: seq<Record>, i: nat)
    requires HonestLog(secret, log) && Unforged(secret, log, rows)
    requires i < |rows| && AllVerify(secret, rows) && Linked(rows)
    ensures rows[i].body.sessionId == rows[0].body.sessionId
    ensures Depth(rows[i].hmac) == Depth(rows[0].hmac) + i
  {
    hide HonestLog;
    hide Unforged;
    hide AllVerify;
    if i > 0 {
      LinksKeepSession(secret, log, rows, i - 1);
      LinkKeepsSession(secret, log, rows, i);
    }
  }

  lemma LinkedRowIsHonest(secret: Secret, log: seq<Record>, rows: seq<Record>, i: nat)
    requires HonestLog(secret, log) && Unforged(secret, log, rows)
    requires i < |rows| && AllVerify(secret, rows) && Linked(rows)
    ensures var whole, from := SessionRows(log, rows[0].body.sessionId), Depth(rows[0].hmac);
            from + i < |whole| && SameSigned(rows[i], whole[from + i])
  {
    LinksKeepSession(secret, log, rows, i);
    ValidRowIsHonest(secret, log, rows, i);
  }

  /**
   Validity and linkage alone confine an unforged list to one contiguous stretch of one session:
   nothing edited, nothing missing inside, nothing reordered, nothing spliced from elsewhere.
   */
  lemma LinkedListIsSegment(secret: Secret, log: seq<Record>, rows: seq<Record>)
    requires HonestLog(secret, log) && Unforged(secret, log, rows)
    requires rows != [] && AllVerify(secret, rows) && Linked(rows)
    ensures IsSegment(rows, SessionRows(log, rows[0].body.sessionId), Depth(rows[0].hmac))
  {
    LinkedRowIsHonest(secret, log, rows, |rows| - 1);
    forall i: nat | i < |rows| {
      LinkedRowIsHonest(secret, log, rows, i);
    }
  }

  /** Every stretch of a session verifies, and it starts at genesis exactly when it starts at index 0. */
  lemma SegmentVerifies(secret: Secret, log: seq<Record>, rows: seq<Record>, session: Uuid, from: nat)
    requires HonestLog(secret, log)
    requires IsSegment(rows, SessionRows(log, session), from)
    ensures AllVerify(secret, rows) && Linked(rows)
    ensures rows != [] ==> rows[0].body.sessionId == session && Depth(rows[0].hmac) == from
    ensures rows != [] ==> (GenesisRooted(rows) <==> from == 0)
  {
    var whole := SessionRows(log, session);
    SessionIsChain(secret, log, session);
    forall i | 0 <= i < |rows| ensures VerifyEvent(rows[i], secret) {
      assert SameSigned(rows[i], whole[from + i]);
      assert VerifyEvent(whole[from + i], secret);
    }
    forall i | 1 <= i < |rows| ensures LinkedAt(rows, i) {
      assert LinkedAt(whole, from + i);
      assert SameSigned(rows[i], whole[from + i]) && SameSigned(rows[i - 1], whole[from + i - 1]);
    }
    if rows != [] {
      assert SameSigned(rows[0], whole[from]);
      SessionRowsBelong(log, session, whole[from]);
    }
  }

  /** Only the sessions matter: a table whose sessions are all chains is one an honest writer can produce. */
  lemma {:induction false} ChainsMakeHonestLog(secret: Secret, log: seq<Record>)
    requires forall s :: ChainOfSession(secret, log, s)
    ensures HonestLog(secret, log)
  {
    if log != [] {
      var init, last := log[..|log| - 1], log[|log| - 1];
      forall s ensures ChainOfSession(secret, init, s) {
        var rows, before := SessionRows(log, s), SessionRows(init, s);
        assert ChainOfSession(secret, log, s);
        assert rows == before + if last.body.sessionId == s then [last] else [];
        forall i | 1 <= i < |before| ensures LinkedAt(before, i) {
          assert LinkedAt(rows, i);
        }
        assert forall i | 0 <= i < |before| :: before[i] == rows[i];
      }
      ChainsMakeHonestLog(secret, init);
      var rows := SessionRows(log, last.body.sessionId);
      assert ChainOfSession(secret, log, last.body.sessionId);
      assert rows[|rows| - 1] == last;
      if |rows| > 1 {
        assert LinkedAt(rows, |rows| - 1);
      }
    }
  }
}
