/**
 The compliance report's window check: per-row MACs, then linkage within each session of a window
 that may interleave many sessions.
 */
module SessionLinkage {
  import opened Wrappers
  import opened Records
  import opened Ledger
  import opened ChainVerifier

  datatype LinkageError =
    | TruncatedHead(session: Uuid, eventId: Uuid)
    | SessionGap(session: Uuid, position: nat)

  predicate SessionPasses(records: seq<Record>, session: Uuid, assertGenesis: bool) {
    && Linked(SessionRows(records, session))
    && (assertGenesis ==> GenesisRooted(SessionRows(records, session)))
  }

  ghost predicate PerSessionLinked(records: seq<Record>, assertGenesis: bool) {
    forall s :: SessionPasses(records, s, assertGenesis)
  }

  /** Group the rows by session in one pass, keeping the order in which sessions first appear. */
  method GroupBySession(records: seq<Record>) returns (bySession: map<Uuid, seq<Record>>, order: seq<Uuid>)
    ensures forall s :: s in order <==> s in bySession
    ensures forall s :: s in bySession ==> bySession[s] == SessionRows(records, s)
    ensures forall s :: s !in bySession ==> SessionRows(records, s) == []
  {
    bySession, order := map[], [];
    for i := 0 to |records|
      invariant forall s :: s in order <==> s in bySession
      invariant forall s :: s in bySession ==> bySession[s] == SessionRows(records[..i], s)
      invariant forall s :: s !in bySession ==> SessionRows(records[..i], s) == []
    {
      assert records[..i + 1][..i] == records[..i];
      var session := records[i].body.sessionId;
      if session in bySession {
        bySession := bySession[session := bySession[session] + [records[i]]];
      } else {
        bySession := bySession[session := [records[i]]];
        order := order + [session];
      }
    }
    assert records[..|records|] == records;
  }

  method CheckPerSessionLinkage(records: seq<Record>, assertGenesis: bool) returns (error: Option<LinkageError>)
    ensures error == None <==> PerSessionLinked(records, assertGenesis)
    ensures error.Some? ==> !SessionPasses(records, error.value.session, assertGenesis)
    ensures error.Some? && error.value.SessionGap? ==>
      var rows := SessionRows(records, error.value.session);
      1 <= error.value.position < |rows| && !LinkedAt(rows, error.value.position)
  {
    var bySession, order := GroupBySession(records);
    for k := 0 to |order|
      invariant forall i | 0 <= i < k :: SessionPasses(records, order[i], assertGenesis)
    {
      var recs := bySession[order[k]];
      if assertGenesis && recs != [] && recs[0].body.prevHash != None {
        assert !SessionPasses(records, order[k], assertGenesis);
        return Some(TruncatedHead(order[k], recs[0].body.eventId));
      }
      var gap := LinkagePass(recs);
      if gap.Some? {
        assert !SessionPasses(records, order[k], assertGenesis);
        return Some(SessionGap(order[k], gap.value));
      }
    }
    forall s ensures SessionPasses(records, s, assertGenesis) {
      if s in bySession {
        var i :| 0 <= i < |order| && order[i] == s;
      }
    }
    return None;
  }

  // ---- the in-memory branch of the report ---------------------------------------------

  datatype Status = Verified | Failed | Unverified

  const CHAIN_VERIFY_WINDOW := 1000

  /** Without explicit bounds the check covers the last `CHAIN_VERIFY_WINDOW` rows of the list. */
  function DefaultBounds(total: nat, fromSeq: Option<int>, toSeq: Option<int>): (Option<int>, Option<int>) {
    if fromSeq == None && toSeq == None && total > 0 then
      var head := total - 1;
      (Some(if head - (CHAIN_VERIFY_WINDOW - 1) > 0 then head - (CHAIN_VERIFY_WINDOW - 1) else 0), Some(head))
    else (fromSeq, toSeq)
  }

  predicate StartsAtHead(fromSeq: Option<int>) {
    fromSeq == None || fromSeq == Some(0)
  }

  /** `records` is what `list_all_records` returns: every session's rows, one session after another. */
  method RunChainVerificationInMemory(secret: Secret, records: seq<Record>, fromSeq: Option<int>, toSeq: Option<int>)
    returns (status: Status)
    ensures var (lo, hi) := DefaultBounds(|records|, fromSeq, toSeq);
            var window := Window(records, lo, hi);
            && (status.Unverified? <==> window == [])
            && (status.Verified? <==> window != [] && AllVerify(secret, window)
                                      && PerSessionLinked(window, StartsAtHead(lo)))
    ensures fromSeq == None && toSeq == None ==>
      var newest := if |records| > 1000 then records[|records| - 1000..] else records;
      status.Verified? <==> newest != [] && AllVerify(secret, newest) && PerSessionLinked(newest, |records| <= 1000)
    ensures fromSeq.Some? || toSeq.Some? ==>
      var window := Window(records, fromSeq, toSeq);
      status.Verified? <==> window != [] && AllVerify(secret, window)
                            && PerSessionLinked(window, fromSeq == None || fromSeq.value == 0)
  {
    if fromSeq == None && toSeq == None && records != [] {
      WindowInRange(records, if |records| > 1000 then |records| - 1000 else 0, |records| - 1);
    }
    var (lo, hi) := DefaultBounds(|records|, fromSeq, toSeq);
    var window := if lo.Some? || hi.Some? then Window(records, lo, hi) else records;
    assert window == Window(records, lo, hi);
    if window == [] {
      return Unverified;
    }
    var bad := MacPass(secret, window);
    if bad.Some? {
      return Failed;
    }
    var error := CheckPerSessionLinkage(window, StartsAtHead(lo));
    return if error.Some? then Failed else Verified;
  }

  // ---- what acceptance means ----------------------------------------------------------

  /** Each session's rows within `rows` are one stretch of that session's history. */
  ghost predicate EachSessionIsSegment(log: seq<Record>, rows: seq<Record>, fromGenesis: bool) {
    forall s :: SessionIsSegment(log, rows, s, fromGenesis)
  }

  ghost predicate SessionIsSegment(log: seq<Record>, rows: seq<Record>, session: Uuid, fromGenesis: bool) {
    var mine, whole := SessionRows(rows, session), SessionRows(log, session);
    mine == [] || exists from: nat :: IsSegment(mine, whole, from) && (fromGenesis ==> from == 0)
  }

  /**
   The window theorem. An unforged list of rows passes exactly when, session by session, it holds a
   contiguous stretch of the history (a prefix when genesis is asserted).
   */
  lemma WindowVerifiedIffSegments(secret: Secret, log: seq<Record>, rows: seq<Record>, assertGenesis: bool)
    requires HonestLog(secret, log) && Unforged(secret, log, rows)
    ensures AllVerify(secret, rows) && PerSessionLinked(rows, assertGenesis)
      <==> EachSessionIsSegment(log, rows, assertGenesis)
  {
    if AllVerify(secret, rows) && PerSessionLinked(rows, assertGenesis) {
      forall s ensures SessionIsSegment(log, rows, s, assertGenesis) {
        assert SessionPasses(rows, s, assertGenesis);
        PassingSessionIsSegment(secret, log, rows, s, assertGenesis);
      }
    }
    if EachSessionIsSegment(log, rows, assertGenesis) {
      forall s ensures SessionPasses(rows, s, assertGenesis) && AllVerify(secret, SessionRows(rows, s)) {
        assert SessionIsSegment(log, rows, s, assertGenesis);
        SegmentSessionPasses(secret, log, rows, s, assertGenesis);
      }
      forall i | 0 <= i < |rows| ensures VerifyEvent(rows[i], secret) {
        var mine := SessionRows(rows, rows[i].body.sessionId);
        SessionRowsBelong(rows, rows[i].body.sessionId, rows[i]);
        assert AllVerify(secret, mine);
        var k :| 0 <= k < |mine| && mine[k] == rows[i];
      }
    }
  }

  lemma PassingSessionIsSegment(secret: Secret, log: seq<Record>, rows: seq<Record>, session: Uuid, assertGenesis: bool)
    requires HonestLog(secret, log) && Unforged(secret, log, rows)
    requires AllVerify(secret, rows) && SessionPasses(rows, session, assertGenesis)
    ensures SessionIsSegment(log, rows, session, assertGenesis)
  {
    var mine := SessionRows(rows, session);
    if mine != [] {
      forall r | r in mine ensures r in rows && r.body.sessionId == session && VerifyEvent(r, secret) {
        SessionRowsBelong(rows, session, r);
        var i :| 0 <= i < |rows| && rows[i] == r;
      }
      forall i | 0 <= i < |mine| ensures VerifyEvent(mine[i], secret) {
        assert mine[i] in mine;
      }
      LinkedListIsSegment(secret, log, mine);
      SegmentVerifies(secret, log, mine, session, Depth(mine[0].hmac));
    }
  }

  lemma SegmentSessionPasses(secret: Secret, log: seq<Record>, rows: seq<Record>, session: Uuid, assertGenesis: bool)
    requires HonestLog(secret, log) && SessionIsSegment(log, rows, session, assertGenesis)
    ensures SessionPasses(rows, session, assertGenesis) && AllVerify(secret, SessionRows(rows, session))
  {
    var mine, whole := SessionRows(rows, session), SessionRows(log, session);
    if mine != [] {
      var from: nat :| IsSegment(mine, whole, from) && (assertGenesis ==> from == 0);
      SegmentVerifies(secret, log, mine, session, from);
    }
  }

  lemma WindowIsSegment(log: seq<Record>, a: nat, b: nat, session: Uuid)
    requires a <= b <= |log|
    ensures SessionIsSegment(log, log[a..b], session, a == 0)
  {
    var before, mine, after := log[..a], log[a..b], log[b..];
    SessionRowsAppend(before, mine, session);
    SessionRowsAppend(before + mine, after, session);
    assert log == before + mine + after;
    var from := |SessionRows(before, session)|;
    assert IsSegment(SessionRows(mine, session), SessionRows(log, session), from);
  }

  /** No false alarm: every contiguous window of an honest, arbitrarily interleaved log passes. */
  lemma HonestWindowsPass(secret: Secret, log: seq<Record>, a: nat, b: nat)
    requires HonestLog(secret, log) && a <= b <= |log|
    ensures AllVerify(secret, log[a..b]) && PerSessionLinked(log[a..b], a == 0)
  {
    var rows, fromGenesis := log[a..b], a == 0;
    forall s ensures SessionIsSegment(log, rows, s, fromGenesis) {
      WindowIsSegment(log, a, b, s);
    }
    assert forall r | r in rows :: r in log;
    WindowVerifiedIffSegments(secret, log, rows, fromGenesis);
  }

  lemma {:induction false} DepthFollowsTableOrder(secret: Secret, log: seq<Record>, i: nat, j: nat)
    requires HonestLog(secret, log) && i < j < |log|
    requires log[i].body.sessionId == log[j].body.sessionId
    ensures Depth(log[i].hmac) < Depth(log[j].hmac)
  {
    var init := log[..|log| - 1];
    if j < |log| - 1 {
      DepthFollowsTableOrder(secret, init, i, j);
    } else {
      var session := log[j].body.sessionId;
      assert log[i] == init[i];
      RowStandsAtDepth(secret, init, init[i]);
      SessionIsChain(secret, log, session);
      var rows := SessionRows(log, session);
      assert rows == SessionRows(init, session) + [log[j]];
      assert rows[|rows| - 1] == log[j];
    }
  }

  /**
   Deleting a row while an earlier and a later row of the same session stay is always caught,
   whatever else was deleted or reordered.
   */
  lemma InteriorDeletionIsCaught(secret: Secret, log: seq<Record>, rows: seq<Record>, i: nat, j: nat, k: nat)
    requires HonestLog(secret, log) && i < j < k < |log|
    requires log[i].body.sessionId == log[j].body.sessionId == log[k].body.sessionId
    requires forall r | r in rows :: r in log
    requires log[i] in rows && log[k] in rows && log[j] !in rows
    ensures !PerSessionLinked(rows, false)
  {
    var s := log[j].body.sessionId;
    DepthFollowsTableOrder(secret, log, i, j);
    DepthFollowsTableOrder(secret, log, j, k);
    if PerSessionLinked(rows, false) {
      assert AllVerify(secret, rows) by {
        forall x | 0 <= x < |rows| ensures VerifyEvent(rows[x], secret) {
          assert rows[x] in rows;
          HonestRowVerifies(secret, log, rows[x]);
        }
      }
      assert SessionPasses(rows, s, false);
      PassingSessionIsSegment(secret, log, rows, s, false);
      SessionRowsBelong(rows, s, log[i]);
      SessionRowsBelong(rows, s, log[k]);
      var mine := SessionRows(rows, s);
      var a: nat :| a < |mine| && mine[a] == log[i];
      var c: nat :| c < |mine| && mine[c] == log[k];
      var from: nat :| IsSegment(mine, SessionRows(log, s), from);
      SegmentHasNoHoles(secret, log, rows, s, from, a, c, log[j]);
    }
  }

  lemma HonestRowVerifies(secret: Secret, log: seq<Record>, r: Record)
    requires HonestLog(secret, log) && r in log
    ensures VerifyEvent(r, secret)
  {
    RowStandsAtDepth(secret, log, r);
    SessionIsChain(secret, log, r.body.sessionId);
  }

  lemma DepthIdentifiesRow(secret: Secret, log: seq<Record>, r: Record, r': Record)
    requires HonestLog(secret, log) && r in log && r' in log
    requires r.body.sessionId == r'.body.sessionId && Depth(r.hmac) == Depth(r'.hmac)
    ensures r == r'
  {
    RowStandsAtDepth(secret, log, r);
    RowStandsAtDepth(secret, log, r');
  }

  lemma SegmentHasNoHoles(secret: Secret, log: seq<Record>, rows: seq<Record>, session: Uuid, from: nat,
                          a: nat, c: nat, y: Record)
    requires HonestLog(secret, log) && IsSegment(SessionRows(rows, session), SessionRows(log, session), from)
    requires forall r | r in rows :: r in log
    requires a < |SessionRows(rows, session)| && c < |SessionRows(rows, session)|
    requires y in log && y.body.sessionId == session
    requires Depth(SessionRows(rows, session)[a].hmac) < Depth(y.hmac) < Depth(SessionRows(rows, session)[c].hmac)
    ensures y in rows
  {
    var at := Depth(y.hmac);
    assert from < at < from + c by {
      SegmentRowIsAtDepth(secret, log, rows, session, from, a);
      SegmentRowIsAtDepth(secret, log, rows, session, from, c);
    }
    var b: nat := at - from;
    SegmentRowIsAtDepth(secret, log, rows, session, from, b);
    DepthIdentifiesRow(secret, log, SessionRows(rows, session)[b], y);
  }

  lemma SegmentRowIsAtDepth(secret: Secret, log: seq<Record>, rows: seq<Record>, session: Uuid, from: nat, k: nat)
    requires HonestLog(secret, log) && IsSegment(SessionRows(rows, session), SessionRows(log, session), from)
    requires forall r | r in rows :: r in log
    requires k < |SessionRows(rows, session)|
    ensures var r := SessionRows(rows, session)[k];
            r in rows && r.body.sessionId == session && Depth(r.hmac) == from + k
  {
    var r := SessionRows(rows, session)[k];
    SessionRowsBelong(rows, session, r);
    RowStandsAtDepth(secret, log, r);
    SessionIsChain(secret, log, session);
    assert SameSigned(r, SessionRows(log, session)[from + k]);
  }
}
