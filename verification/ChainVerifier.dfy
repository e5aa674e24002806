/**
 The single-key verifiers of the audit module, and what a list they accept must be.
 The store read that feeds each verifier is a parameter.
 */
module ChainVerifier {
  import opened Wrappers
  import opened Records
  import opened Ledger

  datatype ChainError =
    | HeadTruncated(eventId: Uuid)
    | IntegrityViolation(index: int, eventId: Uuid)
    | ChainFork(first: Uuid, second: Uuid)
    | ChainGap(index: int, eventId: Uuid, before: Uuid)
    | BadRange(fromSeq: int, toSeq: int)

  predicate FullChain(secret: Secret, rows: seq<Record>) {
    GenesisRooted(rows) && AllVerify(secret, rows) && Linked(rows)
  }

  /** No two rows name the same predecessor. */
  predicate ForkFree(rows: seq<Record>) {
    forall i, j | 0 <= i < j < |rows| :: rows[i].body.prevHash != rows[j].body.prevHash
  }

  // ---- passes shared by the verifiers -------------------------------------------------

  method MacPass(secret: Secret, rows: seq<Record>) returns (bad: Option<nat>)
    ensures bad == None <==> AllVerify(secret, rows)
    ensures bad.Some? ==>
      && bad.value < |rows|
      && !VerifyEvent(rows[bad.value], secret)
      && AllVerify(secret, rows[..bad.value])
  {
    for i := 0 to |rows|
      invariant AllVerify(secret, rows[..i])
    {
      if !VerifyEvent(rows[i], secret) {
        return Some(i);
      }
    }
    assert rows[..|rows|] == rows;
    return None;
  }

  method LinkagePass(rows: seq<Record>) returns (gap: Option<nat>)
    ensures gap == None <==> Linked(rows)
    ensures gap.Some? ==>
      && 1 <= gap.value < |rows|
      && !LinkedAt(rows, gap.value)
      && forall i | 1 <= i < gap.value :: LinkedAt(rows, i)
  {
    var i := 1;
    while i < |rows|
      invariant 1 <= i
      invariant forall k | 1 <= k < i && k < |rows| :: LinkedAt(rows, k)
    {
      if rows[i].body.prevHash != Some(rows[i - 1].hmac) {
        assert !LinkedAt(rows, i);
        return Some(i);
      }
      i := i + 1;
    }
    return None;
  }

  /** The pass that remembers each prevHash it has met, and the event that carried it. */
  method ForkPass(rows: seq<Record>) returns (fork: Option<(Uuid, Uuid)>)
    ensures fork == None <==> ForkFree(rows)
    ensures fork.Some? ==> exists i, j | 0 <= i < j < |rows| ::
        && rows[i].body.prevHash == rows[j].body.prevHash
        && fork.value == (rows[i].body.eventId, rows[j].body.eventId)
  {
    var seenPrev: map<Option<Digest>, Uuid> := map[];
    for j := 0 to |rows|
      invariant ForkFree(rows[..j])
      invariant forall i | 0 <= i < j ::
          rows[i].body.prevHash in seenPrev && seenPrev[rows[i].body.prevHash] == rows[i].body.eventId
      invariant forall prev | prev in seenPrev ::
          exists i | 0 <= i < j :: rows[i].body.prevHash == prev
    {
      var prev := rows[j].body.prevHash;
      if prev in seenPrev {
        var i :| 0 <= i < j && rows[i].body.prevHash == prev;
        return Some((seenPrev[prev], rows[j].body.eventId));
      }
      seenPrev := seenPrev[prev := rows[j].body.eventId];
    }
    assert rows[..|rows|] == rows;
    return None;
  }

  // ---- the verifiers ------------------------------------------------------------------

  method VerifyChainRecords(secret: Secret, records: seq<Record>) returns (r: Result<bool, ChainError>)
    ensures r.Ok? <==> FullChain(secret, records)
    ensures r.Ok? ==> r.value
    ensures r.Err? && r.error.HeadTruncated? <==> !GenesisRooted(records)
    ensures r.Err? && r.error.IntegrityViolation? <==> GenesisRooted(records) && !AllVerify(secret, records)
    ensures r.Err? && r.error.IntegrityViolation? ==>
      && 0 <= r.error.index < |records|
      && !VerifyEvent(records[r.error.index], secret)
      && AllVerify(secret, records[..r.error.index])
    ensures r.Err? && r.error.ChainGap? ==>
      && 1 <= r.error.index < |records|
      && !LinkedAt(records, r.error.index)
      && forall i | 1 <= i < r.error.index :: LinkedAt(records, i)
  {
    if records != [] && records[0].body.prevHash != None {
      return Err(HeadTruncated(records[0].body.eventId));
    }
    var bad := MacPass(secret, records);
    if bad.Some? {
      return Err(IntegrityViolation(bad.value, records[bad.value].body.eventId));
    }
    var gap := LinkagePass(records);
    if gap.Some? {
      return Err(ChainGap(gap.value, records[gap.value].body.eventId, records[gap.value - 1].body.eventId));
    }
    return Ok(true);
  }

  /** An index of a Python slice: negative counts from the end, then clamp. */
  function SliceIndex(i: int, length: nat): (k: nat)
    ensures k <= length
  {
    if i < 0 then (if i + length < 0 then 0 else i + length)
    else if i > length then length else i
  }

  /** `events[lo:hi]` */
  function Slice(events: seq<Record>, lo: int, hi: int): seq<Record> {
    var a, b := SliceIndex(lo, |events|), SliceIndex(hi, |events|);
    if a <= b then events[a..b] else []
  }

  function WindowStart(fromSeq: Option<int>): int {
    if fromSeq.Some? then fromSeq.value else 0
  }

  function Window(events: seq<Record>, fromSeq: Option<int>, toSeq: Option<int>): seq<Record> {
    Slice(events, WindowStart(fromSeq), if toSeq.Some? then toSeq.value + 1 else |events|)
  }

  /** The event at index k lies in the inclusive range asked for; a negative bound counts from the end. */
  predicate IsRequested(total: nat, fromSeq: Option<int>, toSeq: Option<int>, k: nat) {
    && k < total
    && (fromSeq.Some? ==> k >= if fromSeq.value >= 0 then fromSeq.value else total + fromSeq.value)
    && (toSeq.Some? ==> k <= if toSeq.value >= -1 then toSeq.value else total + toSeq.value)
  }

  /** Every event asked for verifies and links to the one before, and a range from the head starts at genesis. */
  ghost predicate RangeIsChain(secret: Secret, events: seq<Record>, fromSeq: Option<int>, toSeq: Option<int>) {
    && (forall k: nat | IsRequested(|events|, fromSeq, toSeq, k) :: VerifyEvent(events[k], secret))
    && (forall k: nat | k > 0 && IsRequested(|events|, fromSeq, toSeq, k) ::
          IsRequested(|events|, fromSeq, toSeq, k - 1) ==> LinkedAt(events, k))
    && (fromSeq in [None, Some(0)] && IsRequested(|events|, fromSeq, toSeq, 0) ==> events[0].body.prevHash == None)
  }

  /** The slice holds the events asked for, in order. */
  lemma WindowIsRange(events: seq<Record>, fromSeq: Option<int>, toSeq: Option<int>) returns (first: nat)
    ensures var window := Window(events, fromSeq, toSeq);
      && (forall k: nat :: IsRequested(|events|, fromSeq, toSeq, k) <==> first <= k < first + |window|)
      && (forall j | 0 <= j < |window| :: first + j < |events| && window[j] == events[first + j])
    ensures fromSeq in [None, Some(0)] ==> first == 0
  {
    first := SliceIndex(WindowStart(fromSeq), |events|);
  }

  /** For bounds within the list that is, both included: */
  lemma WindowInRange(events: seq<Record>, a: nat, b: nat)
    requires a <= b < |events|
    ensures Window(events, Some(a), Some(b)) == events[a..b + 1]
    ensures Window(events, None, Some(b)) == events[..b + 1]
    ensures Window(events, Some(a), None) == events[a..]
    ensures Window(events, None, None) == events
  {
  }

  lemma RangeIsChainIff(secret: Secret, events: seq<Record>, fromSeq: Option<int>, toSeq: Option<int>)
    ensures var window := Window(events, fromSeq, toSeq);
      RangeIsChain(secret, events, fromSeq, toSeq) <==>
        (WindowStart(fromSeq) == 0 ==> GenesisRooted(window)) && AllVerify(secret, window) && Linked(window)
  {
    var window := Window(events, fromSeq, toSeq);
    var first := WindowIsRange(events, fromSeq, toSeq);
    hide Window;
    if RangeIsChain(secret, events, fromSeq, toSeq) {
      forall i | 1 <= i < |window| ensures LinkedAt(window, i) {
        assert IsRequested(|events|, fromSeq, toSeq, first + i) && IsRequested(|events|, fromSeq, toSeq, first + i - 1);
        assert LinkedAt(events, first + i);
      }
      forall i | 0 <= i < |window| ensures VerifyEvent(window[i], secret) {
        assert IsRequested(|events|, fromSeq, toSeq, first + i);
      }
    }
    if Linked(window) {
      forall k: nat | k > 0 && IsRequested(|events|, fromSeq, toSeq, k) && IsRequested(|events|, fromSeq, toSeq, k - 1)
        ensures LinkedAt(events, k)
      {
        assert LinkedAt(window, k - first);
      }
    }
    if AllVerify(secret, window) {
      forall k: nat | IsRequested(|events|, fromSeq, toSeq, k) ensures VerifyEvent(events[k], secret) {
        assert window[k - first] == events[k];
      }
    }
  }

  method VerifyChain(secret: Secret, events: seq<Record>, fromSeq: Option<int>, toSeq: Option<int>)
    returns (r: Result<bool, ChainError>)
    ensures r.Ok? ==> r.value
    ensures r.Ok? <==>
      !(fromSeq.Some? && toSeq.Some? && fromSeq.value > toSeq.value) && RangeIsChain(secret, events, fromSeq, toSeq)
    ensures r.Err? && r.error.BadRange? <==> fromSeq.Some? && toSeq.Some? && fromSeq.value > toSeq.value
    ensures !(r.Err? && r.error.BadRange?) ==>
      var window := Window(events, fromSeq, toSeq);
      && (r.Err? && r.error.HeadTruncated? <==> WindowStart(fromSeq) == 0 && !GenesisRooted(window))
    ensures r.Err? && r.error.IntegrityViolation? ==>
      var window, i := Window(events, fromSeq, toSeq), r.error.index - WindowStart(fromSeq);
      0 <= i < |window| && !VerifyEvent(window[i], secret) && AllVerify(secret, window[..i])
    ensures r.Err? && r.error.ChainGap? ==>
      var window, i := Window(events, fromSeq, toSeq), r.error.index - WindowStart(fromSeq);
      1 <= i < |window| && !LinkedAt(window, i)
  {
    if fromSeq.Some? && toSeq.Some? && fromSeq.value > toSeq.value {
      return Err(BadRange(fromSeq.value, toSeq.value));
    }
    RangeIsChainIff(secret, events, fromSeq, toSeq);
    hide RangeIsChain;
    var start := WindowStart(fromSeq);
    var window := Window(events, fromSeq, toSeq);
    if start == 0 && window != [] && window[0].body.prevHash != None {
      return Err(HeadTruncated(window[0].body.eventId));
    }
    var bad := MacPass(secret, window);
    if bad.Some? {
      return Err(IntegrityViolation(start + bad.value, window[bad.value].body.eventId));
    }
    var gap := LinkagePass(window);
    if gap.Some? {
      return Err(ChainGap(start + gap.value, window[gap.value].body.eventId, window[gap.value - 1].body.eventId));
    }
    return Ok(true);
  }

  /** `trace_session_chain` runs a fork check too, yet accepts the same lists as `verify_chain`. */
  method TraceSessionChain(secret: Secret, events: seq<Record>) returns (r: Result<seq<Record>, ChainError>)
    ensures r.Ok? <==> FullChain(secret, events)
    ensures r.Ok? ==> r.value == events
    ensures r.Err? && r.error.ChainFork? <==> AllVerify(secret, events) && !ForkFree(events)
    ensures r.Err? && r.error.HeadTruncated? <==>
      AllVerify(secret, events) && ForkFree(events) && !GenesisRooted(events)
  {
    var bad := MacPass(secret, events);
    if bad.Some? {
      return Err(IntegrityViolation(bad.value, events[bad.value].body.eventId));
    }
    var fork := ForkPass(events);
    if fork.Some? {
      assert !FullChain(secret, events) by {
        if FullChain(secret, events) {
          ForkFreedomIsImplied(secret, events);
        }
      }
      return Err(ChainFork(fork.value.0, fork.value.1));
    }
    if events != [] && events[0].body.prevHash != None {
      return Err(HeadTruncated(events[0].body.eventId));
    }
    var gap := LinkagePass(events);
    if gap.Some? {
      return Err(ChainGap(gap.value, events[gap.value].body.eventId, events[gap.value - 1].body.eventId));
    }
    return Ok(events);
  }

  // ---- what acceptance means ----------------------------------------------------------

  /** In a verified chain the row at index i can be followed back exactly i rows. */
  lemma {:induction false} DepthIsIndex(secret: Secret, rows: seq<Record>, i: nat)
    requires FullChain(secret, rows) && i < |rows|
    ensures Depth(rows[i].hmac) == i
  {
    assert VerifyEvent(rows[i], secret);
    if i > 0 {
      DepthIsIndex(secret, rows, i - 1);
      assert LinkedAt(rows, i);
    }
  }

  /** Genesis, MAC and linkage checks together leave the fork check nothing to find. */
  lemma ForkFreedomIsImplied(secret: Secret, rows: seq<Record>)
    requires FullChain(secret, rows)
    ensures ForkFree(rows)
  {
    forall i, j | 0 <= i < j < |rows| ensures rows[i].body.prevHash != rows[j].body.prevHash {
      DepthIsIndex(secret, rows, j - 1);
      assert LinkedAt(rows, j);
      if i > 0 {
        DepthIsIndex(secret, rows, i - 1);
        assert LinkedAt(rows, i);
      }
    }
  }

  /**
   The prefix theorem. Whatever an adversary without the key makes of the table, a list is accepted
   exactly when it is a prefix of one session's history (up to the signature columns): only the
   newest rows can go missing unnoticed.
   */
  lemma AcceptedIffPrefix(secret: Secret, log: seq<Record>, rows: seq<Record>)
    requires HonestLog(secret, log) && Unforged(secret, log, rows)
    ensures FullChain(secret, rows)
      <==> rows == [] || exists session :: IsSegment(rows, SessionRows(log, session), 0)
  {
    if rows != [] && FullChain(secret, rows) {
      DepthIsIndex(secret, rows, 0);
      LinkedListIsSegment(secret, log, rows);
      var session: Uuid := rows[0].body.sessionId;
      assert IsSegment(rows, SessionRows(log, session), 0);
      assert exists s :: IsSegment(rows, SessionRows(log, s), 0);
    }
    forall session | IsSegment(rows, SessionRows(log, session), 0) ensures FullChain(secret, rows) {
      SegmentVerifies(secret, log, rows, session, 0);
    }
  }

  /**
   A slice that starts past the head is accepted exactly when it is a contiguous stretch of one
   session's history.
   */
  lemma WindowAcceptedIffSegment(secret: Secret, log: seq<Record>, rows: seq<Record>)
    requires HonestLog(secret, log) && Unforged(secret, log, rows)
    ensures AllVerify(secret, rows) && Linked(rows)
      <==> rows == [] || exists session, from :: IsSegment(rows, SessionRows(log, session), from)
  {
    if rows != [] && AllVerify(secret, rows) && Linked(rows) {
      LinkedListIsSegment(secret, log, rows);
      var session: Uuid, from: nat := rows[0].body.sessionId, Depth(rows[0].hmac);
      assert IsSegment(rows, SessionRows(log, session), from);
      assert exists s, k :: IsSegment(rows, SessionRows(log, s), k);
    }
    forall session, from | IsSegment(rows, SessionRows(log, session), from)
      ensures AllVerify(secret, rows) && Linked(rows)
    {
      SegmentVerifies(secret, log, rows, session, from);
    }
  }

  /** No false alarm: every window of an untouched session passes the checks `verify_chain` makes. */
  lemma HonestWindowPasses(secret: Secret, log: seq<Record>, session: Uuid, fromSeq: Option<int>, toSeq: Option<int>)
    requires HonestLog(secret, log)
    ensures var window := Window(SessionRows(log, session), fromSeq, toSeq);
            && (WindowStart(fromSeq) == 0 ==> GenesisRooted(window))
            && AllVerify(secret, window) && Linked(window)
  {
    var events := SessionRows(log, session);
    var window := Window(events, fromSeq, toSeq);
    var from: nat := if window == [] then 0 else SliceIndex(WindowStart(fromSeq), |events|);
    assert IsSegment(window, events, from);
    SegmentVerifies(secret, log, window, session, from);
  }

  /** A non-empty stretch belongs to one session only, at one place only. */
  lemma SegmentIsUnique(secret: Secret, log: seq<Record>, rows: seq<Record>,
                        s: Uuid, from: nat, s': Uuid, from': nat)
    requires HonestLog(secret, log) && rows != []
    requires IsSegment(rows, SessionRows(log, s), from) && IsSegment(rows, SessionRows(log, s'), from')
    ensures s == s' && from == from'
  {
    SegmentVerifies(secret, log, rows, s, from);
    SegmentVerifies(secret, log, rows, s', from');
  }

  /** The verifiers cannot see the signature columns: any change confined to them is accepted. */
  lemma SignatureColumnsAreNotChecked(secret: Secret, rows: seq<Record>, rows': seq<Record>)
    requires IsSegment(rows', rows, 0) && |rows'| == |rows|
    ensures FullChain(secret, rows') <==> FullChain(secret, rows)
  {
    forall i | 0 <= i < |rows| ensures SameSigned(rows'[i], rows[i]) {
      assert SameSigned(rows'[i], rows[0 + i]);
    }
    forall i | 1 <= i < |rows| ensures LinkedAt(rows', i) == LinkedAt(rows, i) {
      assert SameSigned(rows'[i - 1], rows[i - 1]);
    }
    assert forall i | 0 <= i < |rows| :: VerifyEvent(rows'[i], secret) == VerifyEvent(rows[i], secret);
  }
}
