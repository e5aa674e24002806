/**
 The audit table and the key registry under appends and rotations.

 A rotation is one transaction: it inserts the marker, registers the incoming key from the next
 sequence number on, and retires the outgoing one there. Writers switch key at the marker.
 */
module ChainDatabase {
  import opened Wrappers
  import opened Records
  import opened Ledger
  import opened KeyRotation
  import opened SessionLinkage

  datatype RotationError = SameKey | OutgoingNotActive | IncomingAlreadyRegistered

  function LastRowHmac(rows: seq<ChainVerifyRow>): Option<Digest> {
    if rows == [] then None else Some(rows[|rows| - 1].record.hmac)
  }

  function Log(rows: seq<ChainVerifyRow>): (records: seq<Record>)
    ensures |records| == |rows|
  {
    seq(|rows|, i requires 0 <= i < |rows| => rows[i].record)
  }

  /** The newest hash of a session, markers included. */
  function SessionHead(rows: seq<ChainVerifyRow>, session: Uuid): Option<Digest> {
    LastHmac(SessionRows(Log(rows), session))
  }

  // ---- what every run keeps -----------------------------------------------------------

  /** The key versions are consecutive windows; only the last is open, and it is the writers' key. */
  ghost predicate WindowsChain(keys: seq<KeyVersion>, current: Secret) {
    && keys != []
    && keys[|keys| - 1].fingerprint == FingerprintKey(current)
    && keys[|keys| - 1].retiredAt == None
    && (forall i | 0 <= i < |keys| :: keys[i].fingerprint.FingerprintOf?)
    && (forall i, j | 0 <= i < j < |keys| :: keys[i].fingerprint != keys[j].fingerprint)
    && (forall i | 0 <= i < |keys| - 1 :: HandsOver(keys, i))
  }

  /** Window i ends where window i + 1 begins. */
  ghost predicate HandsOver(keys: seq<KeyVersion>, i: nat)
    requires i + 1 < |keys|
  {
    && keys[i].activatedAt < keys[i + 1].activatedAt
    && keys[i].retiredAt == Some(keys[i + 1].activatedAt)
  }

  /** A row carries the MAC of the key whose window it falls in; a marker closes that window. */
  ghost predicate RowSound(row: ChainVerifyRow, keys: seq<KeyVersion>, k: nat) {
    && k < |keys| && Covers(keys[k], row.chainSeq) && keys[k].fingerprint.FingerprintOf?
    && VerifyEvent(row.record, keys[k].fingerprint.key)
    && (row.hmacNext.Some? ==>
         && k + 1 < |keys| && keys[k + 1].activatedAt == row.chainSeq + 1
         && keys[k + 1].fingerprint.FingerprintOf?
         && MarkerBody(row.record) == row.record.body
         && row.hmacNext.value == ComputeEventHmac(keys[k + 1].fingerprint.key, row.record.body))
  }

  ghost predicate SoundSomewhere(row: ChainVerifyRow, keys: seq<KeyVersion>) {
    exists k: nat :: RowSound(row, keys, k)
  }

  ghost predicate RowsSound(rows: seq<ChainVerifyRow>, keys: seq<KeyVersion>, nextSeq: int) {
    && (forall i | 0 <= i < |rows| :: rows[i].chainSeq < nextSeq)
    && (forall i | 0 <= i < |rows| :: SoundSomewhere(rows[i], keys))
  }

  // ---- the database -------------------------------------------------------------------

  class AuditDatabase {
    var rows: seq<ChainVerifyRow>
    var keys: seq<KeyVersion>
    var nextSeq: int
    var nextVersion: nat
    /** The key the running writers MAC under. */
    var current: Secret

    ghost predicate Valid()
      reads this
    {
      && WindowsChain(keys, current)
      && keys[0].activatedAt <= 1
      && keys[|keys| - 1].activatedAt <= nextSeq
      && RowsSound(rows, keys, nextSeq)
    }

    /** `chain_seq` counts from 1; the bootstrap key must be active from there. */
    constructor (bootstrapKey: Secret, activatedAt: int)
      requires activatedAt <= 1
      ensures Valid()
      ensures rows == [] && nextSeq == 1 && current == bootstrapKey
      ensures keys == [KeyVersion(1, FingerprintKey(bootstrapKey), activatedAt, None)]
    {
      rows, nextSeq, nextVersion, current := [], 1, 2, bootstrapKey;
      keys := [KeyVersion(1, FingerprintKey(bootstrapKey), activatedAt, None)];
    }

    /** An ordinary insert, linked to its session's newest row; `skipped` sequence numbers were lost to rollbacks. */
    method Append(event: Body, signature: Signature, skipped: nat)
      requires Valid()
      modifies this
      ensures Valid()
      ensures rows == old(rows) + [ChainVerifyRow(old(nextSeq) + skipped,
                                     BuildRecord(old(current), event, signature, SessionHead(old(rows), event.sessionId)), None)]
      ensures nextSeq == old(nextSeq) + skipped + 1
      ensures keys == old(keys) && current == old(current)
    {
      var row := ChainVerifyRow(nextSeq + skipped, BuildRecord(current, event, signature, SessionHead(rows, event.sessionId)), None);
      AppendKeepsRows(rows, keys, nextSeq, |keys| - 1, row);
      rows, nextSeq := rows + [row], nextSeq + skipped + 1;
    }

    /** The newest unretired version with the fingerprint. */
    method FindUnretired(fingerprint: Fingerprint) returns (at: Option<nat>)
      ensures at.Some? ==>
        && at.value < |keys| && keys[at.value].fingerprint == fingerprint && keys[at.value].retiredAt == None
      ensures at == None ==>
        forall i | 0 <= i < |keys| :: keys[i].fingerprint != fingerprint || keys[i].retiredAt.Some?
    {
      at := None;
      for i := 0 to |keys|
        invariant at.Some? ==>
          && at.value < i && keys[at.value].fingerprint == fingerprint && keys[at.value].retiredAt == None
        invariant at == None ==>
          forall j | 0 <= j < i :: keys[j].fingerprint != fingerprint || keys[j].retiredAt.Some?
      {
        if keys[i].fingerprint == fingerprint && keys[i].retiredAt == None
           && (at == None || keys[at.value].keyVersion < keys[i].keyVersion) {
          at := Some(i);
        }
      }
    }

    method RotateChainKey(outgoing: Secret, incoming: Secret, event: Body) returns (r: Result<int, RotationError>)
      requires Valid()
      modifies this
      ensures Valid()
      ensures r.Err? ==> rows == old(rows) && keys == old(keys) && current == old(current)
      ensures r.Err? ==> nextSeq == old(nextSeq) + (if r.error.IncomingAlreadyRegistered? then 1 else 0)
      ensures r.Err? && r.error.SameKey? <==> outgoing == incoming
      ensures r.Err? && r.error.OutgoingNotActive? <==> outgoing != incoming && outgoing != old(current)
      ensures r.Err? && r.error.IncomingAlreadyRegistered? <==>
        && outgoing != incoming && outgoing == old(current)
        && exists i | 0 <= i < |old(keys)| :: old(keys)[i].fingerprint == FingerprintKey(incoming)
      ensures r.Ok? ==>
        && r.value == old(nextSeq) && nextSeq == old(nextSeq) + 1 && current == incoming
        && |rows| == |old(rows)| + 1 && rows[..|old(rows)|] == old(rows)
        && keys == HandOver(old(keys), KeyVersion(old(nextVersion), FingerprintKey(incoming), r.value + 1, None))
        && var marker := rows[|rows| - 1];
           && marker.chainSeq == r.value && IsMarker(marker)
           && marker.record.body == event.(kind := KEY_ROTATION_KIND, model := None, inputHash := None,
                outputHash := None, parentEventId := None, prevHash := LastRowHmac(old(rows)))
           && marker.record.hmac == Mac(outgoing, marker.record.body)
           && marker.hmacNext == Some(Mac(incoming, marker.record.body))
    {
      hide RowsSound;
      hide LastRowHmac;
      if outgoing == incoming {
        return Err(SameKey);
      }
      var at := FindUnretired(FingerprintKey(outgoing));
      assert at == None <==> outgoing != current by {
        if at.Some? {
          OnlyTheLastIsUnretired(keys, current, at.value);
        }
      }
      if at == None {
        return Err(OutgoingNotActive);
      }
      // The unique constraint on the fingerprint column rolls the whole transaction back, after the marker
      // and the key version have drawn their numbers.
      if exists i | 0 <= i < |keys| :: keys[i].fingerprint == FingerprintKey(incoming) {
        LaterKeepsRows(rows, keys, nextSeq);
        nextSeq, nextVersion := nextSeq + 1, nextVersion + 1;
        return Err(IncomingAlreadyRegistered);
      }
      var body := event.(kind := KEY_ROTATION_KIND, model := None, inputHash := None, outputHash := None,
                         parentEventId := None, prevHash := LastRowHmac(rows));
      var marker := ChainVerifyRow(nextSeq, Record(body, ComputeEventHmac(outgoing, body), UNSIGNED),
                                   Some(ComputeEventHmac(incoming, body)));
      var next := KeyVersion(nextVersion, FingerprintKey(incoming), nextSeq + 1, None);
      OnlyTheLastIsUnretired(keys, current, at.value);
      RotationKeepsWindows(keys, current, next);
      RotationKeepsRows(rows, keys, next, marker);
      rows := rows + [marker];
      keys := keys + [next];
      keys := keys[at.value := keys[at.value].(retiredAt := Some(marker.chainSeq + 1))];
      assert keys == HandOver(old(keys), next);
      nextSeq, nextVersion, current := nextSeq + 1, nextVersion + 1, incoming;
      return Ok(marker.chainSeq);
    }

    /** Verifying what any run left behind: never a false alarm, and "ok" as soon as the keys resolve. */
    method Verify(ring: KeyRing) returns (result: VerifyResult)
      requires Valid()
      ensures !result.status.StatusFailed? && result.failed == 0
      ensures result.status.StatusOk? <==> forall i | 0 <= i < |rows| :: KeysResolvable(rows[i], keys, ring)
      ensures (forall k | 0 <= k < |keys| :: ResolveKey(keys[k].fingerprint, ring).Some?) ==>
        result.status.StatusOk? && result.verified == |rows| && result.unresolved == {}
    {
      hide RowMatches;
      hide KeysResolvable;
      result := VerifyChainWithRotation(rows, keys, ring);
      forall i | 0 <= i < |rows|
        ensures RowMatches(rows[i], keys)
        ensures (forall k | 0 <= k < |keys| :: ResolveKey(keys[k].fingerprint, ring).Some?) ==> KeysResolvable(rows[i], keys, ring)
      {
        EveryRunVerifies(rows, keys, nextSeq, current, ring, i);
      }
    }
  }

  /** The registry after a rotation: the last window closes where the new one opens. */
  function HandOver(keys: seq<KeyVersion>, next: KeyVersion): seq<KeyVersion>
    requires keys != []
  {
    keys[..|keys| - 1] + [keys[|keys| - 1].(retiredAt := Some(next.activatedAt)), next]
  }

  lemma RotationKeepsWindows(keys: seq<KeyVersion>, current: Secret, next: KeyVersion)
    requires WindowsChain(keys, current) && next.fingerprint.FingerprintOf? && next.retiredAt == None
    requires keys[|keys| - 1].activatedAt < next.activatedAt
    requires forall i | 0 <= i < |keys| :: keys[i].fingerprint != next.fingerprint
    ensures WindowsChain(HandOver(keys, next), next.fingerprint.key)
  {
    var keys' := HandOver(keys, next);
    forall i | 0 <= i < |keys'| - 1 ensures HandsOver(keys', i) {
      assert i < |keys| - 1 ==> HandsOver(keys, i);
    }
  }

  lemma LaterKeepsRows(rows: seq<ChainVerifyRow>, keys: seq<KeyVersion>, nextSeq: int)
    requires RowsSound(rows, keys, nextSeq)
    ensures RowsSound(rows, keys, nextSeq + 1)
  {
  }

  lemma AppendKeepsRows(rows: seq<ChainVerifyRow>, keys: seq<KeyVersion>, nextSeq: int,
                        at: nat, row: ChainVerifyRow)
    requires RowsSound(rows, keys, nextSeq) && nextSeq <= row.chainSeq
    requires RowSound(row, keys, at)
    ensures RowsSound(rows + [row], keys, row.chainSeq + 1)
  {
    var rows' := rows + [row];
    forall i | 0 <= i < |rows'| ensures SoundSomewhere(rows'[i], keys) {
      assert if i < |rows| then SoundSomewhere(rows[i], keys) else RowSound(rows'[i], keys, at);
    }
  }

  /** Retiring the last key at the end of its window takes no row away from it. */
  lemma RotationKeepsRows(rows: seq<ChainVerifyRow>, keys: seq<KeyVersion>, next: KeyVersion, marker: ChainVerifyRow)
    requires keys != [] && RowsSound(rows, keys, marker.chainSeq)
    requires next.activatedAt == marker.chainSeq + 1
    requires RowSound(marker, HandOver(keys, next), |keys| - 1)
    ensures RowsSound(rows + [marker], HandOver(keys, next), marker.chainSeq + 1)
  {
    var keys' := HandOver(keys, next);
    forall i | 0 <= i < |rows| ensures SoundSomewhere(rows[i], keys') {
      assert SoundSomewhere(rows[i], keys);
      var k: nat :| RowSound(rows[i], keys, k);
      assert RowSound(rows[i], keys', k);
    }
    AppendKeepsRows(rows, keys', marker.chainSeq, |keys| - 1, marker);
  }

  // ---- what the registry means --------------------------------------------------------

  /** Exactly one key version is unretired: the writers'. */
  lemma OnlyTheLastIsUnretired(keys: seq<KeyVersion>, current: Secret, i: nat)
    requires WindowsChain(keys, current) && i < |keys|
    ensures keys[i].retiredAt == None <==> i == |keys| - 1
    ensures keys[i].fingerprint == FingerprintKey(current) <==> i == |keys| - 1
  {
    assert i < |keys| - 1 ==> HandsOver(keys, i);
  }

  lemma {:induction false} WindowsAreOrdered(keys: seq<KeyVersion>, current: Secret, i: nat, j: nat)
    requires WindowsChain(keys, current) && i < j < |keys|
    ensures keys[i].activatedAt < keys[j].activatedAt
    ensures keys[i].retiredAt.Some? && keys[i].retiredAt.value <= keys[j].activatedAt
  {
    assert HandsOver(keys, i) && HandsOver(keys, j - 1);
    if i < j - 1 {
      WindowsAreOrdered(keys, current, i, j - 1);
    }
  }

  lemma CoverIsUnique(keys: seq<KeyVersion>, current: Secret, chainSeq: int, j: nat, k: nat)
    requires WindowsChain(keys, current) && j < |keys| && k < |keys|
    requires Covers(keys[j], chainSeq) && Covers(keys[k], chainSeq)
    ensures j == k
  {
    if j < k {
      WindowsAreOrdered(keys, current, j, k);
    } else if k < j {
      WindowsAreOrdered(keys, current, k, j);
    }
  }

  /** The windows partition the sequence numbers from the first activation on. */
  lemma WindowsPartition(keys: seq<KeyVersion>, current: Secret, chainSeq: int) returns (k: nat)
    requires WindowsChain(keys, current) && keys[0].activatedAt <= chainSeq
    ensures k < |keys| && Covers(keys[k], chainSeq)
    ensures forall j | 0 <= j < |keys| && Covers(keys[j], chainSeq) :: j == k
  {
    k := 0;
    while k + 1 < |keys| && keys[k + 1].activatedAt <= chainSeq
      invariant k < |keys| && keys[k].activatedAt <= chainSeq
    {
      k := k + 1;
    }
    assert k + 1 < |keys| ==> HandsOver(keys, k);
    forall j | 0 <= j < |keys| && Covers(keys[j], chainSeq) ensures j == k {
      CoverIsUnique(keys, current, chainSeq, j, k);
    }
  }

  /** The lookup finds the version whose window holds the row, even across back-to-back rotations. */
  lemma LookupFindsWindow(keys: seq<KeyVersion>, current: Secret, chainSeq: int, k: nat)
    requires WindowsChain(keys, current) && k < |keys| && Covers(keys[k], chainSeq)
    ensures FindActiveKeyAtSeq(chainSeq, keys) == Some(keys[k])
  {
    SelectionIsLatest(chainSeq, keys);
    assert keys[k] in keys;
    var active := FindActiveKeyAtSeq(chainSeq, keys).value;
    var j: nat :| j < |keys| && keys[j] == active;
    CoverIsUnique(keys, current, chainSeq, j, k);
  }

  /** From the sequence number after a marker on, the lookup finds the incoming key. */
  lemma MarkerLookup(row: ChainVerifyRow, keys: seq<KeyVersion>, current: Secret, k: nat)
    requires WindowsChain(keys, current) && RowSound(row, keys, k) && IsMarker(row)
    ensures FindActiveKeyAtSeq(row.chainSeq + 1, keys) == Some(keys[k + 1])
    ensures keys[k].fingerprint != keys[k + 1].fingerprint
  {
    if k + 2 < |keys| {
      assert HandsOver(keys, k + 1);
    }
    LookupFindsWindow(keys, current, row.chainSeq + 1, k + 1);
  }

  lemma OrdinaryRowMatches(row: ChainVerifyRow, keys: seq<KeyVersion>, current: Secret, k: nat)
    requires WindowsChain(keys, current) && RowSound(row, keys, k) && !IsMarker(row)
    ensures RowMatches(row, keys)
  {
    LookupFindsWindow(keys, current, row.chainSeq, k);
    var key := keys[k].fingerprint.key;
    assert WrittenUnder(row.chainSeq, keys, key) && MacsMatch(row, keys, key);
  }

  lemma MarkerRowMatches(row: ChainVerifyRow, keys: seq<KeyVersion>, current: Secret, k: nat)
    requires WindowsChain(keys, current) && RowSound(row, keys, k) && IsMarker(row)
    ensures RowMatches(row, keys)
  {
    LookupFindsWindow(keys, current, row.chainSeq, k);
    MarkerLookup(row, keys, current, k);
    var key, incoming := keys[k].fingerprint.key, keys[k + 1].fingerprint.key;
    assert CarriesBothMacs(row, key, incoming);
    assert WrittenUnder(row.chainSeq + 1, keys, incoming);
    assert WrittenUnder(row.chainSeq, keys, key) && MacsMatch(row, keys, key);
  }

  /**
   Every row of every run matches the registry: an ordinary row the key of its window, a marker at N
   the outgoing key, and the incoming key that the lookup finds from N + 1 on.
   */
  lemma SoundRowMatches(row: ChainVerifyRow, keys: seq<KeyVersion>, current: Secret, k: nat)
    requires WindowsChain(keys, current) && RowSound(row, keys, k)
    ensures RowMatches(row, keys)
    ensures FindActiveKeyAtSeq(row.chainSeq, keys) == Some(keys[k])
    ensures IsMarker(row) ==> k + 1 < |keys| && FindActiveKeyAtSeq(row.chainSeq + 1, keys) == Some(keys[k + 1])
  {
    LookupFindsWindow(keys, current, row.chainSeq, k);
    if IsMarker(row) {
      MarkerLookup(row, keys, current, k);
      MarkerRowMatches(row, keys, current, k);
    } else {
      OrdinaryRowMatches(row, keys, current, k);
    }
  }

  /** Each row of any run matches the registry, and can be checked once every registered key resolves. */
  lemma EveryRunVerifies(rows: seq<ChainVerifyRow>, keys: seq<KeyVersion>, nextSeq: int, current: Secret,
                         ring: KeyRing, i: nat)
    requires WindowsChain(keys, current) && RowsSound(rows, keys, nextSeq) && i < |rows|
    ensures RowMatches(rows[i], keys)
    ensures (forall k | 0 <= k < |keys| :: ResolveKey(keys[k].fingerprint, ring).Some?) ==> KeysResolvable(rows[i], keys, ring)
  {
    assert SoundSomewhere(rows[i], keys);
    var k: nat :| RowSound(rows[i], keys, k);
    SoundRowMatches(rows[i], keys, current, k);
  }

  /** A writer's row matches the registry exactly if it was written under the newest registered key. */
  lemma WriterMatchesIff(keys: seq<KeyVersion>, current: Secret, chainSeq: int, record: Record, secret: Secret)
    requires WindowsChain(keys, current) && keys[|keys| - 1].activatedAt <= chainSeq && VerifyEvent(record, secret)
    ensures RowMatches(ChainVerifyRow(chainSeq, record, None), keys) <==> secret == current
  {
    var row := ChainVerifyRow(chainSeq, record, None);
    LookupFindsWindow(keys, current, chainSeq, |keys| - 1);
    assert WrittenUnder(chainSeq, keys, current);
    if secret == current {
      assert MacsMatch(row, keys, current);
    }
  }

  // ---- what a marker does to per-session linkage --------------------------------------

  /**
   A marker links to the globally last row. Appending it keeps per-session linkage exactly when that
   row is also the last of the marker's own session.
   */
  lemma MarkerKeepsLinkageIff(log: seq<Record>, marker: Record)
    requires PerSessionLinked(log, true)
    requires marker.body.prevHash == LastHmac(log)
    ensures PerSessionLinked(log + [marker], true)
      <==> LastHmac(log) == LastHmac(SessionRows(log, marker.body.sessionId))
  {
    var session := marker.body.sessionId;
    forall s ensures SessionPasses(log + [marker], s, true) <==>
      (s == session ==> LastHmac(log) == LastHmac(SessionRows(log, session)))
    {
      assert SessionPasses(log, s, true);
      MarkedSessionPassesIff(log, marker, s);
    }
    assert PerSessionLinked(log + [marker], true) ==> SessionPasses(log + [marker], session, true);
  }

  /** Only the marker's own session can break. */
  lemma MarkedSessionPassesIff(log: seq<Record>, marker: Record, s: Uuid)
    requires SessionPasses(log, s, true) && marker.body.prevHash == LastHmac(log)
    ensures SessionPasses(log + [marker], s, true) <==>
      (s == marker.body.sessionId ==> LastHmac(log) == LastHmac(SessionRows(log, s)))
  {
    SessionRowsAppend(log, [marker], s);
    SessionOfOne(marker, s);
    hide SessionRows;
    var rows := SessionRows(log, s);
    if s == marker.body.sessionId {
      LinkedBehind(rows, marker);
    } else {
      assert rows + [] == rows;
    }
  }

  lemma SessionOfOne(r: Record, s: Uuid)
    ensures SessionRows([r], s) == if r.body.sessionId == s then [r] else []
  {
    assert [r][..0] == [];
  }

  lemma LinkedBehind(rows: seq<Record>, r: Record)
    requires Linked(rows)
    ensures Linked(rows + [r]) <==> rows == [] || r.body.prevHash == LastHmac(rows)
  {
    forall i | 1 <= i < |rows| ensures LinkedAt(rows + [r], i) {
      assert LinkedAt(rows, i);
    }
    assert rows != [] ==> (LinkedAt(rows + [r], |rows|) <==> r.body.prevHash == LastHmac(rows));
  }

  /**
   So on an honest log the report's per-session check survives the first rotation exactly when the
   marker is logged in the session that wrote last (or first of all): by default it is logged in a
   session of its own, and the check then fails.
   */
  lemma FirstMarkerKeepsLinkageIff(secret: Secret, log: seq<Record>, marker: Record)
    requires HonestLog(secret, log)
    requires marker.body.prevHash == LastHmac(log)
    ensures PerSessionLinked(log + [marker], true)
      <==> log == [] || log[|log| - 1].body.sessionId == marker.body.sessionId
  {
    HonestWindowsPass(secret, log, 0, |log|);
    assert log[0..|log|] == log;
    MarkerKeepsLinkageIff(log, marker);
    var rows := SessionRows(log, marker.body.sessionId);
    if log != [] && rows != [] {
      SessionRowsBelong(log, marker.body.sessionId, rows[|rows| - 1]);
      HonestRowVerifies(secret, log, rows[|rows| - 1]);
      HonestRowVerifies(secret, log, log[|log| - 1]);
    }
  }

  /** One row, and a marker behind it in a session of its own: the report's check fails. */
  lemma OwnSessionMarkerBreaksLinkage(secret: Secret, row: Record, marker: Record)
    requires VerifyEvent(row, secret) && row.body.prevHash == None
    requires marker.body.sessionId != row.body.sessionId && marker.body.prevHash == Some(row.hmac)
    ensures HonestLog(secret, [row]) && !PerSessionLinked([row, marker], true)
  {
    SessionOfOne(row, row.body.sessionId);
    assert [row][..0] == [] && [row] + [marker] == [row, marker];
    assert SessionRows([], row.body.sessionId) == [];
    FirstMarkerKeepsLinkageIff(secret, [row], marker);
  }
}
