/**
 Chain key rotation: the key registry, the rotation transaction, and the verifier that walks a log
 spanning several keys.
 */
module KeyRotation {
  import opened Wrappers
  import opened Records

  const KEY_ROTATION_KIND := "audit.chain_key_rotation"

  /** The salted fingerprint of a key; `Foreign` is any other text in the column. */
  datatype Fingerprint = FingerprintOf(key: Secret) | Foreign(text: string)

  function FingerprintKey(key: Secret): Fingerprint {
    FingerprintOf(key)
  }

  datatype KeyVersion = KeyVersion(
    keyVersion: nat,
    fingerprint: Fingerprint,
    activatedAt: int,
    retiredAt: Option<int>)

  datatype ChainVerifyRow = ChainVerifyRow(chainSeq: int, record: Record, hmacNext: Option<Digest>)

  // ---- key lookup ---------------------------------------------------------------------

  predicate Covers(version: KeyVersion, chainSeq: int) {
    version.activatedAt <= chainSeq && (version.retiredAt == None || version.retiredAt.value > chainSeq)
  }

  /** The covering version with the latest activation; the first such version on a tie. */
  function FindActiveKeyAtSeq(chainSeq: int, versions: seq<KeyVersion>): Option<KeyVersion> {
    if versions == [] then None
    else
      var later := FindActiveKeyAtSeq(chainSeq, versions[1..]);
      if !Covers(versions[0], chainSeq) then later
      else if later == None || later.value.activatedAt <= versions[0].activatedAt then Some(versions[0])
      else later
  }

  lemma {:induction false} SelectionIsLatest(chainSeq: int, versions: seq<KeyVersion>)
    ensures var active := FindActiveKeyAtSeq(chainSeq, versions);
            && (active == None <==> forall v | v in versions :: !Covers(v, chainSeq))
            && (active.Some? ==> active.value in versions && Covers(active.value, chainSeq))
            && (forall v | v in versions && Covers(v, chainSeq) :: v.activatedAt <= active.value.activatedAt)
  {
    if versions != [] {
      SelectionIsLatest(chainSeq, versions[1..]);
      assert versions == [versions[0]] + versions[1..];
    }
  }

  function InsertByActivation(version: KeyVersion, versions: seq<KeyVersion>): seq<KeyVersion> {
    if versions == [] || version.activatedAt <= versions[0].activatedAt then [version] + versions
    else [versions[0]] + InsertByActivation(version, versions[1..])
  }

  /** The stable sort by activation that the verifier applies first. */
  function SortByActivation(versions: seq<KeyVersion>): seq<KeyVersion> {
    if versions == [] then [] else InsertByActivation(versions[0], SortByActivation(versions[1..]))
  }

  lemma {:induction false} InsertKeepsSelection(chainSeq: int, version: KeyVersion, versions: seq<KeyVersion>)
    ensures FindActiveKeyAtSeq(chainSeq, InsertByActivation(version, versions))
         == FindActiveKeyAtSeq(chainSeq, [version] + versions)
  {
    assert ([version] + versions)[1..] == versions;
    if versions != [] && version.activatedAt > versions[0].activatedAt {
      var rest := InsertByActivation(version, versions[1..]);
      InsertKeepsSelection(chainSeq, version, versions[1..]);
      assert ([versions[0]] + rest)[1..] == rest;
      assert ([version] + versions[1..])[1..] == versions[1..];
    }
  }

  /** Sorting first does not change which key is selected, whatever the table holds. */
  lemma {:induction false} SortKeepsSelection(chainSeq: int, versions: seq<KeyVersion>)
    ensures FindActiveKeyAtSeq(chainSeq, SortByActivation(versions)) == FindActiveKeyAtSeq(chainSeq, versions)
  {
    if versions != [] {
      SortKeepsSelection(chainSeq, versions[1..]);
      InsertKeepsSelection(chainSeq, versions[0], SortByActivation(versions[1..]));
      var sorted := SortByActivation(versions[1..]);
      assert ([versions[0]] + sorted)[1..] == sorted;
    }
  }

  /** What the URIs an operator configured point at; a URI that is missing or empty resolves to nothing. */
  datatype KeyRing = KeyRing(uris: map<Fingerprint, string>, material: map<string, Secret>)

  /** Resolve a fingerprint, refusing material whose own fingerprint differs. */
  function ResolveKey(fingerprint: Fingerprint, ring: KeyRing): (key: Option<Secret>)
    ensures key.Some? ==> fingerprint == FingerprintKey(key.value)
  {
    if fingerprint !in ring.uris || ring.uris[fingerprint] == "" then None
    else if ring.uris[fingerprint] !in ring.material then None
    else
      var material := ring.material[ring.uris[fingerprint]];
      if FingerprintKey(material) != fingerprint then None else Some(material)
  }

  // ---- the rotation-aware verifier ----------------------------------------------------

  /** The payload both marker MACs cover: the marker's own columns, with the unused ones empty. */
  function MarkerBody(record: Record): Body {
    record.body.(kind := KEY_ROTATION_KIND, model := None, inputHash := None, outputHash := None)
  }

  predicate VerifyRotationMarker(record: Record, hmacNext: Digest, outgoing: Secret, incoming: Secret) {
    && record.hmac == ComputeEventHmac(outgoing, MarkerBody(record))
    && hmacNext == ComputeEventHmac(incoming, MarkerBody(record))
  }

  predicate IsMarker(row: ChainVerifyRow) {
    row.record.body.kind == KEY_ROTATION_KIND && row.hmacNext.Some?
  }

  datatype Unresolved = NoKeyVersionForSeq | NoIncomingKeyForMarker | Missing(fingerprint: Fingerprint)

  datatype Status = StatusOk | StatusFailed | StatusUnverified

  datatype VerifyResult = VerifyResult(
    verified: nat, failed: nat, unverified: nat, status: Status, unresolved: set<Unresolved>)

  /** The key a row must be MACed under, by the registry alone. */
  ghost predicate WrittenUnder(chainSeq: int, versions: seq<KeyVersion>, key: Secret) {
    var active := FindActiveKeyAtSeq(chainSeq, versions);
    active.Some? && active.value.fingerprint == FingerprintKey(key)
  }

  /** What an accepted row is: MACed by its window's key, and a marker by the next window's key too. */
  ghost predicate RowMatches(row: ChainVerifyRow, versions: seq<KeyVersion>) {
    exists key :: WrittenUnder(row.chainSeq, versions, key) && MacsMatch(row, versions, key)
  }

  ghost predicate MacsMatch(row: ChainVerifyRow, versions: seq<KeyVersion>, key: Secret) {
    if row.record.body.kind == KEY_ROTATION_KIND && row.hmacNext.Some? then
      exists incoming :: WrittenUnder(row.chainSeq + 1, versions, incoming) && CarriesBothMacs(row, key, incoming)
    else row.record.hmac == Mac(key, row.record.body)
  }

  /** The row's own MAC is the outgoing key's and `hmac_next` the incoming key's, over the same columns. */
  predicate CarriesBothMacs(row: ChainVerifyRow, outgoing: Secret, incoming: Secret) {
    var signed := row.record.body.(model := None, inputHash := None, outputHash := None);
    outgoing != incoming && row.record.hmac == Mac(outgoing, signed) && row.hmacNext == Some(Mac(incoming, signed))
  }

  /** Every key the row's check needs can be resolved. */
  ghost predicate KeysResolvable(row: ChainVerifyRow, versions: seq<KeyVersion>, ring: KeyRing) {
    && KeyResolvableAt(row.chainSeq, versions, ring)
    && (IsMarker(row) ==>
         && KeyResolvableAt(row.chainSeq + 1, versions, ring)
         && FindActiveKeyAtSeq(row.chainSeq + 1, versions).value.fingerprint
              != FindActiveKeyAtSeq(row.chainSeq, versions).value.fingerprint)
  }

  ghost predicate KeyResolvableAt(chainSeq: int, versions: seq<KeyVersion>, ring: KeyRing) {
    var active := FindActiveKeyAtSeq(chainSeq, versions);
    active.Some? && ResolveKey(active.value.fingerprint, ring).Some?
  }

  datatype Outcome = RowVerified | RowFailed | RowUnverified(reason: Unresolved)

  /** One iteration of the verifier's loop. */
  function CheckRow(row: ChainVerifyRow, versions: seq<KeyVersion>, ring: KeyRing): Outcome {
    var active := FindActiveKeyAtSeq(row.chainSeq, versions);
    if active == None then RowUnverified(NoKeyVersionForSeq)
    else
      var outgoing := ResolveKey(active.value.fingerprint, ring);
      if outgoing == None then RowUnverified(Missing(active.value.fingerprint))
      else if !IsMarker(row) then (if VerifyEvent(row.record, outgoing.value) then RowVerified else RowFailed)
      else
        var next := FindActiveKeyAtSeq(row.chainSeq + 1, versions);
        if next == None || next.value.fingerprint == active.value.fingerprint
        then RowUnverified(NoIncomingKeyForMarker)
        else
          var incoming := ResolveKey(next.value.fingerprint, ring);
          if incoming == None then RowUnverified(Missing(next.value.fingerprint))
          else if VerifyRotationMarker(row.record, row.hmacNext.value, outgoing.value, incoming.value)
          then RowVerified
          else RowFailed
  }

  /**
   A row is skipped exactly when a key it needs cannot be resolved, and otherwise verified exactly
   when it is MACed under its window's key (a marker: under both keys).
   */
  lemma CheckRowMeaning(row: ChainVerifyRow, versions: seq<KeyVersion>, ring: KeyRing)
    ensures CheckRow(row, versions, ring).RowUnverified? <==> !KeysResolvable(row, versions, ring)
    ensures CheckRow(row, versions, ring).RowVerified?
       <==> KeysResolvable(row, versions, ring) && RowMatches(row, versions)
  {
    if KeysResolvable(row, versions, ring) {
      var key := ResolveKey(FindActiveKeyAtSeq(row.chainSeq, versions).value.fingerprint, ring).value;
      assert WrittenUnder(row.chainSeq, versions, key);
      if IsMarker(row) {
        var incoming := ResolveKey(FindActiveKeyAtSeq(row.chainSeq + 1, versions).value.fingerprint, ring).value;
        assert WrittenUnder(row.chainSeq + 1, versions, incoming);
        assert VerifyRotationMarker(row.record, row.hmacNext.value, key, incoming) && key != incoming
          <==> CarriesBothMacs(row, key, incoming);
      } else {
        assert VerifyEvent(row.record, key) <==> MacsMatch(row, versions, key);
      }
    }
  }

  /**
   A marker is verified exactly if its keys resolve and it carries both: the MAC of its window's key, and
   that of the different key whose window starts behind it. With the first alone it fails.
   */
  lemma MarkerVerifiedIff(row: ChainVerifyRow, versions: seq<KeyVersion>, ring: KeyRing, outgoing: Secret, incoming: Secret)
    requires IsMarker(row) && KeysResolvable(row, versions, ring)
    requires WrittenUnder(row.chainSeq, versions, outgoing) && WrittenUnder(row.chainSeq + 1, versions, incoming)
    ensures CheckRow(row, versions, ring).RowVerified? <==> CarriesBothMacs(row, outgoing, incoming)
    ensures CheckRow(row, versions, ring).RowFailed? <==> !CarriesBothMacs(row, outgoing, incoming)
  {
  }

  method VerifyChainWithRotation(rows: seq<ChainVerifyRow>, keyVersions: seq<KeyVersion>, ring: KeyRing)
    returns (result: VerifyResult)
    ensures result.verified + result.failed + result.unverified == |rows|
    ensures result.status.StatusOk? <==> result.verified == |rows|
    ensures result.status.StatusFailed? <==> result.failed > 0
    ensures result.status.StatusOk? <==>
      forall i | 0 <= i < |rows| :: KeysResolvable(rows[i], keyVersions, ring) && RowMatches(rows[i], keyVersions)
    ensures result.status.StatusFailed? <==>
      exists i | 0 <= i < |rows| :: KeysResolvable(rows[i], keyVersions, ring) && !RowMatches(rows[i], keyVersions)
    ensures result.unresolved == {} <==>
      forall i | 0 <= i < |rows| :: KeysResolvable(rows[i], keyVersions, ring)
  {
    var verified, failed, unverified := 0, 0, 0;
    var unresolved: set<Unresolved> := {};
    var sorted := SortByActivation(keyVersions);
    for i := 0 to |rows|
      invariant verified + failed + unverified == i
      invariant failed > 0 <==> exists k | 0 <= k < i :: CheckRow(rows[k], keyVersions, ring).RowFailed?
      invariant unverified > 0 <==> exists k | 0 <= k < i :: CheckRow(rows[k], keyVersions, ring).RowUnverified?
      invariant unresolved == {} <==> unverified == 0
    {
      SortKeepsSelection(rows[i].chainSeq, keyVersions);
      SortKeepsSelection(rows[i].chainSeq + 1, keyVersions);
      match CheckRow(rows[i], sorted, ring)
      case RowVerified => verified := verified + 1;
      case RowFailed => failed := failed + 1;
      case RowUnverified(reason) => unverified, unresolved := unverified + 1, unresolved + {reason};
    }
    forall i | 0 <= i < |rows|
      ensures CheckRow(rows[i], keyVersions, ring).RowUnverified? <==> !KeysResolvable(rows[i], keyVersions, ring)
      ensures CheckRow(rows[i], keyVersions, ring).RowVerified?
         <==> KeysResolvable(rows[i], keyVersions, ring) && RowMatches(rows[i], keyVersions)
    {
      CheckRowMeaning(rows[i], keyVersions, ring);
    }
    var status := if failed > 0 then StatusFailed else if unverified > 0 then StatusUnverified else StatusOk;
    return VerifyResult(verified, failed, unverified, status, unresolved);
  }
}
