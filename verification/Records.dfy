/**
 Stored audit rows and their MACs.

 A MAC is a free constructor over the key and the whole payload, so two MACs are equal only
 when key and payload are equal, and a payload strictly contains the MAC it links back to.
 `Text` stands for every other string that can be written into a hash column.
 */
module Records {
  import opened Wrappers

  type Uuid = nat
  type Secret = string
  type Timestamp = int

  datatype Digest =
    | Mac(key: Secret, body: Body)
    | Text(text: string)

  /** The fields that `compute_event_hmac` serialises. */
  datatype Body = Body(
    eventId: Uuid,
    sessionId: Uuid,
    agentId: string,
    parentEventId: Option<Uuid>,
    kind: string,
    model: Option<string>,
    inputHash: Option<string>,
    outputHash: Option<string>,
    metadata: string,
    prevHash: Option<Digest>,
    createdAt: Timestamp)

  /** The Ed25519 columns: stored with the row, not covered by the MAC. */
  datatype Signature = Signature(bytes: Option<string>, fingerprint: Option<string>, status: string)

  const UNSIGNED := Signature(None, None, "unsigned")

  datatype Record = Record(body: Body, hmac: Digest, signature: Signature)

  function ComputeEventHmac(secret: Secret, body: Body): Digest {
    Mac(secret, body)
  }

  predicate VerifyEvent(record: Record, secret: Secret) {
    record.hmac == ComputeEventHmac(secret, record.body)
  }

  /** The builder handed to a store: MAC the event together with the hash the store supplies. */
  function BuildRecord(secret: Secret, event: Body, signature: Signature, prevHash: Option<Digest>): Record {
    var body := event.(prevHash := prevHash);
    Record(body, ComputeEventHmac(secret, body), signature)
  }

  /** How many rows a digest can be followed back through `prevHash`. */
  function Depth(digest: Digest): nat {
    match digest
    case Text(_) => 0
    case Mac(_, body) =>
      match body.prevHash
      case None => 0
      case Some(prev) => 1 + Depth(prev)
  }

  /** Equal in everything a MAC covers, and in the MAC. */
  predicate SameSigned(a: Record, b: Record) {
    a.body == b.body && a.hmac == b.hmac
  }
}
