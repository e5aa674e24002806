/**
 Approval tokens (`gates/tokens.py`): colon-separated text, signed, in a legacy and a key-tagged format.

 The MAC, the key fingerprint, and the texts of UUIDs and times are parameters.
 */
module Tokens {
  import opened Wrappers
  import opened Records

  const TOKEN_VERSION_V2 := "v2"
  const KEY_PREFIX_LEN := 16

  // ---- colon-separated text -----------------------------------------------------------

  predicate NoColon(s: string) {
    forall i | 0 <= i < |s| :: s[i] != ':'
  }

  function Split(s: string): (parts: seq<string>)
    ensures parts != []
  {
    if s == "" then [""]
    else
      var rest := Split(s[1..]);
      if s[0] == ':' then [""] + rest else [[s[0]] + rest[0]] + rest[1..]
  }

  function Join(parts: seq<string>): string {
    if parts == [] then "" else if |parts| == 1 then parts[0] else parts[0] + ":" + Join(parts[1..])
  }

  lemma {:induction false} JoinSplit(s: string)
    ensures Join(Split(s)) == s
  {
    if s != "" {
      JoinSplit(s[1..]);
      var rest := Split(s[1..]);
      if s[0] == ':' {
        assert ([""] + rest)[1..] == rest;
      } else {
        assert ([[s[0]] + rest[0]] + rest[1..])[1..] == rest[1..];
      }
    }
  }

  lemma {:induction false} SplitPlain(s: string)
    requires NoColon(s)
    ensures Split(s) == [s]
  {
    if s != "" {
      SplitPlain(s[1..]);
      assert [s[0]] + s[1..] == s;
      assert s[0] != ':';
    }
  }

  lemma {:induction false} SplitConcat(a: string, b: string)
    ensures Split(a + ":" + b) == Split(a) + Split(b)
  {
    var s := a + ":" + b;
    if a == "" {
      assert s[1..] == b;
    } else {
      assert s[1..] == a[1..] + ":" + b;
      SplitConcat(a[1..], b);
    }
  }

  lemma {:induction false} SplitPartsArePlain(s: string)
    ensures forall i | 0 <= i < |Split(s)| :: NoColon(Split(s)[i])
  {
    if s != "" {
      SplitPartsArePlain(s[1..]);
    }
  }

  // ---- keys ---------------------------------------------------------------------------

  /** The outside world: cryptography, text formats, and the keys mounted under a key prefix. */
  datatype World = World(
    fingerprint: Secret -> string, hmacHex: (Secret, string) -> string,
    uuidText: Uuid -> string, parseUuid: string -> Option<Uuid>,
    timeText: Timestamp -> string, parseTime: string -> Option<Timestamp>,
    mounted: map<string, Secret>)
  {
    /** Hex digests and UUIDs have no colon, a fingerprint is long enough, and texts read back. */
    ghost predicate IsSane() {
      && (forall key :: |fingerprint(key)| >= KEY_PREFIX_LEN && NoColon(fingerprint(key)))
      && (forall key, body :: NoColon(hmacHex(key, body)))
      && (forall id: Uuid :: NoColon(uuidText(id)) && uuidText(id) != TOKEN_VERSION_V2 && parseUuid(uuidText(id)) == Some(id))
      && forall t :: parseTime(timeText(t)) == Some(t)
    }

    function KeyPrefix(key: Secret): string
      requires |fingerprint(key)| >= KEY_PREFIX_LEN
    {
      fingerprint(key)[..KEY_PREFIX_LEN]
    }
  }

  function ResolveSecretForPrefix(w: World, prefix: string, current: Secret): Option<Secret>
    requires forall key :: |w.fingerprint(key)| >= KEY_PREFIX_LEN
  {
    if w.KeyPrefix(current) == prefix then Some(current)
    else if prefix !in w.mounted then None
    else if w.KeyPrefix(w.mounted[prefix]) != prefix then None
    else Some(w.mounted[prefix])
  }

  // ---- tokens -------------------------------------------------------------------------

  datatype Approval = Approval(requestId: Uuid, actionHash: string, expiresAt: Timestamp)

  datatype TokenError =
    | Malformed | MalformedKeyPrefix | HistoricalKeyUnavailable | VersionTooOld | SignatureMismatch
    | MalformedBody | BadRequestId | BadExpiration | Expired

  function Body(w: World, secret: Secret, a: Approval, useV2: bool): string
    requires |w.fingerprint(secret)| >= KEY_PREFIX_LEN
  {
    var fields := w.uuidText(a.requestId) + ":" + (a.actionHash + ":" + w.timeText(a.expiresAt));
    if useV2 then TOKEN_VERSION_V2 + ":" + (w.KeyPrefix(secret) + ":" + fields) else fields
  }

  function MakeToken(w: World, secret: Secret, a: Approval, useV2: bool): string
    requires |w.fingerprint(secret)| >= KEY_PREFIX_LEN
  {
    var body := Body(w, secret, a, useV2);
    body + ":" + w.hmacHex(secret, body)
  }

  predicate HasV2Tag(bodyParts: seq<string>) {
    |bodyParts| >= 2 && bodyParts[0] == TOKEN_VERSION_V2
  }

  /** Which key verifies a body, or why none does. */
  function VerifyKey(w: World, secret: Secret, bodyParts: seq<string>, acceptV1Until: Option<Timestamp>, now: Timestamp):
    Result<Secret, TokenError>
    requires forall key :: |w.fingerprint(key)| >= KEY_PREFIX_LEN
  {
    if HasV2Tag(bodyParts) then
      if |bodyParts[1]| != KEY_PREFIX_LEN then Err(MalformedKeyPrefix)
      else
        match ResolveSecretForPrefix(w, bodyParts[1], secret)
        case None => Err(HistoricalKeyUnavailable)
        case Some(key) => Ok(key)
    else if acceptV1Until.Some? && now > acceptV1Until.value then Err(VersionTooOld)
    else Ok(secret)
  }

  function ParseFields(w: World, bodyParts: seq<string>, start: nat, now: Timestamp): Result<Approval, TokenError> {
    if |bodyParts| < start + 3 then Err(MalformedBody)
    else
      var requestId, expiresAt := w.parseUuid(bodyParts[start]), w.parseTime(Join(bodyParts[start + 2..]));
      if requestId == None then Err(BadRequestId)
      else if expiresAt == None then Err(BadExpiration)
      else if now > expiresAt.value then Err(Expired)
      else Ok(Approval(requestId.value, bodyParts[start + 1], expiresAt.value))
  }

  function ParseToken(w: World, secret: Secret, token: string, acceptV1Until: Option<Timestamp>, now: Timestamp):
    Result<Approval, TokenError>
    requires forall key :: |w.fingerprint(key)| >= KEY_PREFIX_LEN
  {
    var parts := Split(token);
    if |parts| < 4 then Err(Malformed)
    else
      var body, mac := Join(parts[..|parts| - 1]), parts[|parts| - 1];
      var bodyParts := Split(body);
      match VerifyKey(w, secret, bodyParts, acceptV1Until, now)
      case Err(e) => Err(e)
      case Ok(key) =>
        if w.hmacHex(key, body) != mac then Err(SignatureMismatch)
        else ParseFields(w, bodyParts, if HasV2Tag(bodyParts) then 2 else 0, now)
  }

  // ---- a token taken apart ------------------------------------------------------------

  /** The parser cuts a body and its MAC where the printer joined them. */
  lemma SplitToken(body: string, mac: string)
    requires NoColon(mac)
    ensures var parts := Split(body + ":" + mac);
      parts == Split(body) + [mac] && Join(parts[..|parts| - 1]) == body
  {
    SplitConcat(body, mac);
    SplitPlain(mac);
    JoinSplit(body);
    var parts := Split(body + ":" + mac);
    assert parts[..|parts| - 1] == Split(body);
  }

  lemma SplitFields(a: string, b: string, c: string)
    requires NoColon(a)
    ensures Split(a + ":" + (b + ":" + c)) == [a] + (Split(b) + Split(c))
  {
    SplitConcat(b, c);
    SplitConcat(a, b + ":" + c);
    SplitPlain(a);
  }

  lemma SplitTwo(a: string, rest: string)
    requires NoColon(a)
    ensures Split(a + ":" + rest) == [a] + Split(rest)
  {
    SplitConcat(a, rest);
    SplitPlain(a);
  }

  lemma SplitBody(w: World, secret: Secret, a: Approval, useV2: bool)
    requires w.IsSane()
    ensures Split(Body(w, secret, a, useV2)) ==
      (if useV2 then [TOKEN_VERSION_V2, w.KeyPrefix(secret)] else [])
      + ([w.uuidText(a.requestId)] + (Split(a.actionHash) + Split(w.timeText(a.expiresAt))))
  {
    hide Split;
    var id, hash, time := w.uuidText(a.requestId), a.actionHash, w.timeText(a.expiresAt);
    SplitFields(id, hash, time);
    if useV2 {
      var prefix, fields := w.KeyPrefix(secret), id + ":" + (hash + ":" + time);
      SplitTwo(prefix, fields);
      SplitTwo(TOKEN_VERSION_V2, prefix + ":" + fields);
      assert [TOKEN_VERSION_V2] + ([prefix] + Split(fields)) == [TOKEN_VERSION_V2, prefix] + Split(fields);
    }
  }

  /** The two formats are never confused. */
  lemma FormatsDiffer(w: World, secret: Secret, a: Approval, useV2: bool)
    requires w.IsSane()
    ensures HasV2Tag(Split(Body(w, secret, a, useV2))) <==> useV2
  {
    SplitBody(w, secret, a, useV2);
  }

  /** A minted body's fields read back exactly if the action hash has no colon and the token is unexpired. */
  lemma FieldsRoundTripIff(w: World, secret: Secret, a: Approval, useV2: bool, now: Timestamp)
    requires w.IsSane()
    ensures ParseFields(w, Split(Body(w, secret, a, useV2)), if useV2 then 2 else 0, now) == Ok(a) <==>
            NoColon(a.actionHash) && now <= a.expiresAt
  {
    if NoColon(a.actionHash) {
      FieldsRoundTrip(w, secret, a, useV2, now);
    } else {
      ColonIsLost(w, secret, a, useV2);
    }
  }

  /** With a colon in it, the action hash comes back cut short. */
  lemma ColonIsLost(w: World, secret: Secret, a: Approval, useV2: bool)
    requires w.IsSane() && !NoColon(a.actionHash)
    ensures var parts, start := Split(Body(w, secret, a, useV2)), if useV2 then 2 else 0;
      |parts| > start + 1 && parts[start + 1] != a.actionHash
  {
    hide Split;
    hide Body;
    SplitBody(w, secret, a, useV2);
    SplitPartsArePlain(a.actionHash);
    var parts, start := Split(Body(w, secret, a, useV2)), if useV2 then 2 else 0;
    assert parts[start + 1] == Split(a.actionHash)[0];
  }

  /** A minted body with a well-formed action hash either reads back or has expired. */
  lemma FieldsRoundTrip(w: World, secret: Secret, a: Approval, useV2: bool, now: Timestamp)
    requires w.IsSane() && NoColon(a.actionHash)
    ensures ParseFields(w, Split(Body(w, secret, a, useV2)), if useV2 then 2 else 0, now) ==
            if now <= a.expiresAt then Ok(a) else Err(Expired)
  {
    hide Split;
    hide Join;
    hide Body;
    SplitBody(w, secret, a, useV2);
    SplitPlain(a.actionHash);
    JoinSplit(w.timeText(a.expiresAt));
    var parts, start := Split(Body(w, secret, a, useV2)), if useV2 then 2 else 0;
    assert parts[start] == w.uuidText(a.requestId) && parts[start + 1] == a.actionHash;
    assert parts[start + 2..] == Split(w.timeText(a.expiresAt));
  }

  lemma MintedIsLongEnough(w: World, secret: Secret, a: Approval, useV2: bool)
    requires w.IsSane()
    ensures |Split(MakeToken(w, secret, a, useV2))| >= 4
  {
    var body := Body(w, secret, a, useV2);
    SplitBody(w, secret, a, useV2);
    SplitToken(body, w.hmacHex(secret, body));
  }

  /** What parsing does to any minted token, whatever the current secret. */
  lemma ParseMinted(w: World, minter: Secret, current: Secret, a: Approval, useV2: bool,
                    acceptV1Until: Option<Timestamp>, now: Timestamp)
    requires w.IsSane()
    ensures
      var body := Body(w, minter, a, useV2);
      ParseToken(w, current, MakeToken(w, minter, a, useV2), acceptV1Until, now) ==
        match VerifyKey(w, current, Split(body), acceptV1Until, now)
        case Err(e) => Err(e)
        case Ok(key) =>
          if w.hmacHex(key, body) != w.hmacHex(minter, body) then Err(SignatureMismatch)
          else ParseFields(w, Split(body), if useV2 then 2 else 0, now)
  {
    var body := Body(w, minter, a, useV2);
    MintedIsLongEnough(w, minter, a, useV2);
    SplitToken(body, w.hmacHex(minter, body));
    FormatsDiffer(w, minter, a, useV2);
  }

  // ---- round trips --------------------------------------------------------------------

  /**
   Under the key it was minted with, a token parses back to its request exactly if the action hash has
   no colon, it has not expired, and, for the legacy format, the sunset has not passed.
   */
  lemma RoundTripIff(w: World, secret: Secret, a: Approval, useV2: bool, acceptV1Until: Option<Timestamp>, now: Timestamp)
    requires w.IsSane()
    ensures ParseToken(w, secret, MakeToken(w, secret, a, useV2), acceptV1Until, now) == Ok(a) <==>
      && NoColon(a.actionHash) && now <= a.expiresAt
      && (useV2 || acceptV1Until == None || now <= acceptV1Until.value)
  {
    ParseMinted(w, secret, secret, a, useV2, acceptV1Until, now);
    FormatsDiffer(w, secret, a, useV2);
    FieldsRoundTripIff(w, secret, a, useV2, now);
    SplitBody(w, secret, a, useV2);
  }

  /** After a rotation: which keys open a tagged token, and how the other outcomes are told apart. */
  lemma OldTokenParses(w: World, minter: Secret, current: Secret, a: Approval,
                       acceptV1Until: Option<Timestamp>, now: Timestamp)
    requires w.IsSane() && NoColon(a.actionHash) && now <= a.expiresAt
    ensures
      var body := Body(w, minter, a, true);
      ParseToken(w, current, MakeToken(w, minter, a, true), acceptV1Until, now) ==
        match ResolveSecretForPrefix(w, w.KeyPrefix(minter), current)
        case None => Err(HistoricalKeyUnavailable)
        case Some(key) => if w.hmacHex(key, body) == w.hmacHex(minter, body) then Ok(a) else Err(SignatureMismatch)
  {
    ParseMinted(w, minter, current, a, true, acceptV1Until, now);
    FieldsRoundTripIff(w, minter, a, true, now);
    SplitBody(w, minter, a, true);
  }

  /** A mounted old key opens the tokens it signed, unless the current key happens to share its prefix. */
  lemma MountedKeyOpensOldTokens(w: World, minter: Secret, current: Secret, a: Approval,
                                 acceptV1Until: Option<Timestamp>, now: Timestamp)
    requires w.IsSane() && NoColon(a.actionHash) && now <= a.expiresAt
    requires w.KeyPrefix(current) != w.KeyPrefix(minter)
    ensures ParseToken(w, current, MakeToken(w, minter, a, true), acceptV1Until, now) ==
      if w.KeyPrefix(minter) !in w.mounted || w.KeyPrefix(w.mounted[w.KeyPrefix(minter)]) != w.KeyPrefix(minter)
      then Err(HistoricalKeyUnavailable)
      else
        var body := Body(w, minter, a, true);
        if w.hmacHex(w.mounted[w.KeyPrefix(minter)], body) == w.hmacHex(minter, body) then Ok(a) else Err(SignatureMismatch)
  {
    OldTokenParses(w, minter, current, a, acceptV1Until, now);
  }

  /** An accepted token is a body signed by the current key, or by a key carrying the prefix it names. */
  lemma AcceptedTokenIsSigned(w: World, secret: Secret, token: string, acceptV1Until: Option<Timestamp>, now: Timestamp)
    requires w.IsSane() && ParseToken(w, secret, token, acceptV1Until, now).Ok?
    ensures
      var parts := Split(token);
      var body := Join(parts[..|parts| - 1]);
      exists key :: token == body + ":" + w.hmacHex(key, body)
        && if HasV2Tag(Split(body)) then w.KeyPrefix(key) == Split(body)[1] else key == secret
  {
    var parts := Split(token);
    var body := Join(parts[..|parts| - 1]);
    JoinSplit(token);
    JoinLast(parts);
    var key := VerifyKey(w, secret, Split(body), acceptV1Until, now).value;
    assert token == body + ":" + w.hmacHex(key, body);
  }

  lemma {:induction false} JoinLast(parts: seq<string>)
    requires |parts| >= 2
    ensures Join(parts) == Join(parts[..|parts| - 1]) + ":" + parts[|parts| - 1]
  {
    var init := parts[..|parts| - 1];
    if |parts| > 2 {
      JoinLast(parts[1..]);
      assert parts[1..][..|parts| - 2] == init[1..];
      assert Join(init) == parts[0] + ":" + Join(init[1..]);
    }
  }
}
