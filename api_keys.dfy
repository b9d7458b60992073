/** The API-key credential lifecycle of main.py: `/generate` issues a key and
    stores only its digest; `/revoke` lets the key's owner mark it revoked.
    The Firestore collection `api_keys` is a map from document id to key
    record. Randomness, the SHA-256 function, the store-assigned document
    id, the server timestamp and store failures are inputs of the model. */
module ApiKeys {

  import opened Wrappers
  import opened Bytes
  import Base64Url
  import Hex

  /** Firestore document ids are never empty. */
  type DocId = s: string | s != "" witness "k"

  /** The commit time the store writes in place of SERVER_TIMESTAMP. */
  type Timestamp = nat

  /** A SHA-256 digest (section 6.2 of FIPS 180-4): 32 octets. */
  type Digest = d: seq<byte> | |d| == 32 witness seq(32, _ => 0)

  /** `token_urlsafe(36)`: 36 random octets, written in 48 characters. */
  const TokenBytes: nat := 36
  const KeyPrefix: string := "sk_"
  const KeyLength: nat := 51
  const DigestTextLength: nat := 64

  datatype Status = Active | Revoked

  /** One document of `api_keys`. There is deliberately no field for the
      plaintext key. */
  datatype KeyRecord = KeyRecord(
    userId: string,
    keyLabel: string,
    hashedKey: string,
    status: Status,
    createdAt: Timestamp,
    lastUsedAt: Option<Timestamp>)

  type Store = map<DocId, KeyRecord>

  /** What a handler answers; the JSON message texts are not modelled. */
  datatype Response =
    | KeyIssued(apiKey: string)
    | KeyRevoked
    | BadRequest
    | NotFound
    | Forbidden
    | ServerError
  {
    function Code(): int {
      match this
      case KeyIssued(_) => 201
      case KeyRevoked => 200
      case BadRequest => 400
      case NotFound => 404
      case Forbidden => 403
      case ServerError => 500
    }
  }

  /** Python's truth value of a request field: a field that is missing, null
      or the empty string counts as absent. */
  predicate Present(field: Option<string>) {
    field.Some? && field.value != ""
  }

  /** The shape of every issued key: the prefix `sk_` and 48 characters of
      the URL-safe base64 alphabet. */
  predicate IsIssuedKey(key: string) {
    && |key| == KeyLength
    && key[..|KeyPrefix|] == KeyPrefix
    && forall i :: |KeyPrefix| <= i < |key| ==> Base64Url.IsUrlSafeChar(key[i])
  }

  /** The stored form of a digest: 64 lower-case hexadecimal digits. */
  predicate IsDigestText(d: string) {
    |d| == DigestTextLength && Hex.IsHexText(d)
  }

  /** The plaintext key issued for the random octets `entropy`. The random
      part can be read back from the key, so it is a faithful image of the
      randomness drawn. */
  function IssuedKey(entropy: seq<byte>): (key: string)
    requires |entropy| == TokenBytes
    ensures IsIssuedKey(key)
    ensures IsAscii(key)
    ensures Base64Url.Decode(key[|KeyPrefix|..]) == Some(entropy)
  {
    var token := Base64Url.Encode(entropy);
    Base64Url.DecodeEncode(entropy);
    var key := KeyPrefix + token;
    assert key[|KeyPrefix|..] == token;
    key
  }

  /** Different draws of randomness give different keys. */
  lemma IssuedKeyInjective(e1: seq<byte>, e2: seq<byte>)
    requires |e1| == TokenBytes && |e2| == TokenBytes
    ensures IssuedKey(e1) == IssuedKey(e2) ==> e1 == e2
  {
    var t1, t2 := Base64Url.Encode(e1), Base64Url.Encode(e2);
    assert IssuedKey(e1)[|KeyPrefix|..] == t1 && IssuedKey(e2)[|KeyPrefix|..] == t2;
    Base64Url.EncodeInjective(e1, e2);
  }

  /** The `hashedKey` stored for `key`: the hexadecimal SHA-256 digest of
      its UTF-8 octets. The digest can be read back from the text. */
  function StoredDigest(sha256: seq<byte> -> Digest, key: string): (d: string)
    requires IsAscii(key)
    ensures IsDigestText(d)
    ensures Hex.Decode(d) == Some(sha256(Utf8(key)))
  {
    Hex.DecodeEncode(sha256(Utf8(key)));
    Hex.Encode(sha256(Utf8(key)))
  }

  /** Keys whose SHA-256 digests differ are stored with different
      `hashedKey` texts. */
  lemma StoredDigestInjective(sha256: seq<byte> -> Digest, k1: string, k2: string)
    requires IsAscii(k1) && IsAscii(k2)
    ensures sha256(Utf8(k1)) != sha256(Utf8(k2)) ==> StoredDigest(sha256, k1) != StoredDigest(sha256, k2)
  {
    Hex.EncodeInjective(sha256(Utf8(k1)), sha256(Utf8(k2)));
  }

  /** A stored digest never equals an issued key. This is a length fact
      only: the digest text has 64 characters and a key has 51. It is not a
      secrecy claim. The plaintext is not stored because KeyRecord has no
      field for it. */
  lemma DigestIsNotKey(sha256: seq<byte> -> Digest, entropy: seq<byte>)
    requires |entropy| == TokenBytes
    ensures StoredDigest(sha256, IssuedKey(entropy)) != IssuedKey(entropy)
  {
  }

  /** What every record written by this service satisfies. */
  predicate WellFormed(docs: Store) {
    forall id :: id in docs ==>
      docs[id].userId != "" && docs[id].keyLabel != "" && IsDigestText(docs[id].hashedKey)
  }

  /** `r2` is `r1` with at most its status changed. */
  predicate SameExceptStatus(r1: KeyRecord, r2: KeyRecord) {
    r2 == r1.(status := r2.status)
  }

  /** The `/generate` handler as a transition of the store. `entropy` is the
      draw of `token_urlsafe(36)`, `newId` the id the store assigns,
      `now` the commit time, and `writeFails` a failed write. */
  function GenerateStep(sha256: seq<byte> -> Digest, docs: Store,
                        userId: Option<string>, keyLabel: Option<string>,
                        entropy: seq<byte>, newId: DocId, now: Timestamp,
                        writeFails: bool): (out: (Response, Store))
    requires |entropy| == TokenBytes
    ensures out.0.BadRequest? || out.0.ServerError? || out.0.KeyIssued?
    ensures out.0.BadRequest? <==> !Present(userId) || !Present(keyLabel)
    ensures out.0.ServerError? <==> Present(userId) && Present(keyLabel) && (writeFails || newId in docs)
    ensures !out.0.KeyIssued? ==> out.1 == docs
    ensures out.0.KeyIssued? ==>
      && out.0.Code() == 201
      && IsIssuedKey(out.0.apiKey)
      && out.0.apiKey == IssuedKey(entropy)
      && newId !in docs
      && out.1.Keys == docs.Keys + {newId}
      && (forall id :: id in docs ==> out.1[id] == docs[id])
      && out.1[newId].userId == userId.value
      && out.1[newId].keyLabel == keyLabel.value
      && out.1[newId].hashedKey == StoredDigest(sha256, out.0.apiKey)
      // Holds by length alone (64 characters against 51).
      && out.1[newId].hashedKey != out.0.apiKey
      && out.1[newId].status == Active
      && out.1[newId].createdAt == now
      && out.1[newId].lastUsedAt == None
    ensures WellFormed(docs) ==> WellFormed(out.1)
  {
    if !Present(userId) || !Present(keyLabel) then (BadRequest, docs)
    else
      var key := IssuedKey(entropy);
      var record := KeyRecord(userId.value, keyLabel.value, StoredDigest(sha256, key), Active, now, None);
      if writeFails || newId in docs then (ServerError, docs)
      else (KeyIssued(key), docs[newId := record])
  }

  /** The `/revoke` handler as a transition of the store. `readFails` and
      `writeFails` are a failed document read and a failed update. */
  function RevokeStep(docs: Store, keyId: Option<string>, userId: Option<string>,
                      readFails: bool, writeFails: bool): (out: (Response, Store))
    ensures out.0.BadRequest? <==> !Present(keyId) || !Present(userId)
    ensures out.0.NotFound? <==>
      Present(keyId) && Present(userId) && !readFails && keyId.value !in docs
    ensures out.0.Forbidden? <==>
      && Present(keyId) && Present(userId) && !readFails && keyId.value in docs
      && docs[keyId.value].userId != userId.value
    ensures out.0.KeyRevoked? <==>
      && Present(keyId) && Present(userId) && !readFails && !writeFails && keyId.value in docs
      && docs[keyId.value].userId == userId.value
    ensures out.0.ServerError? <==>
      && Present(keyId) && Present(userId)
      && (readFails || (writeFails && keyId.value in docs && docs[keyId.value].userId == userId.value))
    ensures !out.0.KeyIssued?
    ensures !out.0.KeyRevoked? ==> out.1 == docs
    ensures out.0.KeyRevoked? ==>
      && out.0.Code() == 200
      && out.1.Keys == docs.Keys
      && out.1[keyId.value].status == Revoked
      && SameExceptStatus(docs[keyId.value], out.1[keyId.value])
      && (forall id :: id in docs && id != keyId.value ==> out.1[id] == docs[id])
    ensures WellFormed(docs) ==> WellFormed(out.1)
  {
    if !Present(keyId) || !Present(userId) then (BadRequest, docs)
    else if readFails then (ServerError, docs)
    else if keyId.value !in docs then (NotFound, docs)
    else
      var record := docs[keyId.value];
      if record.userId != userId.value then (Forbidden, docs)
      else if writeFails then (ServerError, docs)
      else (KeyRevoked, docs[keyId.value := record.(status := Revoked)])
  }

  /** Repeating a revoke request changes nothing more: the second call gets
      the same answer (200 again after a successful revoke) and leaves the
      store as the first left it, so a revoked key never becomes active. */
  lemma RevokeIdempotent(docs: Store, keyId: Option<string>, userId: Option<string>,
                         readFails: bool, writeFails: bool)
    ensures var first := RevokeStep(docs, keyId, userId, readFails, writeFails);
            RevokeStep(first.1, keyId, userId, readFails, writeFails) == first
  {
    var first := RevokeStep(docs, keyId, userId, readFails, writeFails);
    if first.0.KeyRevoked? {
      var id := keyId.value;
      var revoked := docs[id].(status := Revoked);
      assert first.1 == docs[id := revoked];
      assert first.1[id := first.1[id].(status := Revoked)] == first.1;
    }
  }

  /** One request to either handler. */
  datatype Request =
    | GenerateRequest(userId: Option<string>, keyLabel: Option<string>,
                      entropy: seq<byte>, newId: DocId, now: Timestamp, writeFails: bool)
    | RevokeRequest(keyId: Option<string>, requester: Option<string>,
                    readFails: bool, writeFails: bool)

  predicate WellDrawn(reqs: seq<Request>) {
    forall i :: 0 <= i < |reqs| ==> reqs[i].GenerateRequest? ==> |reqs[i].entropy| == TokenBytes
  }

  /** The store after serving `reqs` one after the other. */
  function Serve(sha256: seq<byte> -> Digest, docs: Store, reqs: seq<Request>): (after: Store)
    requires WellDrawn(reqs)
    decreases |reqs|
  {
    if |reqs| == 0 then docs
    else
      var req := reqs[0];
      var next := match req
        case GenerateRequest(u, l, e, id, t, wf) => GenerateStep(sha256, docs, u, l, e, id, t, wf).1
        case RevokeRequest(k, u, rf, wf) => RevokeStep(docs, k, u, rf, wf).1;
      Serve(sha256, next, reqs[1..])
  }

  /** Whatever requests are served, no record disappears, a record's owner,
      label, digest and timestamps never change, a revoked record stays
      revoked, and every record stays well formed. */
  lemma {:induction false} ServeKeepsRecords(sha256: seq<byte> -> Digest, docs: Store, reqs: seq<Request>)
    requires WellDrawn(reqs)
    ensures var after := Serve(sha256, docs, reqs);
      && docs.Keys <= after.Keys
      && (forall id :: id in docs ==> SameExceptStatus(docs[id], after[id]))
      && (forall id :: id in docs && docs[id].status == Revoked ==> after[id].status == Revoked)
      && (WellFormed(docs) ==> WellFormed(after))
    decreases |reqs|
  {
    if |reqs| > 0 {
      var next := match reqs[0]
        case GenerateRequest(u, l, e, id, t, wf) => GenerateStep(sha256, docs, u, l, e, id, t, wf).1
        case RevokeRequest(k, u, rf, wf) => RevokeStep(docs, k, u, rf, wf).1;
      assert WellDrawn(reqs[1..]) by {
        forall i | 0 <= i < |reqs[1..]| ensures reqs[1..][i] == reqs[i + 1] { }
      }
      ServeKeepsRecords(sha256, next, reqs[1..]);
    }
  }

  /** Issue a key for "u1", revoke it as "u1", then try to revoke it as
      "u2": the owner check answers 403 even though the key is already
      revoked. */
  lemma IssueRevokeScenario(sha256: seq<byte> -> Digest, docs: Store, entropy: seq<byte>,
                            id: DocId, now: Timestamp)
    requires |entropy| == TokenBytes && id !in docs
    ensures var (r1, d1) := GenerateStep(sha256, docs, Some("u1"), Some("ci-bot"), entropy, id, now, false);
      && r1.KeyIssued? && r1.apiKey[..3] == "sk_"
      && d1[id].userId == "u1" && d1[id].status == Active
      && var (r2, d2) := RevokeStep(d1, Some(id), Some("u1"), false, false);
      && r2 == KeyRevoked && d2[id].status == Revoked
      && var (r3, d3) := RevokeStep(d2, Some(id), Some("u2"), false, false);
      && r3 == Forbidden && d3 == d2
  {
  }

  /** The `api_keys` collection with the two handlers acting on it. */
  class KeyCollection {
    var docs: Store
    const sha256: seq<byte> -> Digest

    /** The WellFormed invariant of the stored records, set up by the
        constructor and kept by both handlers for their callers. */
    ghost predicate Valid()
      reads this
    {
      WellFormed(docs)
    }

    constructor (sha256: seq<byte> -> Digest)
      ensures Valid() && docs == map[] && this.sha256 == sha256
    {
      this.sha256 := sha256;
      docs := map[];
    }

    /** `generate_api_key`: validate, derive key and digest, add the record,
        hand the plaintext back once. */
    method Generate(userId: Option<string>, keyLabel: Option<string>, entropy: seq<byte>,
                    newId: DocId, now: Timestamp, writeFails: bool) returns (resp: Response)
      requires Valid()
      requires |entropy| == TokenBytes
      modifies this
      ensures Valid()
      ensures (resp, docs) == GenerateStep(sha256, old(docs), userId, keyLabel, entropy, newId, now, writeFails)
    {
      if !Present(userId) || !Present(keyLabel) {
        return BadRequest;
      }
      var key := IssuedKey(entropy);
      var hashedKey := StoredDigest(sha256, key);
      var record := KeyRecord(userId.value, keyLabel.value, hashedKey, Active, now, None);
      if writeFails || newId in docs {
        return ServerError;
      }
      docs := docs[newId := record];
      return KeyIssued(key);
    }

    /** `revoke_api_key`: validate, look the record up, check the owner,
        set its status to revoked. */
    method Revoke(keyId: Option<string>, userId: Option<string>, readFails: bool, writeFails: bool)
      returns (resp: Response)
      requires Valid()
      modifies this
      ensures Valid()
      ensures (resp, docs) == RevokeStep(old(docs), keyId, userId, readFails, writeFails)
    {
      if !Present(keyId) || !Present(userId) {
        return BadRequest;
      }
      if readFails {
        return ServerError;
      }
      var id := keyId.value;
      if id !in docs {
        return NotFound;
      }
      var record := docs[id];
      if record.userId != userId.value {
        return Forbidden;
      }
      if writeFails {
        return ServerError;
      }
      docs := docs[id := record.(status := Revoked)];
      return KeyRevoked;
    }
  }

  /** The issue-then-revoke scenario of IssueRevokeScenario, run against the
      class. IssueRevokeScenario states it of the step functions. This
      client shows that the contracts of Generate and Revoke alone are
      strong enough for a caller to derive it. */
  method IssueThenRevoke(sha256: seq<byte> -> Digest, entropy: seq<byte>, id: DocId, now: Timestamp)
    requires |entropy| == TokenBytes
  {
    var keys := new KeyCollection(sha256);
    var r := keys.Generate(Some("u1"), Some("ci-bot"), entropy, id, now, false);
    assert r.Code() == 201 && keys.docs.Keys == {id} && keys.docs[id].status == Active;
    r := keys.Revoke(Some(id), Some("u1"), false, false);
    assert r.Code() == 200 && keys.docs[id].status == Revoked;
    r := keys.Revoke(Some(id), Some("u1"), false, false);
    assert r.Code() == 200 && keys.docs[id].status == Revoked;
    r := keys.Revoke(Some(id), Some("u2"), false, false);
    assert r.Code() == 403 && keys.docs[id].status == Revoked;
    assert WellFormed(keys.docs) && keys.docs[id].keyLabel == "ci-bot";
  }
}
