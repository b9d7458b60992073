# API key manager: a Dafny model of the key lifecycle

The service issues API keys and revokes them. It has two HTTP handlers over
the Firestore collection `api_keys`:

- `/generate` (`generate_api_key`) needs a non-empty `userId` and `label`.
  It draws 36 random octets and writes them in URL-safe base64 without
  padding (section 5 of RFC 4648), 48 characters, behind the prefix `sk_`.
  It hashes the UTF-8 octets of that key with SHA-256 (FIPS 180-4) and
  writes the digest as 64 lower-case hex digits. It adds a document with
  the owner, the label, the digest, `status = 'active'`, the server
  timestamp and `lastUsedAt = None`. It returns the plaintext key once,
  with 201.
- `/revoke` (`revoke_api_key`) needs a non-empty `keyId` and `userId`. It
  reads the document: 404 if absent, 403 if its `userId` is not the
  caller's. Otherwise it sets `status` to `'revoked'` and answers 200.

Modules:

- `Wrappers` (wrappers.dfy): `Option`.
- `Bytes` (bytes.dfy): octets and the UTF-8 encoding (RFC 3629), with the
  proof that on ASCII text it writes one octet per character.
- `Base64Url` (base64url.dfy): the encoding `secrets.token_urlsafe` uses,
  with a decoder and the round-trip proof.
- `Hex` (hex.dfy): `hexdigest()`'s text form, with a decoder and the
  round-trip proof.
- `ApiKeys` (api_keys.dfy): the record and response types. It also holds
  the key and digest derivation and the two handlers as pure transitions
  of the store (`GenerateStep`, `RevokeStep`). The class `KeyCollection`
  owns the store as a `map` field. Its methods `Generate` and `Revoke`
  follow the handlers step by step, and their `ensures` tie the response
  and the new map to those transitions.

Some things the handlers do not compute themselves. They are inputs of the
model:

- the random octets (`entropy`);
- the SHA-256 function (the class's `sha256` constant, a total function to
  32-octet digests);
- the id the store assigns to a new document (`newId`);
- the timestamp the store writes for `SERVER_TIMESTAMP` (`now`);
- whether a store read or write fails (`readFails`, `writeFails`).

A failing store call is an exception inside the handler's `try`. The handler
then answers 500, and the store is left as it was.

The handler returns only the plaintext key, not the new document's id
(main.py:64-68), so `KeyIssued` carries the key alone.

Firestore's `add` writes through `create`, which fails when the document
already exists. So a `newId` that is already in the store gives 500 and no
change.

## Model

| member | source | states |
|---|---|---|
| `Bytes.Utf8OfAscii` | main.py:46 | `encode('utf-8')` of the key, taken as one octet per character, agrees with the RFC 3629 encoding (`Utf8Of`, one to four octets per scalar value) on ASCII text |
| `Base64Url.Encode` | main.py:43 | the token has `(4n+2)/3` characters for `n` octets (48 for 36), all from `A-Z a-z 0-9 - _` |
| `Base64Url.DecodeEncode` | main.py:43 | decoding the token gives back exactly the random octets |
| `Base64Url.EncodeInjective` | main.py:43 | distinct octet strings give distinct tokens |
| `Hex.Encode` | main.py:46 | `hexdigest()` text has two lower-case hex digits per octet |
| `Hex.DecodeEncode` | main.py:46 | decoding the hex text gives back the digest octets |
| `Hex.EncodeInjective` | main.py:46 | distinct digests give distinct hex texts |
| `ApiKeys.StoredDigestInjective` | main.py:46 | keys whose SHA-256 digests differ are stored with different `hashedKey` texts |
| `ApiKeys.IssuedKey` | main.py:42-43 | the key is 51 characters: `sk_` then 48 URL-safe characters; it is ASCII; the random octets are recoverable from it |
| `ApiKeys.IssuedKeyInjective` | main.py:43 | different random draws give different keys |
| `ApiKeys.StoredDigest` | main.py:45-46 | `hashedKey` is 64 lower-case hex digits and decodes to SHA-256 of the key's UTF-8 octets |
| `ApiKeys.DigestIsNotKey` | main.py:43-56 | the stored digest never equals the plaintext key |
| `ApiKeys.GenerateStep` | main.py:34-72 | 400 iff `userId` or `label` is missing or empty; 500 iff inputs are valid and the write fails; otherwise 201. On every non-201 answer the store is unchanged. On 201 exactly one new record is added: owner and label from the request, `hashedKey` the digest of the returned key, `active`, the commit time, no `lastUsedAt`. The returned key is `sk_` plus the token, and no existing record changes. Well-formedness is preserved |
| `ApiKeys.RevokeStep` | main.py:80-107 | 400 iff `keyId` or `userId` is missing or empty, before any read; 500 on a failed read, or on a failed write after the checks pass; 404 iff the id is absent; 403 iff the stored owner differs, whatever the status; 200 iff the owner matches and the write succeeds. Only a 200 changes the store, and then only that record's `status`, to revoked. The plaintext key is never returned |
| `ApiKeys.RevokeIdempotent` | main.py:98-103 | repeating a revoke request gets the same answer and leaves the store as the first call did (200 stays 200, revoked stays revoked) |
| `ApiKeys.ServeKeepsRecords` | main.py:49-103 | over any sequence of requests, no record disappears; owner, label, digest and timestamps never change; revoked never goes back to active; every record stays well formed |
| `ApiKeys.IssueRevokeScenario` | main.py:28-103 | issue for "u1" gives 201 and an active record; revoke by "u1" gives 200 and `revoked`; revoke by "u2" then gives 403, store unchanged |
| `ApiKeys.KeyCollection.constructor` | main.py:18-20 | the collection starts empty and well formed |
| `ApiKeys.KeyCollection.Generate` | main.py:28-72 | the handler's steps in order; the response and new map are those of `GenerateStep`, and the store stays well formed |
| `ApiKeys.KeyCollection.Revoke` | main.py:75-107 | the handler's steps in order; the response and new map are those of `RevokeStep`, and the store stays well formed |

## Left out

- Flask routing, `request.get_json()` and `jsonify`. Requests are
  optional-string fields and responses are a status code plus the issued
  key. The JSON message texts are not modelled.
- Request fields that are JSON values other than strings or null
  (numbers, booleans, lists). Python's truth test and the owner comparison
  on such values are not modelled.
- A request body that is not valid JSON, or not sent as JSON.
  `request.get_json()` (main.py:34, main.py:80) raises before any field is
  read. A parse error gets 400. A non-JSON Content-Type gets 415 on current
  Werkzeug and 400 on Werkzeug 2.1-2.2. Older Flask returns None instead,
  and the `data.get` below then fails with 500.
- A request body that is valid JSON but not an object (an array, a string,
  a number or `null`). `data.get` (main.py:35, main.py:81) then fails
  outside the handler's `try`, and Flask answers 500 itself.
- Firebase initialisation and the global `db` handle (main.py:18-22). A
  store that cannot be reached is one of the read or write failures.
- The CSPRNG behind `secrets.token_urlsafe`. Its 36 octets are a parameter.
  Keys are unique only when the draws differ (`IssuedKeyInjective`). That
  draws differ is a probabilistic claim and is not modelled.
- The internals of SHA-256. It is an arbitrary total function to 32 octets.
  Collision resistance is not claimed.
- The resolution of `firestore.SERVER_TIMESTAMP`. The value written is the
  `now` parameter.
- Firestore path semantics of document ids (a `keyId` containing `/`
  names a different path). Ids are opaque non-empty strings.
- `Bytes.Utf8`, the encoding fed to SHA-256, is defined only for ASCII text.
  It agrees with the full encoding `Bytes.Utf8Of` there. The only text
  hashed is an issued key, which is ASCII.
- Logging (main.py:61, 71, 101, 106) and `app.run` (main.py:111-112).
- Concurrency between requests, and Firestore's per-document atomicity.
  Each request is one atomic transition of the map.
