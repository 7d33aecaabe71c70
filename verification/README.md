# Signed requests (lib/request.js)

A Dafny model of the request-signing protocol in `lib/request.js`. A client
builds a `Request` from an HTTP method, a path and the query parameters.
It signs the request with a token, which is a public key plus a shared
secret. The server rebuilds the request from what it received and
authenticates it.

- **Construction.** Every query key is lower-cased. A key whose first five
  characters are `auth_` goes to the auth block (`_auth_hash`). Every other
  key goes to `query_hash`. When two keys collide, the later pair wins. The
  method is upper-cased and the path is kept as given.
- **Signing.** The string to sign is `method + "\n" + path + "\n" +
  parameter_string()`. Assuming `parameter_string` reads only `query_hash`,
  the auth block is not signed. `sign` builds the whole
  block (`auth_version` "1.0", `auth_key`, `auth_timestamp`, `auth_signature`)
  and installs it in one step, replacing any earlier auth entries.
- **Guarded read.** The `auth_hash` getter fails with "Request not signed"
  unless the block holds a truthy `auth_signature`.
- **Verification.** Three checks run in order: version, timestamp window,
  signature. Each has its own failure. There are three entry points: one that
  throws, one that returns a boolean, and one that looks the token up through a
  caller-supplied resolver.

Files:

- `wrappers.dfy`: `Option`.
- `js_text.dfy` (module `JsText`): ASCII `toLowerCase` and `toUpperCase`,
  `String(n)` for integers, and the global `parseInt` with no radix. It also
  holds the round trip `parseInt(String(n)) == n`.
- `request.dfy` (module `Requests`): the value types, the partition, the
  class `Request`, the guarded getter, the three checks and the entry points.
  The class holds the fields that the constructor and `sign` change. The
  constructor's `for…in` loop is a `while` loop proved against `Partition`.
  `Sign` is proved against `NewAuthBlock`. Every operation that only reads the
  object is a function of the object's state (`Request.State()`).
- `properties.dfy` (module `RequestProperties`): lemmas about partitioning,
  what the signature covers, sign-then-verify on one object, and the round
  trip over the wire.
- `as_written.dfy` (module `AsWritten`): the code as written where it differs
  from its evident intent (see Findings).

External parts are parameters:

- HMAC-SHA256 (`crypto.createHmac`) and `parameter_string` are the fields
  `hmac` and `parameterString` of an `Externals` value. `parameter_string` is
  called at lib/request.js:70 but is not defined in that file, so it is not
  part of this model. The model gives it only the ordinary parameters
  (`query_hash`); that is an assumption, since a method of the request could
  also read the auth block.
- The HMAC digest is assumed non-empty where a lemma signs and then
  verifies (`requires Signature(…) != ""`). A hex digest is never empty, and
  the getter at lib/request.js:59-62 treats an empty signature as missing.
- The clock (`new Date().getTime()`) is the argument `now`, in milliseconds.
  The grace window is counted in the same unit. With the default grace of 600,
  a request is therefore accepted for 0.6 seconds either side of its
  timestamp. The error message at lib/request.js:89 speaks of seconds; the
  model follows the comparison, not the message.
- The resolver given to `authenticate` is a function `Value -> Option<Token>`.

JavaScript values: `sign` stores the timestamp as a number. Query parameters
arrive as text. So an auth value is `Text(s)` or `Number(n)`, and truthiness
follows JavaScript (`""`, `0` and a missing entry are falsy). Two
consequences are proved:

- On the object that signed it, a request signed at clock reading 0 fails
  with "Timestamp required" (`SignedAtEpochRejected`).
- After the wire round trip the timestamp is the text "0", which is truthy,
  so the same request is accepted (`WireRoundTrip`).

Assuming `parameter_string` reads only `query_hash`, the timestamp is not
covered by the signature: anyone can replace it and the signature check still
passes (`TimestampNotCovered`).

## Model

| member | source | states |
|---|---|---|
| `Requests.Request.constructor` | lib/request.js:3-19 | The new object's state is `Construct`: the method upper-cased, the path as given, and both maps as `Partition` of the pairs in `for…in` order. The loop invariant ties the maps built so far to `Partition` of the prefix. |
| `Requests.Partition` | lib/request.js:10-13 | Every auth key starts with `auth_` and holds a text value. No query key starts with `auth_`. |
| `Requests.PartitionKeys` | lib/request.js:10-13 | Together, the two maps' keys are exactly the lower-cased input keys: none invented, none lost. JavaScript itself drops the key `__proto__` (see Left out). |
| `RequestProperties.PartitionLastWins` | lib/request.js:10-13 | Take the last pair with a given lower-cased key. That key lands in exactly one map: the auth map iff it starts with `auth_`. It holds that pair's value. |
| `RequestProperties.PartitionSize` | lib/request.js:10-13 | If the lower-cased keys are all distinct, the two maps hold as many entries as there were input pairs. |
| `RequestProperties.ConstructExample` | lib/request.js:10-18 | `("get", "/widgets", {Foo: "bar"})` gives method "GET", query `{foo: "bar"}` and an empty auth block. |
| `JsText.Lower` | lib/request.js:11 | The result has the same length and no ASCII capital. Every other character is unchanged, and case-insensitively the result equals the input. |
| `Requests.Route` | lib/request.js:11-12 | One loop step: the lower-cased key lands in the auth map with the value as text when it starts with `auth_`, otherwise in the query map. Every other key keeps its place and value in both maps. |
| `JsText.Upper` | lib/request.js:15 | The result has the same length and no ASCII lower-case letter. Every other character is unchanged, and case-insensitively the result equals the input. |
| `JsText.UpperIdempotent` | lib/request.js:15 | Upper-casing an upper-cased method changes nothing. |
| `JsText.ParseInt` | lib/request.js:83 | Blank text, and text whose first non-blank character is neither a sign nor a decimal digit, gives NaN (`None`). Only a leading minus gives a negative result. |
| `JsText.ParseIntOfDecimalText` | lib/request.js:83 | `parseInt` reads back the decimal text of any integer as that integer. |
| `Requests.AuthHash` | lib/request.js:59-62 | A read succeeds, returning the stored block, iff `auth_signature` is present and truthy. Otherwise it fails with NotSigned. |
| `Requests.StringToSign` | lib/request.js:69-71 | The string is laid out as the method, a newline, the path, a newline, and the canonical parameter string, each at a fixed position. |
| `Requests.Signature` | lib/request.js:66-68 | The HMAC under the token's secret of the string to sign. It depends on the request only through method, path and ordinary parameters. |
| `RequestProperties.FreshRequestUnsigned` | lib/request.js:59-62 | If no input key lower-cases to `auth_signature`, the new request's auth block cannot be read. |
| `Requests.Request.SetAuthHash` | lib/request.js:63-65 | The setter replaces the auth slot and changes nothing else. |
| `Requests.NewAuthBlock` | lib/request.js:23-29 | The signed block has exactly the four reserved keys. |
| `Requests.Request.Sign` | lib/request.js:22-32 | Afterwards the auth block is exactly `NewAuthBlock` (version "1.0", the token's key, `now` as a number, HMAC of the string to sign). Method, path and query are unchanged. The returned read succeeds iff the signature is non-empty. |
| `RequestProperties.SignForgetsEarlierAuth` | lib/request.js:22-31 | The new block does not depend on the old one. Signing again at the same time changes nothing. |
| `RequestProperties.AuthBlockNotSigned` | lib/request.js:66-71 | Replacing the auth block changes neither the string to sign nor the signature. |
| `RequestProperties.TimestampNotCovered` | lib/request.js:94-102 | A request that passes the signature check still passes it with its timestamp replaced. |
| `RequestProperties.StringToSignInjective` | lib/request.js:69-71 | If method and path contain no newline, the string to sign determines the method, the path and the canonical parameter string. |
| `RequestProperties.TamperNeedsCollision` | lib/request.js:94-102 | Take two newline-free requests that differ in method, path or canonical parameters. If both accept the same signature, the HMAC collides on two different messages. |
| `Requests.ValidateVersion` | lib/request.js:72-77 | Unsigned requests fail with NotSigned. A missing or empty version fails with VersionRequired, any other version with VersionNotSupported. The check passes exactly when the version reads "1.0". |
| `RequestProperties.VersionGate` | lib/request.js:33-47 | A version other than "1.0" makes both token entry points fail, whatever the signature. |
| `Requests.ValidateTimestamp` | lib/request.js:78-93 | A null grace passes. Otherwise an unsigned request fails with NotSigned, and a missing or falsy timestamp with TimestampRequired, as does a timestamp that is not a number. A timestamp at least `grace` away from `now` fails with TimestampExpired. The check passes exactly when a numeric timestamp lies strictly inside the window. |
| `RequestProperties.TimestampBoundary` | lib/request.js:86 | A distance of `grace - 1` passes. A distance of exactly `grace` fails with TimestampExpired. |
| `Requests.ValidateSignature` | lib/request.js:94-102 | An unsigned request fails with NotSigned. The check passes exactly when the request is signed and its stored signature equals the HMAC recomputed with the token. A signed request that fails gets InvalidSignature. |
| `Requests.DefaultParameter` | lib/request.js:33 | An omitted grace becomes 600. A given grace is kept. A null grace stays null and switches the window off. |
| `Requests.GraceOrDefault` | lib/request.js:40 | Every falsy grace (omitted, null, 0) becomes 600, and a non-zero grace is kept. The result is never 0. |
| `Requests.AuthenticateByTokenWithExceptions` | lib/request.js:33-38 | The pipeline passes iff the reference predicate `Accepted` holds. That predicate reads the stored entries directly: signed, version "1.0", timestamp in the window (when a grace is set), signature matching. The first failing check decides the error: the version check's, else the timestamp check's, else the signature check's. |
| `Requests.AuthenticateByToken` | lib/request.js:39-47 | Returns true iff `Accepted` holds with the falsy-defaulted grace. Otherwise it returns false. |
| `Requests.Authenticate` | lib/request.js:48-58 | NotSigned, then KeyRequired for a missing or falsy `auth_key`, then InvalidKey when the resolver gives nothing or a token without a secret. Past those checks, the result is `Ok(token)` exactly when the pipeline accepts that token, and otherwise the pipeline's own error. |
| `RequestProperties.SignThenVerify` | lib/request.js:22-38 | Sign, then run the throwing pipeline with the same token and clock. It passes for a null grace, for an omitted one, or for any positive one when `now != 0`. |
| `RequestProperties.SignedAtEpochRejected` | lib/request.js:81-85 | At `now == 0` the stored timestamp is the falsy number 0, so any non-null grace fails with TimestampRequired. |
| `RequestProperties.SignThenAuthenticateByToken` | lib/request.js:39-47 | A freshly signed request is accepted for every grace argument except a negative number. |
| `RequestProperties.SignThenAuthenticate` | lib/request.js:48-58 | If the resolver maps the key to the signing token, `authenticate` on a freshly signed request returns that token. |
| `RequestProperties.PartitionAppendAuth` | lib/request.js:10-13 | Appending pairs with reserved keys leaves the ordinary parameters unchanged. |
| `RequestProperties.PartitionAppendAuthEntries` | lib/request.js:10-13 | Appended pairs with distinct lower-case reserved keys land in the auth map with their values. |
| `RequestProperties.AcceptedAsText` | lib/request.js:72-102 | Version "1.0" as text, a matching signature and a decimal timestamp inside the window are accepted. |
| `RequestProperties.WireRoundTrip` | lib/request.js:3-31 | Build, sign at `now`, send everything as text, rebuild on the server. `authenticate_by_token` with the same token accepts at any `later` within the grace window. |
| `AsWritten.SignAsWritten` | lib/request.js:22-31 | Literally, `sign` leaves installed the three-entry block (the intended block without `auth_signature`) and throws NotSigned. |
| `AsWritten.SignAsWrittenNeverVerifies` | lib/request.js:22-38 | After the literal `sign` the pipeline fails with NotSigned. After the intended one it passes. |
| `AsWritten.AuthenticateByTokenWithExceptionsAsWritten` | lib/request.js:33-38 | Literally, the pipeline always throws a ReferenceError. |
| `AsWritten.AuthenticateByTokenAsWritten` | lib/request.js:39-47 | Literally, the result is always false. |
| `AsWritten.AuthenticateAsWritten` | lib/request.js:48-58 | Literally, this throws a ReferenceError exactly when the key and resolver checks pass, so it never returns a token. |
| `AsWritten.UnqualifiedCallsRejectSignedRequest` | lib/request.js:33-58 | On a freshly signed request the intended entry points accept. The literal ones do not. |
| `AsWritten.ValidateTimestampAsWritten` | lib/request.js:78-93 | Literally, a truthy timestamp that `parseInt` reads as NaN passes the window. |
| `AsWritten.NonNumericTimestampPasses` | lib/request.js:83-86 | With the timestamp "soon", the literal check passes at every clock reading. The intended check fails with TimestampRequired. |

## Findings

| source | as written | input that shows it | evidently intended | confidence | as-written member | corrected member |
|---|---|---|---|---|---|---|
| lib/request.js:29 | `this.auth_hash['auth_signature'] = …` reads through the guarded getter. The block installed at line 23 has no signature yet, so `sign` throws "Request not signed" and leaves an unsigned three-entry block. | any request and token | `sign` installs the complete four-entry block and returns it | high (not executed) | `AsWritten.SignAsWrittenNeverVerifies` | `Requests.Request.Sign` |
| lib/request.js:34-36, 42, 56 | `validate_version()`, `validate_timestamp(…)`, `validate_signature(…)` and `authenticate_by_token_with_exceptions(…)` are called without `this.`, so they throw ReferenceError. `authenticate_by_token` therefore always returns false, and `authenticate` never returns a token. | a freshly signed request with its own token | call the methods on `this` | high (not executed) | `AsWritten.UnqualifiedCallsRejectSignedRequest` | `Requests.AuthenticateByToken` |
| lib/request.js:83-86 | `Math.abs(parseInt(timestamp) - server_time)` is NaN for a non-numeric timestamp. `NaN >= grace` is false, so the window check passes. | `auth_timestamp` = "soon", grace 600, any clock | a timestamp that is not a number fails the check | high (not executed) | `AsWritten.NonNumericTimestampPasses` | `Requests.ValidateTimestamp` |

The corrected `ValidateTimestamp` reports a non-numeric timestamp as
TimestampRequired. The rest of the model uses the corrected definitions.

## Left out

- Assigning a string to the key `__proto__` (lib/request.js:12, also `__PROTO__` after lower-casing) calls `Object.prototype`'s setter, which ignores the string, so JavaScript drops that key. The model stores it like any other key.
- `sign` returns the live `_auth_hash` object (lib/request.js:31), so a caller that later changes the returned block also changes the request. `Request.Sign` returns the block as a value; this aliasing is not modelled.
- `parameter_string` is given only `query_hash`. If it also read the auth block, `AuthBlockNotSigned` and `TimestampNotCovered` would not follow.
- The `typeof` checks on `path` and `query` (lib/request.js:4-5) are implied by Dafny's types. A non-string method is likewise impossible.
- Query values are strings. Arrays or other objects as values, and inherited enumerable properties visited by `for…in`, are not modelled. The input is the sequence of pairs in the order `for…in` visits them.
- Case mapping covers ASCII letters only; full Unicode `toLowerCase` and `toUpperCase` are not modelled.
- `parseInt` does not skip the Unicode space separators beyond those listed in `JsText.IsSpace`.
- Numbers are unbounded integers. The model does not cover IEEE doubles: precision loss above 2^53, the exponent form `String(n)` takes from 10^21, or `-0`.
- JavaScript's loose `==` between a number and a string converts the string to a number (`1 == "1.0"`). The model compares the number's decimal text instead. Only `auth_timestamp` ever holds a number, and it is never compared that way.
- HMAC-SHA256 and `parameter_string` are parameters. The digest's bytes and its 64-hex-character length are not modelled, and neither is the canonicaliser's algorithm. `TamperNeedsCollision` states tamper resistance as "only through an HMAC collision".
- Comparing signatures takes time that depends on the data (a timing side channel). This is not modelled.
- The text of the error messages (lib/request.js:87-90, 97-99) is not modelled. The errors carry the kind, plus the timestamp and server time or the two signatures.
- The resolver's own behaviour (possibly I/O) is not modelled. The implicit globals `key` and `token` (lib/request.js:10, 52) are not modelled either.
- The checks and entry points are functions of `Request.State()`, not methods of the class, because they only read the object.
- `RequestProperties.SignThenVerify` does not cover a clock reading of 0, or a grace of 0 or less passed to the throwing entry point, because the code rejects those: 0 is a falsy timestamp, and a distance of 0 is not below a grace of 0.
- `RequestProperties.SignThenAuthenticateByToken` does not cover a negative grace, because the code rejects every request when the grace is negative.
