# Certified variables: user store and response verification

This project models a small Internet Computer example in Dafny. It has two sides.

- **The canister** keeps a `u64` counter and a two-level map. The map sends `"user"` to an inner map, which sends an 8-byte big-endian index to a `User` (a name and an age byte).
  - `set_user` assigns the next index, stores the record under it and publishes the root hash of the whole map as the canister's certified data.
  - `get_user` returns the record, the platform's data certificate and a CBOR witness for the path `["user", be(index)]`.
- **Three clients** check such a response against the certificate.
  - The enforcing Rust client, `verify_query_response`, panics at the first check that fails.
  - The report-only Rust client runs the same lookups in the body of `main`. It only prints the signature, time, digest and value comparisons.
  - The JavaScript client, `verifyCertificate`, throws on a bad signature, an undecodable blob, a missing lookup or a value mismatch. It only logs the time and root-hash comparisons.

Modules:

- `Common` holds `Option`, `Result`, bytes and `u64`.
- `ByteOrder` covers big-endian encoding: `u64::to_be_bytes`, and the low-order bytes of an arbitrary integer.
- `Ic` holds the hash tree, the lookup result, the certificate and the client-side library.
- `Layout` holds the `User` record, the response and the paths.
- `Store` holds the canister. This is the class `UserStore` together with the pure functions that specify it.
- `Checks` states each check on its own. It also defines `FirstFailing`, the reference reading of a short-circuiting pipeline.
- `EnforcedClient`, `ReportClient` and `JsClient` model the three clients.
- `EndToEnd` relates the canister to the clients, and the clients to one another.

Libraries that live outside this repository are carried as function-valued fields: `Ic.Library` on the client side and `Store.CertifiedMap` on the canister side. Those libraries are certificate decoding, BLS verification, the certificate-time check, hash-tree lookup and digest, CBOR, and the ordered map's root hash and witnesses. Whatever the code relies on about them appears as a `requires` clause, stated at the concrete values involved, with two exceptions. A leaf's digest is `leaf_hash` of its bytes for every byte string. The witness's digest equals the root hash only on condition that every record's `root_hash` and `as_hash_tree` agree.

Each client is proved equal to its own order of checks:

- The enforcing client rejects with exactly the first failing check of `EnforcedOrder`. Otherwise it returns the response's value.
- The report-only client aborts at the first failing check of `ReportOrder`. Otherwise it prints the four comparisons as they came out.
- The JavaScript client throws at the first failing check of `JsOrder`. Otherwise it returns the user.

The enforcing client aborts at every failed check. The report-only Rust client finishes normally when the signature, time, digest or value comparison fails (`ReportClient.ReportOutcome`). The JavaScript client returns the user when the witness digest differs from the certified data, and it only logs the result of its own `verifyTime` (`EndToEnd.JsMissesDigestAndTime`).

`Store.AliceThenBob` is a worked example: two records stored on a fresh canister are assigned indices 1 and 2 and read back under them.

## Model

| member | source | states |
|---|---|---|
| `Store.UserRootHash` | src/cert_var_backend/src/lib.rs:16-19 | `root_hash` of a record is `leaf_hash` of its CBOR encoding; `UserViewsAgree` proves it is the digest of the record's `as_hash_tree` |
| `Store.UserAsHashTree` | src/cert_var_backend/src/lib.rs:20-22 | `as_hash_tree` of a record is the leaf holding its CBOR encoding; `HonestResponseVerifies` requires the witness to reveal exactly this leaf |
| `Store.WitnessBytes` | src/cert_var_backend/src/lib.rs:76-85 | the witness `get_user` returns is the CBOR encoding of the nested witness for exactly `["user", be(index)]` |
| `Store.UserViewsAgree` | src/cert_var_backend/src/lib.rs:15-23 | a `User`'s tree is the leaf holding its CBOR, and when the leaf-hash function is the tree digest of a leaf, its root hash is that tree's digest |
| `Store.NextIndex` | src/cert_var_backend/src/lib.rs:39-43 | the next index is the last one plus one, wrapping from 2^64-1 to 0 |
| `Store.InsertUser` | src/cert_var_backend/src/lib.rs:45-57 | after the insert the tree has the `"user"` label and no other new one; a missing `"user"` map becomes exactly the one new entry; an existing one gains the key and keeps every other entry |
| `Store.LookupUser` | src/cert_var_backend/src/lib.rs:67-74 | the read succeeds exactly when `"user"` exists and holds the index's key, returns the record stored there, and otherwise fails with "Tree isn't initialized" or "User not found" as the case is |
| `Store.SetUserStep` | src/cert_var_backend/src/lib.rs:38-61 | after one `set_user` the new index reads back the stored user and every other index reads as before |
| `Store.ReplayAssignsConsecutiveIndices` | src/cert_var_backend/src/lib.rs:33-60 | from a fresh canister, n calls hand out 1..n: the counter is n, index i reads back the i-th record, no other index holds one, and only `"user"` is a label |
| `Store.UserStore.constructor` | src/cert_var_backend/src/lib.rs:32-35 | the counter starts at 0, the map empty, the certified data empty |
| `Store.UserStore.SetUser` | src/cert_var_backend/src/lib.rs:37-61 | returns the new counter value, inserts the record under its big-endian key, sets certified data to the root hash of the updated map, and keeps the store equal to a replay of all calls |
| `Store.UserStore.GetUser` | src/cert_var_backend/src/lib.rs:63-92 | succeeds exactly when a certificate is available and the record exists; returns that record, the certificate and a witness for `["user", be(index)]`; otherwise fails with the first of "No data certificate", "Tree isn't initialized", "User not found"; changes no state |
| `Layout.UserPath` | src/cert_verify_rust/src/main.rs:102 | the record path has two elements, the label `"user"` and an 8-byte key that reads back big-endian as the index; the enforcing client (main.rs:102), the report-only client (cert_verify main.rs:128) and the JavaScript client (index.js:101) all verify this path |
| `Layout.CertifiedDataPath` | src/cert_verify_rust/src/main.rs:147-150 | the certified-data path is `["canister", id, "certified_data"]` with the canister's id in the middle and is never a record path; all three clients look it up (cert_verify main.rs:105-109, index.js:86-90) |
| `ByteOrder.ToBeBytes` | src/cert_var_backend/src/lib.rs:49 | `u64::to_be_bytes`: byte k is the k-th most significant byte of the index; `ToBeBytesRoundTrip` and `ToBeBytesInjective` state its properties |
| `Layout.UserKey` | src/cert_var_backend/src/lib.rs:49-54 | the inner key is 8 bytes and reads back, big-endian, as the index |
| `Layout.UserPathInjective` | src/cert_var_backend/src/lib.rs:49-54 | two indices give the same `["user", key]` path exactly when they are equal, so no record overwrites another |
| `ByteOrder.ToBeBytesRoundTrip` | src/cert_var_backend/src/lib.rs:49 | `to_be_bytes` gives 8 bytes that read back as the same `u64` |
| `ByteOrder.ToBeBytesInjective` | src/cert_var_backend/src/lib.rs:54 | two `u64`s have the same big-endian bytes exactly when they are equal |
| `ByteOrder.LowBytesAt` | src/cert_verify_js/index.js:130-133 | byte k of the encoding is `(n >> 8*(width-1-k)) & 0xFF`, most significant first |
| `ByteOrder.LowBytesRoundTrip` | src/cert_verify_js/index.js:130-133 | reading the bytes back big-endian gives `n` modulo 256^width |
| `ByteOrder.LowBytesKeepsLow64` | src/cert_verify_js/index.js:127-135 | the 8 low-order bytes of any integer are Rust's `to_be_bytes` of that integer modulo 2^64 |
| `JsClient.BigEndian` | src/cert_verify_js/index.js:127-135 | the loop returns exactly 8 bytes, equal to `to_be_bytes(n mod 2^64)`, reading back as `n mod 2^64` |
| `JsClient.QueryParams` | src/cert_verify_js/index.js:101 | the witness path `["user", bigEndian(index)]` is the store's path for `index` modulo 2^64, the same one the Rust clients verify |
| `JsClient.VerifyCertificate` | src/cert_verify_js/index.js:67-110 | returns the user exactly when decoding, the signature, witness decoding, the certified-data lookup, the user lookup at `["user", bigEndian(index)]`, value decoding and deep equality all pass; otherwise throws at the first of these that fails |
| `EndToEnd.VerifiedPathNamesStoredRecord` | src/cert_verify_rust/src/main.rs:102 | the path `main` verifies, `["user", index.to_be_bytes()]`, is the store's path for that index, and after a `set_user` that returned `index` its key holds exactly the record passed in |
| `EnforcedClient.VerifyQueryResponse` | src/cert_verify_rust/src/main.rs:108-184 | whatever it returns is the response's own value |
| `EnforcedClient.EnforcedRejectsAt` | src/cert_verify_rust/src/main.rs:119-180 | when every step before a given one passes and that step fails, verification panics at that step and no later step matters |
| `EnforcedClient.EnforcedAccepts` | src/cert_verify_rust/src/main.rs:182-183 | when every step passes, the response's value is returned |
| `EnforcedClient.EnforcedOutcome` | src/cert_verify_rust/src/main.rs:119-183 | the result is exactly a rejection at the first failing check in the order certificate, clock, signature, time (5-minute bound), certified-data lookup, 32 bytes, witness decoding, digest, value lookup, value decoding, value equality, or the value when none fails |
| `Checks.Holds` | src/cert_verify_rust/src/main.rs:119-180 | each check on its own: the certificate decodes, the clock is after the epoch, the signature verifies, the time is within 5 minutes, certified data is Found and 32 bytes, the witness decodes, its digest equals the certified data, the path is Found, its bytes decode, and decode to the returned value |
| `Checks.FirstFailing` | src/cert_verify_rust/src/main.rs:128-180 | nothing is reported exactly when every check of the order holds; a reported check fails and every check before it holds |
| `Checks.FirstFailingAt` | src/cert_verify_rust/src/main.rs:128-180 | a pipeline whose checks pass up to a failing one reports exactly that one |
| `ReportClient.QueryIndex` | src/cert_verify/src/main.rs:71-72 | the queried index lies in 1..=5 |
| `ReportClient.QueriedIndexWasAssigned` | src/cert_verify/src/main.rs:53-72 | after five `set_user` calls on a fresh canister, the queried index reads back one of the five records |
| `ReportClient.CheckReport` | src/cert_verify/src/main.rs:83-137 | a report carries the response's user |
| `ReportClient.ReportRejectsAt` | src/cert_verify/src/main.rs:83-131 | the block panics at a decode, the clock, "Certified data not found", the 32-byte conversion or "user {index} not found" when that is the first to fail |
| `ReportClient.ReportAccepts` | src/cert_verify/src/main.rs:92-137 | when nothing aborts, the block prints the signature, time, digest and value comparisons as they came out |
| `ReportClient.ReportOutcome` | src/cert_verify/src/main.rs:83-137 | the block aborts exactly at the first failing check of its aborting checks; signature, time, digest and value failures never abort it |
| `EndToEnd.HonestResponseVerifies` | src/cert_verify_rust/src/main.rs:93-104 | a `get_user` response for a stored record is accepted with that record when the certificate certifies the canister's root hash, the witness round-trips through CBOR and reveals the record's `as_hash_tree` leaf, and the leaf digest is `leaf_hash`; the witness's digest equals the root hash through the record's `root_hash`/`as_hash_tree` agreement (lib.rs:15-23) |
| `EndToEnd.ServeAndVerify` | src/cert_verify_rust/src/main.rs:93-104 | `get_user` on the store followed by verification of the path from line 102 returns the stored record, under the same library guarantees as `HonestResponseVerifies` |
| `EndToEnd.AcceptedMeansCertified` | src/cert_verify_rust/src/main.rs:128-183 | an accepted value comes with a verified, fresh certificate for 32 bytes of certified data, a witness with exactly that digest, and that value decoded at the queried path |
| `EndToEnd.TamperedValueRejected` | src/cert_verify_rust/src/main.rs:175-180 | replacing the value of an accepted response with any other value is rejected at the value comparison |
| `EndToEnd.CleanReportIffAccepted` | src/cert_verify/src/main.rs:92-136 | the report-only client prints four `true`s exactly when the enforcing client accepts the same response |
| `EndToEnd.EnforcedAcceptanceGivesJsAcceptance` | src/cert_verify_js/index.js:67-110 | a response the enforcing client accepts for an index is accepted by the JavaScript client for that index |
| `EndToEnd.JsMissesDigestAndTime` | src/cert_verify_js/index.js:79-98 | a response that passes the JavaScript client's throwing checks but whose witness digest differs from the certified data, or whose certificate fails the Rust time check, is accepted there (its own `verifyTime` is only logged) and rejected by the enforcing client |

## Left out

- RPC: the agent, `fetch_root_key`, the `update`/`query` calls, `join_all` and the random test users are network I/O and concurrency. The root key, canister id, responses and the clock are parameters instead.
- `ReportClient.QueryIndex` takes the random `u64` as a parameter. The index choice in the enforcing client's `main` (an element of the returned indices) is not part of this model.
- BLS verification, SHA-256, hash-tree digest, lookup and pruning, `RbTree` balancing, `witness`/`nested_witness` and `validate_certificate_time` are library internals. They are function-valued fields whose behaviour is assumed only where a lemma's `requires` says so.
- Both clients' signature checks are the same abstract `verify`. Whatever additional age check the JavaScript library performs inside `verify` is not modelled separately.
- `EndToEnd.JsMissesDigestAndTime`: its stale-certificate case assumes a JavaScript library whose `verify` performs no age check of its own; the digest case holds whatever the library does.
- CBOR (including the self-describe tag 55799) and Candid encoding and decoding are abstract functions. Their round trips appear only as `requires` clauses of `EndToEnd.HonestResponseVerifies` and `EndToEnd.ServeAndVerify`.
- `set_certified_data` is the field write `certifiedData`, and `data_certificate` is an optional input of `GetUser`. Certified data is empty until the first `set_user`.
- `thread_local!`/`RefCell` borrowing and the `Cell` mechanics are not modelled. The store is one object.
- `Store.NextIndex`: the counter wraps from 2^64-1 to 0 as in a release build. The debug-build overflow trap is not modelled. The consecutive-index lemma is stated for fewer than 2^64 calls.
- `verifyTime` uses floating point and a 5-second bound, and its result is only logged. It is left out, and so is any exception it raises when the certificate has no time.
- The `===` comparison of two `ArrayBuffer`s in `verifyCertificate` compares object identity and is only logged. It is left out. `reconstruct` is the abstract digest.
- `JsClient.VerifyCertificate`: a certified-data lookup that is not `Found` leaves `.value` undefined, and reading `.buffer` from it throws. This is modelled as an abort after witness decoding. Other JavaScript exceptions inside the library calls are folded into the decode checks.
- The lookup's `Absent`, `Unknown` and `Error` outcomes are distinguished only by not being `Found`; every client treats them alike.
- Certificate delegation is carried inside the certificate and checked only by the abstract `verify`.
- A trap in `get_user` is modelled as an error result. The canister's rollback of a trapped call is not modelled, since `get_user` changes no state.
