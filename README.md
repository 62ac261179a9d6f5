# Deduplicating ingest of JSON records, modelled in Dafny

This project models the write path of a small HTTP service (`main.py`). The
service takes a JSON record on `POST /add-data` and checks that it is an object
whose `name` and `email` are present and truthy. It fingerprints the record by
hashing its key-sorted serialisation. It then asks the `unique_data` table
whether that fingerprint is already stored, and inserts the record if it is
not. Each outcome is answered with one fixed JSON response and HTTP code.

Modules, leaf to root:

- `Optional` (optional.dfy): an option type.
- `JsonValues` (json_values.dfy): decoded JSON values and Python truthiness.
  Objects are maps at every nesting level. `FromMembers` builds the dictionary
  a decoder makes from an object's members, in document order.
- `Validator` (validator.dfy): `is_data_valid`. Its loop over the required
  fields becomes the recursive `FieldsPresent`, which stops with false at the
  first missing or falsy field.
- `Hasher` (hasher.dfy): `generate_hash`. The SHA-256 digest of the
  serialisation is a parameter `digest`, an arbitrary function from records to
  64-digit lowercase hex strings. Equal records get equal fingerprints; nothing
  else is assumed, so collisions are not ruled out.
- `RecordStore` (record_store.dfy): the class `Database` holds the table as a
  sequence of `(fingerprint, content)` entries, oldest first. It also holds a
  flag saying whether a connection can be made, and a ghost log of connection
  attempts. Its methods are `is_hash_in_db` and `add_data_to_db`. Whether the
  database raises once connected is a parameter of each call.
- `Ingest` (ingest.dfy): the endpoint. `Handle` is the five-step decision
  procedure written as a function on values. `AddDataEndpoint` runs the same
  steps against a `Database` and is proved to give `Handle`'s response and
  table. The lemmas state the service's guarantees about `Handle`.

Points where the code behaves in a way a reader might not expect, all kept in the model:

- The code declares no uniqueness constraint on `data_hash`, so the table is a
  sequence that could hold repeated fingerprints. `HandlePreservesUniqueHashes`
  shows that requests handled one after another never create a repeat.
- `is_hash_in_db` fails open only when no connection can be made
  (main.py:33-35). An exception raised by the `SELECT` itself is not caught
  (main.py:38-43). It leaves the endpoint, and the framework answers 500 with
  no JSON body. This is the terminal state `Crashed`.
- `add_data_to_db` calls `conn.rollback()` inside its `except` block with no
  handler around it (main.py:63-65). If the rollback raises, that exception
  also leaves the endpoint, and the answer is the same bare 500 (`Crashed`).
- Validation uses Python truthiness (main.py:88). So `0`, `false`, `[]` and `{}`
  are rejected as well as `null` and `""`. Any truthy value is accepted,
  including a number or `true`.
- `json.dumps(..., sort_keys=True)` sorts keys at every nesting level, not only
  at the top. Because objects are maps at every level, key order cannot affect
  a fingerprint anywhere in the model.

## Model

| member | source | states |
|---|---|---|
| `JsonValues.Truthy` | main.py:88 | Python's `bool()` of a decoded JSON value, as applied by `not data_dict[field]` and `not new_data`; -0.0 is falsy |
| `JsonValues.FromMembers` | main.py:98 | the dictionary the JSON decoder builds from an object's members in document order, a later member replacing an earlier one with the same key |
| `JsonValues.FalsyValues` | main.py:88 | the values that `not data_dict[field]` treats as missing are exactly null, false, 0, 0.0, -0.0, "", [] and {} |
| `JsonValues.NegativeZeroDistinct` | main.py:75 | a record holding -0.0 is a different value, so it can get a different fingerprint, from the same record holding 0.0 |
| `JsonValues.MemberOrderIrrelevant` | main.py:74-75 | a member list with no repeated key and any reordering of it decode to the same dictionary |
| `JsonValues.DistinctKeysPermuted` | main.py:74-75 | reordering a member list with no repeated key gives a list with no repeated key |
| `Validator.FieldsPresent` | main.py:86-90 | the loop over the required fields yields true exactly when every listed field is present and truthy |
| `Validator.IsDataValid` | main.py:78-90 | true exactly when the value is an object whose `name` and `email` are both present and truthy; false for every non-object, such as a list or a string |
| `Validator.ValidIsTruthy` | main.py:98-103 | a record that passes validation is a non-empty object, so it is never turned away by the payload check |
| `Validator.ExtraKeysIrrelevant` | main.py:86-90 | adding members other than `name` and `email` never changes the verdict |
| `Hasher.GenerateHash` | main.py:72-76 | `generate_hash`: the digest of the record's key-sorted serialisation, a 64-digit lowercase hex string |
| `Hasher.HashIgnoresMemberOrder` | main.py:72-76 | the fingerprint of a record does not depend on the order in which its members were listed (no key repeated) |
| `RecordStore.HasHash` | main.py:40-41 | the `SELECT ... WHERE data_hash = %s` finds a row: some stored entry has the fingerprint |
| `RecordStore.CountZero` | main.py:40-41 | the lookup finds a row for a fingerprint exactly when the table holds a nonzero number of entries with it |
| `RecordStore.CountAppend` | main.py:56-60 | a committed insert adds one entry with its own fingerprint and none with any other |
| `RecordStore.HasHashAppend` | main.py:40-41 | after an entry is appended, the lookup finds a fingerprint exactly when it was found before or is the new entry's |
| `RecordStore.Database.IsHashInDb` | main.py:31-44 | one connection attempt; without a connection it answers "present" (fail-open); if the query raises, the exception escapes; otherwise it answers whether a stored entry has the fingerprint; the table is unchanged |
| `RecordStore.Database.AddDataToDb` | main.py:46-68 | one connection attempt; returns true exactly when a connection is made and neither execute nor commit raises, and the table then gains exactly the entry (fingerprint, record); when execute or commit raises it rolls back and returns false, unless the rollback raises, in which case that exception escapes; every outcome but success leaves the table unchanged |
| `Ingest.ResponseFor` | main.py:99-124 | the response for each terminal state: 400 "Invalid JSON payload." or 400 "Invalid or missing data. ..." with `error`, 200 `redundant`, 201 `success` with the fingerprint, 500 `error`, and a bare 500 for an escaped exception (main.py:38-43, 63-65); only an accepted record gets 201 and a fingerprint, and only an escaped exception has no JSON body |
| `Ingest.BadBody` | main.py:99 | `not new_data`: the body is absent or falsy |
| `Ingest.ResponsesDistinct` | main.py:98-124 | each terminal state has its own response: distinct states never share a (code, body) pair |
| `Ingest.Handle` | main.py:94-124 | only an accepted request changes the table, by appending the record under its new fingerprint; a request makes no connection attempt exactly when it is rejected as a bad payload or invalid fields; an insert is attempted exactly when the request is accepted, fails to store, or crashes in the rollback (a crash with the lookup raising never attempts one) |
| `Ingest.AddDataEndpoint` | main.py:94-124 | the handler's response, table and connection attempts are those of `Handle` on the table it found; reachability is unchanged |
| `Ingest.RejectedRequestsNeverTouchStore` | main.py:98-104 | an absent or falsy body gives 400 "Invalid JSON payload." and a truthy body that fails validation gives 400 "Invalid or missing data"; both directions hold, and in both cases the store is neither queried nor modified |
| `Ingest.UnreachableStoreFailsOpen` | main.py:107-114 | with no connection, a valid record is answered 200 `redundant`, the only attempt is the lookup, and nothing is inserted |
| `Ingest.LookupRaisesCrashes` | main.py:38-43 | with a connection but a raising `SELECT`, a valid record gets a bare 500 with no JSON body, the lookup is the only attempt, and the table is unchanged |
| `Ingest.DuplicateLeavesStoreUnchanged` | main.py:110-114 | a valid record whose fingerprint is already stored in a reachable store gets 200 `redundant` and leaves the table unchanged |
| `Ingest.AcceptedExactly` | main.py:110-122 | a request is accepted exactly when the record is valid, the store is reachable, the lookup succeeds, the fingerprint is new and the insert commits (both directions) |
| `Ingest.AcceptedAddsOneEntry` | main.py:117-122 | an accepted request is answered 201 "Unique data has been successfully added." carrying `generate_hash(new_data)`, and the table gains exactly one entry, the only one with that fingerprint |
| `Ingest.FailedInsertRollsBack` | main.py:123-124 | when the lookup finds nothing, the insert or commit raises and the rollback goes through, the answer is 500 "Failed to add data to the database." and the table is unchanged |
| `Ingest.FailedRollbackCrashes` | main.py:63-65 | when the insert or commit raises and the rollback raises too, the exception escapes: the answer is 500 with no JSON body and the table is unchanged |
| `Ingest.ResubmissionNeverInserts` | main.py:107-114 | once a record has been accepted, submitting it again leaves the table unchanged and is answered `redundant` unless the lookup raises |
| `Ingest.SubmitTwiceIdempotent` | main.py:107-122 | a new valid record sent twice to a reachable, fault-free store is accepted then redundant, and the table holds exactly one entry with its fingerprint |
| `Ingest.HandlePreservesUniqueHashes` | main.py:109-122 | if no two stored entries share a fingerprint before a request, none do after it, so the table then holds at most one entry per fingerprint |
| `Ingest.HandleOnlyAppends` | main.py:94-124 | a request never removes or changes a stored entry and adds at most one |
| `Ingest.AliceScenario` | main.py:94-124 | posting `{"name":"Alice","email":"a@x.com"}` to an empty store gives 201, posting it again gives 200, and a record without `name` gives 400; the store ends with one entry |
| `Ingest.SubmitTwice` | main.py:94-124 | two calls of the imperative handler with the same new valid record give 201 with the fingerprint, then 200 `redundant`, and leave exactly one entry for it |

## Left out

- Flask routing, `request.get_json`, `jsonify` and `app.run` (main.py:6-12, 94, 127-129) are framework plumbing. The parsed body is an `Option<Json>`, and JSON `null` is `Some(Null)`. For a body that cannot be decoded, Flask's `get_json` answers with its own 400 or 415 error before main.py:99 is reached; the model instead lets `None` stand for it and answers `BadPayload`. The response is a (code, optional JSON body) value.
- `get_db_connection` (main.py:16-29), psycopg2 cursors, SQL text, `conn.close()` and the `.env` configuration are external. The store is the `Database` class. Whether a connection can be made is its `reachable` field. Whether the query, insert or commit raises is a parameter of each call.
- The connection used for the insert is taken to succeed whenever the lookup's did. A connection lost between the two makes `add_data_to_db` return False, as a raising insert does, so `insertRaises` stands for both cases.
- SHA-256 and `json.dumps` (main.py:75) are foreign library calls. The digest of the key-sorted serialisation is the parameter `digest`. The stored content is kept as the decoded value, not as its `json.dumps` text.
- The table's `id` column is not a field; an entry's position in the sequence stands for it.
- JSON numbers are integers or reals. The float -0.0 is its own value, `NegativeZero`, because `json.dumps` writes it differently from 0.0, so a record holding it gets a different fingerprint. NaN and infinities are not modelled.
- Strings are sequences of Unicode characters. The decoder also accepts strings with an unpaired surrogate escape such as `"\ud800"`; these cannot be represented and are not modelled.
- The check-then-insert race between concurrent requests (main.py:110-117) is not modelled: each request is modelled as running alone, from the table the previous request left. The uniqueness lemma holds only for requests handled one after another.
- `print` logging (main.py:28, 61, 64) is left out.
