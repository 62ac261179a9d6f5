/**
 * The endpoint `add_data_endpoint` (main.py:94-124): parse, validate, hash,
 * check for a duplicate, insert, and answer with one response per outcome.
 *
 * `Handle` is the decision procedure on values: from the request body, the
 * table, the store's reachability and the database's faults it gives the
 * terminal state, the new table and the connection attempts made.
 * `AddDataEndpoint` runs the same steps against a `Database` object.
 */
module Ingest {

  import opened Optional
  import opened JsonValues
  import opened Validator
  import opened Hasher
  import opened RecordStore

  /** Which database calls raise once a connection is made. */
  datatype Faults = Faults(queryRaises: bool, insertRaises: bool, rollbackRaises: bool)

  datatype Status = Success | Redundant | Error

  /** The JSON object returned by `jsonify`. */
  datatype Body = Body(status: Status, message: string, hash: Option<Fingerprint>)

  /** An HTTP response; `body` is None when an exception escaped the endpoint. */
  datatype Response = Response(code: int, body: Option<Body>)

  /** The endpoint's terminal states. */
  datatype Terminal =
    | BadPayload
    | InvalidFields
    | Duplicate
    | Accepted(hash: Fingerprint)
    | StorageFailure
    | Crashed  // an exception from the lookup or the rollback reaches the framework, which answers 500

  datatype Outcome = Outcome(terminal: Terminal, rows: seq<StoredEntry>, accesses: seq<Access>)

  /**
   * The response each terminal state is answered with: only an accepted record
   * gets 201 and a fingerprint, and only an escaped exception has no JSON body.
   */
  function ResponseFor(t: Terminal): (r: Response)
    ensures r.code == 201 <==> t.Accepted?
    ensures r.body.None? <==> t == Crashed
    ensures r.body.Some? ==> (r.body.value.hash.Some? <==> t.Accepted?)
    ensures t.Accepted? ==> r.body.value.status == Success && r.body.value.hash == Some(t.hash)
    ensures r.code == 400 <==> t == BadPayload || t == InvalidFields
    ensures r.code == 500 <==> t == StorageFailure || t == Crashed
  {
    match t
    case BadPayload =>
      Response(400, Some(Body(Error, "Invalid JSON payload.", None)))
    case InvalidFields =>
      Response(400, Some(Body(Error, "Invalid or missing data. 'name' and 'email' are required.", None)))
    case Duplicate =>
      Response(200, Some(Body(Redundant, "This exact data already exists in the database.", None)))
    case Accepted(h) =>
      Response(201, Some(Body(Success, "Unique data has been successfully added.", Some(h))))
    case StorageFailure =>
      Response(500, Some(Body(Error, "Failed to add data to the database.", None)))
    case Crashed =>
      Response(500, None)
  }

  /** Distinct terminal states are answered with distinct responses. */
  lemma ResponsesDistinct(t1: Terminal, t2: Terminal)
    ensures ResponseFor(t1) == ResponseFor(t2) ==> t1 == t2
  {
  }

  /** A body that is absent or falsy fails the payload check. */
  predicate BadBody(body: Option<Json>) {
    body.None? || !Truthy(body.value)
  }

  /**
   * The decision procedure. Only a success changes the table, by appending the
   * record under its fingerprint; a request rejected before hashing makes no
   * connection attempt, and every other request makes at least the lookup.
   */
  function Handle(digest: Digest, body: Option<Json>, rows: seq<StoredEntry>, reachable: bool, faults: Faults): (o: Outcome)
    ensures o.terminal.Accepted? ==>
              && body.Some?
              && o.terminal.hash == GenerateHash(digest, body.value)
              && o.rows == rows + [StoredEntry(o.terminal.hash, body.value)]
              && !HasHash(rows, o.terminal.hash)
    ensures !o.terminal.Accepted? ==> o.rows == rows
    ensures o.accesses == [] <==> o.terminal == BadPayload || o.terminal == InvalidFields
    ensures (exists h :: Insert(h) in o.accesses) <==>
              o.terminal.Accepted? || o.terminal == StorageFailure || (o.terminal == Crashed && !faults.queryRaises)
  {
    if BadBody(body) then
      Outcome(BadPayload, rows, [])
    else if !IsDataValid(body.value) then
      Outcome(InvalidFields, rows, [])
    else
      var h := GenerateHash(digest, body.value);
      if !reachable then Outcome(Duplicate, rows, [Select(h)])
      else if faults.queryRaises then Outcome(Crashed, rows, [Select(h)])
      else if HasHash(rows, h) then Outcome(Duplicate, rows, [Select(h)])
      else if faults.insertRaises && faults.rollbackRaises then Outcome(Crashed, rows, [Select(h), Insert(h)])
      else if faults.insertRaises then Outcome(StorageFailure, rows, [Select(h), Insert(h)])
      else Outcome(Accepted(h), rows + [StoredEntry(h, body.value)], [Select(h), Insert(h)])
  }

  /**
   * The request handler. Its response and the table it leaves are those of
   * `Handle` on the table it found.
   */
  method AddDataEndpoint(db: Database, digest: Digest, body: Option<Json>, faults: Faults) returns (resp: Response)
    modifies db
    ensures var o := Handle(digest, body, old(db.rows), old(db.reachable), faults);
            && resp == ResponseFor(o.terminal)
            && db.rows == o.rows
            && db.accesses == old(db.accesses) + o.accesses
    ensures db.reachable == old(db.reachable)
  {
    // 1. the request body
    var newData := body;
    if BadBody(newData) {
      return ResponseFor(BadPayload);
    }
    // 2. validation
    if !IsDataValid(newData.value) {
      return ResponseFor(InvalidFields);
    }
    // 3. fingerprint
    var dataHash := GenerateHash(digest, newData.value);
    // 4. redundancy check
    var lookup := db.IsHashInDb(dataHash, faults.queryRaises);
    if lookup.QueryRaised? {
      return ResponseFor(Crashed);
    }
    if lookup.found {
      return ResponseFor(Duplicate);
    }
    // 5. insert
    var added := db.AddDataToDb(dataHash, newData.value, faults.insertRaises, faults.rollbackRaises);
    if added.RollbackRaised? {
      return ResponseFor(Crashed);
    }
    if added.success {
      return ResponseFor(Accepted(dataHash));
    } else {
      return ResponseFor(StorageFailure);
    }
  }

  // ----- Properties of the decision procedure -----

  /**
   * Requests that fail the payload or field check are answered 400 and never
   * reach the store; every other request does reach it.
   */
  lemma RejectedRequestsNeverTouchStore(digest: Digest, body: Option<Json>, rows: seq<StoredEntry>, reachable: bool, faults: Faults)
    ensures var o := Handle(digest, body, rows, reachable, faults);
            && (o.terminal == BadPayload <==> BadBody(body))
            && (o.terminal == InvalidFields <==> !BadBody(body) && !IsDataValid(body.value))
            && (o.accesses == [] <==> BadBody(body) || !IsDataValid(body.value))
            && (o.accesses == [] ==> o.rows == rows && ResponseFor(o.terminal).code == 400)
  {
  }

  /** Fail-open: an unreachable store answers 200 `redundant` and nothing is inserted. */
  lemma UnreachableStoreFailsOpen(digest: Digest, body: Option<Json>, rows: seq<StoredEntry>, faults: Faults)
    requires body.Some? && IsDataValid(body.value)
    ensures var o := Handle(digest, body, rows, false, faults);
            && o.terminal == Duplicate
            && o.rows == rows
            && o.accesses == [Select(GenerateHash(digest, body.value))]
            && ResponseFor(o.terminal).code == 200
            && ResponseFor(o.terminal).body.value.status == Redundant
  {
  }

  /**
   * A query that raises once connected is not caught: the framework answers 500
   * with no JSON body, the lookup is the only attempt, and nothing is inserted.
   */
  lemma LookupRaisesCrashes(digest: Digest, body: Option<Json>, rows: seq<StoredEntry>, faults: Faults)
    requires body.Some? && IsDataValid(body.value) && faults.queryRaises
    ensures var o := Handle(digest, body, rows, true, faults);
            && o.terminal == Crashed
            && o.rows == rows
            && o.accesses == [Select(GenerateHash(digest, body.value))]
            && ResponseFor(o.terminal) == Response(500, None)
  {
  }

  /** A record whose fingerprint is already stored is answered 200 `redundant` and changes nothing. */
  lemma DuplicateLeavesStoreUnchanged(digest: Digest, body: Option<Json>, rows: seq<StoredEntry>, faults: Faults)
    requires body.Some? && IsDataValid(body.value)
    requires !faults.queryRaises && HasHash(rows, GenerateHash(digest, body.value))
    ensures var o := Handle(digest, body, rows, true, faults);
            && o.terminal == Duplicate
            && o.rows == rows
            && ResponseFor(o.terminal) == Response(200, Some(Body(Redundant, "This exact data already exists in the database.", None)))
  {
  }

  /**
   * A request is accepted exactly when the record is valid, the store is
   * reachable, the lookup answers, the fingerprint is new and the insert commits.
   */
  lemma AcceptedExactly(digest: Digest, body: Option<Json>, rows: seq<StoredEntry>, reachable: bool, faults: Faults)
    ensures Handle(digest, body, rows, reachable, faults).terminal.Accepted? <==>
              && body.Some? && IsDataValid(body.value)
              && reachable && !faults.queryRaises && !faults.insertRaises
              && !HasHash(rows, GenerateHash(digest, body.value))
  {
  }

  /**
   * An accepted request is answered 201 `success` with the record's
   * fingerprint, and the table gains exactly one entry with that fingerprint.
   */
  lemma AcceptedAddsOneEntry(digest: Digest, body: Option<Json>, rows: seq<StoredEntry>, reachable: bool, faults: Faults)
    requires Handle(digest, body, rows, reachable, faults).terminal.Accepted?
    ensures var o := Handle(digest, body, rows, reachable, faults);
            && ResponseFor(o.terminal) == Response(201, Some(Body(Success, "Unique data has been successfully added.", Some(GenerateHash(digest, body.value)))))
            && |o.rows| == |rows| + 1
            && Count(o.rows, o.terminal.hash) == 1
  {
    var o := Handle(digest, body, rows, reachable, faults);
    CountAppend(rows, StoredEntry(o.terminal.hash, body.value), o.terminal.hash);
    CountZero(rows, o.terminal.hash);
  }

  /**
   * A failed insert (the lookup found nothing, the insert or commit raised and
   * the rollback went through) is answered 500 `error` and leaves the table as it was.
   */
  lemma FailedInsertRollsBack(digest: Digest, body: Option<Json>, rows: seq<StoredEntry>, faults: Faults)
    requires body.Some? && IsDataValid(body.value)
    requires !faults.queryRaises && faults.insertRaises && !faults.rollbackRaises
    requires !HasHash(rows, GenerateHash(digest, body.value))
    ensures var o := Handle(digest, body, rows, true, faults);
            && o.terminal == StorageFailure
            && o.rows == rows
            && ResponseFor(o.terminal) == Response(500, Some(Body(Error, "Failed to add data to the database.", None)))
  {
  }

  /**
   * When the insert or commit raises and the rollback raises too, the
   * exception leaves the endpoint: the framework answers 500 with no JSON body,
   * and the table is unchanged.
   */
  lemma FailedRollbackCrashes(digest: Digest, body: Option<Json>, rows: seq<StoredEntry>, faults: Faults)
    requires body.Some? && IsDataValid(body.value)
    requires !faults.queryRaises && faults.insertRaises && faults.rollbackRaises
    requires !HasHash(rows, GenerateHash(digest, body.value))
    ensures var o := Handle(digest, body, rows, true, faults);
            && o.terminal == Crashed
            && o.rows == rows
            && ResponseFor(o.terminal) == Response(500, None)
  {
  }

  /**
   * Once a record has been accepted, submitting it again never inserts:
   * the answer is `redundant` unless the lookup itself raises.
   */
  lemma ResubmissionNeverInserts(digest: Digest, body: Option<Json>, rows: seq<StoredEntry>, reachable: bool, faults1: Faults, faults2: Faults)
    requires Handle(digest, body, rows, reachable, faults1).terminal.Accepted?
    ensures var o1 := Handle(digest, body, rows, reachable, faults1);
            var o2 := Handle(digest, body, o1.rows, reachable, faults2);
            && o2.rows == o1.rows
            && (o2.terminal == Duplicate || o2.terminal == Crashed)
            && (!faults2.queryRaises ==> o2.terminal == Duplicate)
  {
    var o1 := Handle(digest, body, rows, reachable, faults1);
    var h := o1.terminal.hash;
    assert o1.rows[|rows|].hash == h;
    assert HasHash(o1.rows, h);
  }

  /**
   * Idempotence: with a reachable store and no database errors, a new valid
   * record submitted twice is accepted the first time and redundant the second,
   * and the table then holds exactly one entry with its fingerprint.
   */
  lemma SubmitTwiceIdempotent(digest: Digest, record: Json, rows: seq<StoredEntry>)
    requires IsDataValid(record)
    requires !HasHash(rows, GenerateHash(digest, record))
    ensures var h := GenerateHash(digest, record);
            var o1 := Handle(digest, Some(record), rows, true, Faults(false, false, false));
            var o2 := Handle(digest, Some(record), o1.rows, true, Faults(false, false, false));
            && o1.terminal == Accepted(h)
            && o2.terminal == Duplicate
            && o2.rows == rows + [StoredEntry(h, record)]
            && Count(o2.rows, h) == 1
  {
    AcceptedAddsOneEntry(digest, Some(record), rows, true, Faults(false, false, false));
    ResubmissionNeverInserts(digest, Some(record), rows, true, Faults(false, false, false), Faults(false, false, false));
  }

  /**
   * Requests handled one after another never store two entries with the same
   * fingerprint: a table with at most one entry per fingerprint keeps that property.
   */
  lemma HandlePreservesUniqueHashes(digest: Digest, body: Option<Json>, rows: seq<StoredEntry>, reachable: bool, faults: Faults)
    requires UniqueHashes(rows)
    ensures UniqueHashes(Handle(digest, body, rows, reachable, faults).rows)
    ensures forall h :: Count(Handle(digest, body, rows, reachable, faults).rows, h) <= 1
  {
    var o := Handle(digest, body, rows, reachable, faults);
    forall h ensures Count(o.rows, h) <= 1 {
      UniqueHashesCount(o.rows, h);
    }
  }

  /** The table only grows, by at most one entry per request. */
  lemma HandleOnlyAppends(digest: Digest, body: Option<Json>, rows: seq<StoredEntry>, reachable: bool, faults: Faults)
    ensures var o := Handle(digest, body, rows, reachable, faults);
            && |rows| <= |o.rows| <= |rows| + 1
            && o.rows[..|rows|] == rows
  {
  }

  /** The worked example: Alice is accepted, then redundant; a record without `name` is rejected. */
  lemma AliceScenario(digest: Digest)
    ensures var alice := Object(map["name" := Str("Alice"), "email" := Str("a@x.com")]);
            var h := GenerateHash(digest, alice);
            var o1 := Handle(digest, Some(alice), [], true, Faults(false, false, false));
            var o2 := Handle(digest, Some(alice), o1.rows, true, Faults(false, false, false));
            var o3 := Handle(digest, Some(Object(map["email" := Str("a@x.com")])), o2.rows, true, Faults(false, false, false));
            && ResponseFor(o1.terminal).code == 201
            && ResponseFor(o2.terminal).code == 200
            && ResponseFor(o3.terminal).code == 400
            && o3.rows == [StoredEntry(h, alice)]
  {
    var alice := Object(map["name" := Str("Alice"), "email" := Str("a@x.com")]);
    SubmitTwiceIdempotent(digest, alice, []);
  }

  // ----- The same property for the imperative handler -----

  /**
   * Two consecutive requests carrying the same new valid record against a
   * reachable store: 201 with the fingerprint, then 200 `redundant`, and one
   * entry for that fingerprint in the table.
   */
  method SubmitTwice(db: Database, digest: Digest, record: Json) returns (first: Response, second: Response)
    requires db.reachable && IsDataValid(record)
    requires !HasHash(db.rows, GenerateHash(digest, record))
    modifies db
    ensures first.code == 201 && first.body == Some(Body(Success, "Unique data has been successfully added.", Some(GenerateHash(digest, record))))
    ensures second == Response(200, Some(Body(Redundant, "This exact data already exists in the database.", None)))
    ensures db.rows == old(db.rows) + [StoredEntry(GenerateHash(digest, record), record)]
    ensures Count(db.rows, GenerateHash(digest, record)) == 1
  {
    SubmitTwiceIdempotent(digest, record, db.rows);
    first := AddDataEndpoint(db, digest, Some(record), Faults(false, false, false));
    second := AddDataEndpoint(db, digest, Some(record), Faults(false, false, false));
  }
}
