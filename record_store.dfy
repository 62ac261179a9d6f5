/**
 * The `unique_data` table and the two functions that reach it,
 * `is_hash_in_db` (main.py:31-44) and `add_data_to_db` (main.py:46-68).
 *
 * The table is a sequence of stored entries in insertion order; nothing in the
 * code makes `data_hash` unique, so the sequence may hold several entries with
 * the same fingerprint. Whether a connection can be made is the field
 * `reachable`; an exception raised by the database once connected is a
 * parameter of each operation.
 */
module RecordStore {

  import opened JsonValues
  import opened Hasher

  /** One row of `unique_data`: the fingerprint and the record's content. */
  datatype StoredEntry = StoredEntry(hash: Fingerprint, content: Json)

  /** A connection attempt made by one of the two operations. */
  datatype Access = Select(hash: Fingerprint) | Insert(hash: Fingerprint)

  /** What `is_hash_in_db` does: return an answer, or let the query's exception escape. */
  datatype Lookup = Answer(found: bool) | QueryRaised

  /** What `add_data_to_db` does: return whether it inserted, or let the rollback's exception escape. */
  datatype Insertion = Returned(success: bool) | RollbackRaised

  predicate HasHash(rows: seq<StoredEntry>, h: Fingerprint) {
    exists i :: 0 <= i < |rows| && rows[i].hash == h
  }

  /** The number of stored entries whose fingerprint is `h`. */
  function Count(rows: seq<StoredEntry>, h: Fingerprint): (n: nat) {
    if rows == [] then 0
    else Count(rows[..|rows| - 1], h) + (if rows[|rows| - 1].hash == h then 1 else 0)
  }

  lemma HasHashAppend(rows: seq<StoredEntry>, e: StoredEntry, h: Fingerprint)
    ensures HasHash(rows + [e], h) <==> HasHash(rows, h) || e.hash == h
  {
    var extended := rows + [e];
    if HasHash(rows, h) {
      var i :| 0 <= i < |rows| && rows[i].hash == h;
      assert extended[i] == rows[i];
    }
    if e.hash == h {
      assert extended[|rows|] == e;
    }
  }

  lemma {:induction false} CountZero(rows: seq<StoredEntry>, h: Fingerprint)
    ensures Count(rows, h) == 0 <==> !HasHash(rows, h)
  {
    if rows != [] {
      var init, last := rows[..|rows| - 1], rows[|rows| - 1];
      CountZero(init, h);
      assert rows == init + [last];
      HasHashAppend(init, last, h);
    }
  }

  lemma CountAppend(rows: seq<StoredEntry>, e: StoredEntry, h: Fingerprint)
    ensures Count(rows + [e], h) == Count(rows, h) + (if e.hash == h then 1 else 0)
  {
  }

  /** No two stored entries share a fingerprint. */
  predicate UniqueHashes(rows: seq<StoredEntry>) {
    forall i, j :: 0 <= i < j < |rows| ==> rows[i].hash != rows[j].hash
  }

  lemma {:induction false} UniqueHashesCount(rows: seq<StoredEntry>, h: Fingerprint)
    requires UniqueHashes(rows)
    ensures Count(rows, h) <= 1
  {
    if rows != [] {
      var init, last := rows[..|rows| - 1], rows[|rows| - 1];
      assert UniqueHashes(init) by {
        forall i, j | 0 <= i < j < |init| ensures init[i].hash != init[j].hash {
          assert init[i] == rows[i] && init[j] == rows[j];
        }
      }
      UniqueHashesCount(init, h);
      if last.hash == h {
        assert !HasHash(init, h) by {
          forall i | 0 <= i < |init| ensures init[i].hash != h {
            assert init[i] == rows[i];
          }
        }
        CountZero(init, h);
      }
    }
  }

  class Database {
    /** The rows of `unique_data`, oldest first; a row's position stands for its `id`. */
    var rows: seq<StoredEntry>
    /** Whether `get_db_connection` succeeds. */
    var reachable: bool
    /** Every connection attempt made so far, in order. */
    ghost var accesses: seq<Access>

    constructor (initial: seq<StoredEntry>, up: bool)
      ensures rows == initial && reachable == up && accesses == []
    {
      rows, reachable := initial, up;
      accesses := [];
    }

    /**
     * Looks `h` up. Without a connection it fails open and reports the hash as
     * present; an exception raised by the query is not caught.
     */
    method IsHashInDb(h: Fingerprint, queryRaises: bool) returns (r: Lookup)
      modifies this`accesses
      ensures accesses == old(accesses) + [Select(h)]
      ensures !reachable ==> r == Answer(true)
      ensures reachable && queryRaises ==> r == QueryRaised
      ensures reachable && !queryRaises ==> r == Answer(HasHash(rows, h))
    {
      accesses := accesses + [Select(h)];
      if !reachable {
        return Answer(true);
      }
      if queryRaises {
        return QueryRaised;
      }
      var found := HasHash(rows, h);
      return Answer(found);
    }

    /**
     * Inserts `(h, content)` in one transaction. It returns true exactly when a
     * connection is made and neither the insert nor the commit raises. When one
     * of them raises, the transaction is rolled back and false is returned,
     * unless the rollback itself raises, in which case that exception escapes.
     * The table is changed only by a commit.
     */
    method AddDataToDb(h: Fingerprint, content: Json, insertRaises: bool, rollbackRaises: bool) returns (r: Insertion)
      modifies this`rows, this`accesses
      ensures accesses == old(accesses) + [Insert(h)]
      ensures r == Returned(true) <==> reachable && !insertRaises
      ensures r == RollbackRaised <==> reachable && insertRaises && rollbackRaises
      ensures rows == if r == Returned(true) then old(rows) + [StoredEntry(h, content)] else old(rows)
    {
      accesses := accesses + [Insert(h)];
      if !reachable {
        return Returned(false);
      }
      var success := false;
      var pending := rows + [StoredEntry(h, content)];
      if !insertRaises {
        rows := pending;
        success := true;
      } else if rollbackRaises {
        return RollbackRaised;
      }
      return Returned(success);
    }
  }
}
