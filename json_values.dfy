/**
 * JSON values as the service receives them after decoding, and the Python
 * truthiness test that the ingest path applies to them.
 *
 * An object is a map from keys to values at every nesting level, so two
 * objects that list the same members in a different order are the same value.
 */
module JsonValues {

  datatype Json =
    | Null
    | Bool(b: bool)
    | Int(i: int)
    | Float(r: real)
    | NegativeZero  // the float -0.0: equal to 0.0 as a number, but serialised as "-0.0"
    | Str(s: string)
    | Array(items: seq<Json>)
    | Object(fields: map<string, Json>)

  /** Python's `bool(v)` for a decoded JSON value. */
  predicate Truthy(v: Json) {
    match v
    case Null => false
    case Bool(b) => b
    case Int(i) => i != 0
    case Float(r) => r != 0.0
    case NegativeZero => false
    case Str(s) => s != ""
    case Array(items) => items != []
    case Object(fields) => fields != map[]
  }

  /** The falsy values are exactly None, False, 0, 0.0, -0.0, "", [] and {}. */
  lemma FalsyValues(v: Json)
    ensures !Truthy(v) <==> v in {Null, Bool(false), Int(0), Float(0.0), NegativeZero, Str(""), Array([]), Object(map[])}
  {
  }

  /**
   * A record holding -0.0 is a different value from the same record holding 0.0,
   * as their key-sorted serialisations differ.
   */
  lemma NegativeZeroDistinct(m: map<string, Json>, k: string)
    ensures Object(m[k := NegativeZero]) != Object(m[k := Float(0.0)])
  {
    assert Object(m[k := NegativeZero]).fields[k] != Object(m[k := Float(0.0)]).fields[k];
  }

  /** One `"key": value` member of a JSON object, in document order. */
  type Member = (string, Json)

  /**
   * The dictionary that decoding an object with members `ms` yields: members are
   * inserted in order, and a later member replaces an earlier one with the same key.
   */
  function FromMembers(ms: seq<Member>): (d: map<string, Json>) {
    if ms == [] then map[]
    else FromMembers(ms[..|ms| - 1])[ms[|ms| - 1].0 := ms[|ms| - 1].1]
  }

  predicate DistinctKeys(ms: seq<Member>) {
    forall i, j :: 0 <= i < j < |ms| ==> ms[i].0 != ms[j].0
  }

  /** The keys of the decoded dictionary are the keys that occur among the members. */
  lemma {:induction false} FromMembersKeys(ms: seq<Member>)
    ensures FromMembers(ms).Keys == (set m | m in ms :: m.0)
  {
    if ms != [] {
      var init := ms[..|ms| - 1];
      FromMembersKeys(init);
      assert ms == init + [ms[|ms| - 1]];
    }
  }

  /** With distinct keys, the decoded dictionary holds exactly the listed members. */
  lemma {:induction false} FromMembersHolds(ms: seq<Member>, k: string, v: Json)
    requires DistinctKeys(ms)
    ensures (k in FromMembers(ms) && FromMembers(ms)[k] == v) <==> (k, v) in ms
  {
    if ms != [] {
      var init, last := ms[..|ms| - 1], ms[|ms| - 1];
      assert ms == init + [last];
      FromMembersHolds(init, k, v);
      if k == last.0 {
        assert (k, v) !in init by {
          forall i | 0 <= i < |init| ensures init[i] != (k, v) {
            assert ms[i] == init[i];
          }
        }
      }
    }
  }

  lemma {:induction false} DistinctKeysOnce(ms: seq<Member>, m: Member)
    requires DistinctKeys(ms)
    ensures multiset(ms)[m] <= 1
  {
    if ms != [] {
      var init, last := ms[..|ms| - 1], ms[|ms| - 1];
      assert ms == init + [last];
      assert DistinctKeys(init) by {
        forall i, j | 0 <= i < j < |init| ensures init[i].0 != init[j].0 {
          assert init[i] == ms[i] && init[j] == ms[j];
        }
      }
      DistinctKeysOnce(init, m);
      if last == m {
        assert m !in init by {
          forall i | 0 <= i < |init| ensures init[i] != m { assert init[i] == ms[i]; }
        }
      }
    }
  }

  lemma DistinctMembersDistinctKeys(ms: seq<Member>, m1: Member, m2: Member)
    requires DistinctKeys(ms) && m1 in ms && m2 in ms && m1 != m2
    ensures m1.0 != m2.0
  {
    var a :| 0 <= a < |ms| && ms[a] == m1;
    var b :| 0 <= b < |ms| && ms[b] == m2;
    assert a != b;
  }

  /** Reordering members keeps their keys distinct. */
  lemma DistinctKeysPermuted(ps: seq<Member>, qs: seq<Member>)
    requires DistinctKeys(ps) && multiset(ps) == multiset(qs)
    ensures DistinctKeys(qs)
  {
    forall i, j | 0 <= i < j < |qs| ensures qs[i].0 != qs[j].0 {
      if qs[i] == qs[j] {
        assert qs == qs[..j] + [qs[j]] + qs[j + 1..];
        assert qs[i] in qs[..j];
        DistinctKeysOnce(ps, qs[j]);
      } else {
        assert qs[i] in multiset(ps) && qs[j] in multiset(ps);
        DistinctMembersDistinctKeys(ps, qs[i], qs[j]);
      }
    }
  }

  /**
   * Reordering the members of an object (with no key repeated) yields the same
   * dictionary: the value the service hashes does not depend on member order.
   */
  lemma MemberOrderIrrelevant(ps: seq<Member>, qs: seq<Member>)
    requires DistinctKeys(ps)
    requires multiset(ps) == multiset(qs)
    ensures FromMembers(ps) == FromMembers(qs)
  {
    DistinctKeysPermuted(ps, qs);
    assert forall m :: m in ps <==> m in qs by {
      forall m ensures m in ps <==> m in qs {
        assert m in ps <==> m in multiset(ps);
        assert m in qs <==> m in multiset(qs);
      }
    }
    FromMembersKeys(ps);
    FromMembersKeys(qs);
    var a, b := FromMembers(ps), FromMembers(qs);
    assert a.Keys == b.Keys;
    forall k | k in a ensures a[k] == b[k] {
      FromMembersHolds(ps, k, a[k]);
      FromMembersHolds(qs, k, a[k]);
    }
  }
}
