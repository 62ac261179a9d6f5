/**
 * The fingerprint `generate_hash` (main.py:72-76). The SHA-256 digest of the
 * key-sorted serialisation is a parameter `digest` of the model: any function
 * from records to 64-digit lowercase hexadecimal strings. Nothing is assumed of
 * it beyond being a function, so equal records get equal fingerprints and
 * different records may or may not collide.
 */
module Hasher {

  import opened JsonValues

  predicate IsHexDigest(s: string) {
    |s| == 64 && forall i :: 0 <= i < |s| ==> s[i] in "0123456789abcdef"
  }

  /** A SHA-256 hex digest, as `hexdigest()` renders it. */
  type Fingerprint = s: string | IsHexDigest(s)
    witness seq(64, _ => '0')

  type Digest = Json -> Fingerprint

  function GenerateHash(digest: Digest, record: Json): (h: Fingerprint) {
    digest(record)
  }

  /**
   * Serialising with sorted keys makes the fingerprint independent of the order
   * in which the request listed the record's members.
   */
  lemma HashIgnoresMemberOrder(digest: Digest, ps: seq<Member>, qs: seq<Member>)
    requires DistinctKeys(ps)
    requires multiset(ps) == multiset(qs)
    ensures GenerateHash(digest, Object(FromMembers(ps))) == GenerateHash(digest, Object(FromMembers(qs)))
  {
    MemberOrderIrrelevant(ps, qs);
  }
}
