/** The record validator `is_data_valid` (main.py:78-90). */
module Validator {

  import opened JsonValues

  /** The fields every record must carry, checked in this order. */
  const RequiredFields: seq<string> := ["name", "email"]

  /**
   * The loop over the required fields: stops with false at the first field that
   * is missing or falsy, and yields true once every field has passed.
   */
  function FieldsPresent(fields: seq<string>, m: map<string, Json>): (r: bool)
    ensures r <==> forall f :: f in fields ==> f in m && Truthy(m[f])
  {
    if fields == [] then true
    else if fields[0] !in m || !Truthy(m[fields[0]]) then false
    else FieldsPresent(fields[1..], m)
  }

  /**
   * A record is valid exactly when it is a JSON object whose `name` and `email`
   * members are both present and truthy; anything that is not an object is invalid.
   */
  function IsDataValid(data: Json): (r: bool)
    ensures r <==> data.Object?
                   && "name" in data.fields && Truthy(data.fields["name"])
                   && "email" in data.fields && Truthy(data.fields["email"])
  {
    if !data.Object? then false
    else FieldsPresent(RequiredFields, data.fields)
  }

  /** A valid record is itself truthy, so it gets past the payload check. */
  lemma ValidIsTruthy(data: Json)
    requires IsDataValid(data)
    ensures data.Object? && Truthy(data)
  {
  }

  /** Members other than `name` and `email` never change the verdict. */
  lemma ExtraKeysIrrelevant(m: map<string, Json>, extra: map<string, Json>)
    requires "name" !in extra && "email" !in extra
    ensures IsDataValid(Object(m + extra)) == IsDataValid(Object(m))
  {
  }
}
