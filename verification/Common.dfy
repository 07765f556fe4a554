// Shared vocabulary: optional values, handler outcomes, JSON documents and keyed rows.
module Common {

  datatype Option<+T> = None | Some(value: T)

  // UUID primary keys compare like 128-bit integers; only identity and order matter here.
  type Uuid = nat

  // What a handler answers: a value, or a refusal that leaves the state as it was.
  datatype Result<+T> = Ok(value: T) | Refused(reason: Refusal)

  // The HTTP status a handler raises, or the database constraint that aborts the request.
  datatype Refusal =
    | Forbidden
    | BadRequest
    | NotFound
    | Conflict
    | Ambiguous
    | UniqueViolation
    | NullViolation
    | Unprocessable
    | ServerError

  // JSON documents as Python holds them. Every kind is its own constructor, so equality is
  // structural and 1, 1.0 and true are three different values. A float is named by the text Python
  // prints for it: there are only as many floats, and documents, as there are texts, so that an
  // injective digest of documents can exist.
  datatype Json =
    | JNull
    | JBool(b: bool)
    | JInt(i: int)
    | JFloat(repr: string)
    | JString(s: string)
    | JArray(elems: seq<Json>)
    | JObject(fields: map<string, Json>)

  type Item = map<string, Json>

  // dict.get(key): a missing key reads as None.
  function Get(item: Item, key: string): Json {
    if key in item then item[key] else JNull
  }

  // Python truthiness of a JSON value.
  predicate Truthy(j: Json) {
    match j
    case JNull => false
    case JBool(b) => b
    case JInt(i) => i != 0
    case JFloat(repr) => repr != "0.0" && repr != "-0.0"
    case JString(s) => s != ""
    case JArray(es) => es != []
    case JObject(fs) => fs != map[]
  }

  // The last value sent, or the one before all of them.
  function LastSent<T>(sent: seq<Option<T>>, was: T): T {
    if sent == [] then was
    else if sent[|sent| - 1].Some? then sent[|sent| - 1].value
    else LastSent(sent[..|sent| - 1], was)
  }

  predicate Distinct<T(==)>(s: seq<T>) {
    forall i, j :: 0 <= i < j < |s| ==> s[i] != s[j]
  }

  lemma RemoveMembers<T>(s: seq<T>, k: nat)
    requires Distinct(s) && k < |s|
    ensures forall x :: x in s[..k] + s[k + 1..] <==> x in s && x != s[k]
    ensures Distinct(s[..k] + s[k + 1..])
  {
  }

  lemma UpdateMembers<T>(s: seq<T>, k: nat, y: T)
    requires Distinct(s) && k < |s|
    ensures forall x :: x in s[k := y] <==> x == y || (x in s && x != s[k])
  {
    var w := s[k := y];
    assert w[k] == y;
    forall x | x in s && x != s[k]
      ensures x in w
    {
      var m :| 0 <= m < |s| && s[m] == x;
      assert w[m] == x;
    }
  }
}
