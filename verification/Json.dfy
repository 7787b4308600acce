/**
 * JSON documents. The members of an object are unordered: everything that reads an
 * object here either looks a key up or sorts the keys first. A number is represented by
 * its ECMAScript text, which determines its value.
 */
module Json {
  import opened Wrappers
  import opened Text

  predicate IsNumberChar(c: char) {
    IsDigit(c) || c == '-' || c == '+' || c == '.' || c == 'e'
  }

  predicate IsNumberText(s: string) {
    |s| > 0 && (s[0] == '-' || IsDigit(s[0])) && forall i | 0 <= i < |s| :: IsNumberChar(s[i])
  }

  type NumberText = s: string | IsNumberText(s) witness "0"

  datatype Json =
    | Null
    | Bool(value: bool)
    | Number(digits: NumberText)
    | Str(text: string)
    | Array(items: seq<Json>)
    | Object(members: map<string, Json>)

  predicate IsContainer(v: Json) {
    v.Array? || v.Object?
  }

  /** The JSON number of a natural. */
  function NumberOf(n: nat): Json {
    DecimalIsIndex(n);
    Number(Decimal(n))
  }

  /** `v.key`, where `v` may be no object. */
  function Member(v: Json, key: string): Option<Json> {
    if v.Object? && key in v.members then Some(v.members[key]) else None
  }

  /** One step of a pointer: an own member, or the element at a canonical index. */
  function Child(v: Json, segment: string): (r: Option<Json>)
    ensures r.Some? ==> r.value < v
  {
    match v
    case Array(items) =>
      if IsIndex(segment) && IndexValue(segment) < |items| then Some(items[IndexValue(segment)]) else None
    case Object(members) =>
      if segment in members then Some(members[segment]) else None
    case _ => None
  }

  /** The value a pointer leads to. */
  function Lookup(v: Json, route: seq<string>): Option<Json>
    decreases |route|
  {
    if |route| == 0 then Some(v) else
    match Child(v, route[0])
    case None => None
    case Some(child) => Lookup(child, route[1..])
  }

  lemma NoStep()
    ensures forall v :: Lookup(v, []) == Some(v)
  {}

  /** One step down an object. */
  lemma Descend(members: map<string, Json>, key: string, rest: seq<string>)
    ensures Lookup(Object(members), [key] + rest) == if key in members then Lookup(members[key], rest) else None
  {
    assert ([key] + rest)[1..] == rest;
  }

  /** There is nothing below a value that is no container. */
  lemma NothingBelow(v: Json, route: seq<string>)
    requires !IsContainer(v)
    ensures Lookup(v, route) == if |route| == 0 then Some(v) else None
  {}
}
