/**
 * Canonical JSON text (sections 3.2.2 and 3.2.3 of RFC 8785) and a reader for it.
 *
 * `Serialize` is the writer. `ReadValue` is an ordinary recursive descent JSON reader,
 * defined without reference to the writer: it reads one value and returns the text left.
 * A tidy reader refuses upper case hexadecimal digits and names that do not increase.
 */
module CanonicalJson {
  import opened Wrappers
  import opened Text
  import opened Json
  import opened Sorting

  // ---- Writer ----

  function HexDigit(d: nat): char
    requires d < 16
  {
    if d < 10 then '0' + d as char else 'a' + (d - 10) as char
  }

  /** One character of a JSON string, as `JSON.stringify` writes it. */
  function QuoteChar(c: char): (s: string)
    ensures |s| > 0 && s[0] != '"'
  {
    if c == '"' then "\\\"" else
    if c == '\\' then "\\\\" else
    if c == 8 as char then "\\b" else
    if c == 9 as char then "\\t" else
    if c == 10 as char then "\\n" else
    if c == 12 as char then "\\f" else
    if c == 13 as char then "\\r" else
    if c as int < 0x20 then "\\u00" + [HexDigit(c as int / 16), HexDigit(c as int % 16)]
    else [c]
  }

  function QuoteChars(s: string): string {
    if |s| == 0 then [] else QuoteChar(s[0]) + QuoteChars(s[1..])
  }

  function Quote(s: string): string {
    "\"" + QuoteChars(s) + "\""
  }

  function Serialize(v: Json): string
    decreases v, 1, 0
  {
    match v
    case Null => "null"
    case Bool(b) => if b then "true" else "false"
    case Number(digits) => digits
    case Str(text) => Quote(text)
    case Array(items) => "[" + SerializeItems(items) + "]"
    case Object(members) => "{" + SerializeMembers(v, SortedKeys(members.Keys)) + "}"
  }

  function SerializeItems(items: seq<Json>): string
    decreases items, 0, |items|
  {
    if |items| == 0 then "" else
    if |items| == 1 then Serialize(items[0]) else
    Serialize(items[0]) + "," + SerializeItems(items[1..])
  }

  function SerializeMembers(v: Json, keys: seq<string>): string
    requires v.Object? && forall k | k in keys :: k in v.members
    decreases v, 0, |keys|
  {
    if |keys| == 0 then "" else
    var member := Quote(keys[0]) + ":" + Serialize(v.members[keys[0]]);
    if |keys| == 1 then member else member + "," + SerializeMembers(v, keys[1..])
  }

  // ---- Reader ----

  function HexValue(c: char, tidy: bool): Option<nat> {
    if '0' <= c <= '9' then Some(c as int - '0' as int) else
    if 'a' <= c <= 'f' then Some(c as int - 'a' as int + 10) else
    if 'A' <= c <= 'F' && !tidy then Some(c as int - 'A' as int + 10) else None
  }

  /** The character denoted by `\uXXXX`; surrogates are not characters. */
  function ReadHex(t: string, tidy: bool): Option<char> {
    if |t| < 4 then None else
    match (HexValue(t[0], tidy), HexValue(t[1], tidy), HexValue(t[2], tidy), HexValue(t[3], tidy))
    case (Some(a), Some(b), Some(c), Some(d)) =>
      var n := ((a * 16 + b) * 16 + c) * 16 + d;
      if n < 0xD800 || 0xE000 <= n < 0x10000 then Some(n as char) else None
    case _ => None
  }

  /** The characters of a string up to its closing quote, and the text after the quote. */
  function ReadChars(t: string, tidy: bool): (r: Option<(string, string)>)
    ensures r.Some? ==> |r.value.1| < |t|
  {
    if |t| == 0 then None else
    if t[0] == '"' then Some(("", t[1..])) else
    if t[0] as int < 0x20 then None else
    if t[0] != '\\' then Prepend(t[0], ReadChars(t[1..], tidy)) else
    if |t| == 1 then None else
    match t[1]
    case '"' => Prepend('"', ReadChars(t[2..], tidy))
    case '\\' => Prepend('\\', ReadChars(t[2..], tidy))
    case '/' => Prepend('/', ReadChars(t[2..], tidy))
    case 'b' => Prepend(8 as char, ReadChars(t[2..], tidy))
    case 't' => Prepend(9 as char, ReadChars(t[2..], tidy))
    case 'n' => Prepend(10 as char, ReadChars(t[2..], tidy))
    case 'f' => Prepend(12 as char, ReadChars(t[2..], tidy))
    case 'r' => Prepend(13 as char, ReadChars(t[2..], tidy))
    case 'u' =>
      (match ReadHex(t[2..], tidy)
       case Some(c) => Prepend(c, ReadChars(t[6..], tidy))
       case None => None)
    case _ => None
  }

  function Prepend(c: char, r: Option<(string, string)>): Option<(string, string)> {
    match r
    case Some((s, rest)) => Some(([c] + s, rest))
    case None => None
  }

  /** The longest prefix of number characters. */
  function NumberLength(t: string): (n: nat)
    ensures n <= |t|
    ensures forall i | 0 <= i < n :: IsNumberChar(t[i])
    ensures n < |t| ==> !IsNumberChar(t[n])
  {
    if |t| == 0 || !IsNumberChar(t[0]) then 0 else 1 + NumberLength(t[1..])
  }

  function ReadLiteral(t: string, literal: string, v: Json): (r: Option<(Json, string)>)
    requires |literal| > 0
    ensures r.Some? ==> |r.value.1| < |t|
  {
    if literal <= t then Some((v, t[|literal|..])) else None
  }

  function ReadValue(t: string, tidy: bool): (r: Option<(Json, string)>)
    ensures r.Some? ==> |r.value.1| < |t|
    decreases |t|, 0
  {
    if |t| == 0 then None else
    if t[0] == '[' then ReadArray(t[1..], tidy) else
    if t[0] == '{' then ReadObject(t[1..], tidy) else ReadScalar(t, tidy)
  }

  function ReadScalar(t: string, tidy: bool): (r: Option<(Json, string)>)
    requires |t| > 0
    ensures r.Some? ==> |r.value.1| < |t|
  {
    if t[0] == 'n' then ReadLiteral(t, "null", Null) else
    if t[0] == 't' then ReadLiteral(t, "true", Bool(true)) else
    if t[0] == 'f' then ReadLiteral(t, "false", Bool(false)) else
    if t[0] == '"' then
      match ReadChars(t[1..], tidy) case Some((s, rest)) => Some((Str(s), rest)) case None => None
    else if t[0] == '-' || IsDigit(t[0]) then
      var n := NumberLength(t);
      assert IsNumberChar(t[0]);
      Some((Number(t[..n]), t[n..]))
    else None
  }

  function ReadArray(t: string, tidy: bool): (r: Option<(Json, string)>)
    ensures r.Some? ==> |r.value.1| < |t|
    decreases |t|, 2
  {
    if |t| > 0 && t[0] == ']' then Some((Array([]), t[1..])) else
    match ReadItems(t, tidy) case Some((items, rest)) => Some((Array(items), rest)) case None => None
  }

  function ReadObject(t: string, tidy: bool): (r: Option<(Json, string)>)
    ensures r.Some? ==> |r.value.1| < |t|
    decreases |t|, 2
  {
    if |t| > 0 && t[0] == '}' then Some((Object(map[]), t[1..])) else
    match ReadMembers(t, tidy, None) case Some((members, rest)) => Some((Object(members), rest)) case None => None
  }

  /** Values separated by commas, up to the closing bracket. */
  function ReadItems(t: string, tidy: bool): (r: Option<(seq<Json>, string)>)
    ensures r.Some? ==> |r.value.1| < |t|
    decreases |t|, 1
  {
    match ReadValue(t, tidy)
    case None => None
    case Some((v, rest)) =>
      if |rest| == 0 then None else
      if rest[0] == ']' then Some(([v], rest[1..])) else
      if rest[0] != ',' then None else
      match ReadItems(rest[1..], tidy)
      case None => None
      case Some((items, after)) => Some(([v] + items, after))
  }

  /** Members separated by commas, up to the closing brace; a repeated key keeps the last. Tidy names increase, from `floor` on. */
  function ReadMembers(t: string, tidy: bool, floor: Option<string>): (r: Option<(map<string, Json>, string)>)
    ensures r.Some? ==> |r.value.1| < |t|
    decreases |t|, 1
  {
    if |t| == 0 || t[0] != '"' then None else
    match ReadChars(t[1..], tidy)
    case None => None
    case Some((key, colon)) =>
      if tidy && floor.Some? && AtMost(key, floor.value) then None else
      if |colon| == 0 || colon[0] != ':' then None else
      match ReadValue(colon[1..], tidy)
      case None => None
      case Some((v, rest)) =>
        if |rest| == 0 then None else
        if rest[0] == '}' then Some((map[key := v], rest[1..])) else
        if rest[0] != ',' then None else
        match ReadMembers(rest[1..], tidy, Some(key))
        case None => None
        case Some((members, after)) => Some((map[key := v] + members, after))
  }

  // ---- The reader inverts the writer ----

  lemma ReadQuotedChar(c: char, t: string, tidy: bool)
    ensures ReadChars(QuoteChar(c) + t, tidy) == Prepend(c, ReadChars(t, tidy))
  {
    var q := QuoteChar(c);
    var all := q + t;
    if |q| == 1 {
      assert all[1..] == t;
    } else if |q| == 2 {
      assert all[2..] == t;
    } else {
      var n := c as int;
      assert all[6..] == t;
      assert all[2..][0] == '0' && all[2..][1] == '0';
      assert all[2..][2] == HexDigit(n / 16) && all[2..][3] == HexDigit(n % 16);
      assert HexValue(HexDigit(n / 16), tidy) == Some(n / 16) && HexValue(HexDigit(n % 16), tidy) == Some(n % 16);
      assert ReadHex(all[2..], tidy) == Some(c);
    }
  }

  lemma {:induction false} ReadQuotedChars(s: string, t: string, tidy: bool)
    ensures ReadChars(QuoteChars(s) + "\"" + t, tidy) == Some((s, t))
  {
    if |s| == 0 {
      assert QuoteChars(s) + "\"" + t == "\"" + t;
    } else {
      var tail := QuoteChars(s[1..]) + "\"" + t;
      assert QuoteChars(s) + "\"" + t == QuoteChar(s[0]) + tail;
      ReadQuotedChar(s[0], tail, tidy);
      ReadQuotedChars(s[1..], t, tidy);
      assert [s[0]] + s[1..] == s;
    }
  }

  lemma {:induction false} NumberLengthIs(digits: string, t: string)
    requires forall i | 0 <= i < |digits| :: IsNumberChar(digits[i])
    requires |t| > 0 ==> !IsNumberChar(t[0])
    ensures NumberLength(digits + t) == |digits|
  {
    if |digits| == 0 {
      assert digits + t == t;
    } else {
      assert (digits + t)[1..] == digits[1..] + t;
      NumberLengthIs(digits[1..], t);
    }
  }

  /** Only a number needs to know where it ends. */
  ghost predicate Ends(v: Json, t: string) {
    v.Number? && |t| > 0 ==> !IsNumberChar(t[0])
  }

  lemma ReadLiteralText(t: string, tidy: bool)
    ensures ReadScalar("null" + t, tidy) == Some((Null, t))
    ensures ReadScalar("true" + t, tidy) == Some((Bool(true), t))
    ensures ReadScalar("false" + t, tidy) == Some((Bool(false), t))
  {
    assert ("null" + t)[4..] == t && ("true" + t)[4..] == t && ("false" + t)[5..] == t;
  }

  lemma ReadNumberText(digits: NumberText, t: string, tidy: bool)
    requires |t| > 0 ==> !IsNumberChar(t[0])
    ensures ReadScalar(digits + t, tidy) == Some((Number(digits), t))
  {
    var all := digits + t;
    NumberLengthIs(digits, t);
    assert all[..|digits|] == digits && all[|digits|..] == t;
  }

  lemma ReadStringText(s: string, t: string, tidy: bool)
    ensures ReadScalar(Quote(s) + t, tidy) == Some((Str(s), t))
  {
    ReadQuotedChars(s, t, tidy);
    assert (Quote(s) + t)[1..] == QuoteChars(s) + "\"" + t;
  }

  lemma ReadBracket(inner: string, tidy: bool)
    ensures ReadValue("[" + inner, tidy) == ReadArray(inner, tidy)
    ensures ReadValue("{" + inner, tidy) == ReadObject(inner, tidy)
  {
    hide ReadArray, ReadObject, ReadScalar;
    assert ("[" + inner)[1..] == inner && ("{" + inner)[1..] == inner;
  }

  /** The reader inverts the writer on every value, whatever follows it. */
  lemma {:induction false} ReadSerialized(v: Json, t: string, tidy: bool)
    requires Ends(v, t)
    ensures ReadValue(Serialize(v) + t, tidy) == Some((v, t))
    decreases v, 1, 0
  {
    hide ReadScalar;
    match v
    case Array(_) => ReadSerializedArray(v, t, tidy);
    case Object(_) => ReadSerializedObject(v, t, tidy);
    case Number(digits) => ReadNumberText(digits, t, tidy);
    case Str(s) => ReadStringText(s, t, tidy);
    case _ => ReadLiteralText(t, tidy);
  }

  lemma {:induction false} ReadSerializedArray(v: Json, t: string, tidy: bool)
    requires v.Array?
    ensures ReadValue(Serialize(v) + t, tidy) == Some((v, t))
    decreases v, 0, 0
  {
    var text := SerializeItems(v.items);
    Associate("[", text, "]", t);
    ReadBracket(text + "]" + t, tidy);
    if v.items == [] {
      assert text + "]" + t == "]" + t && ("]" + t)[1..] == t;
    } else {
      ReadSerializedItems(v.items, t, tidy);
      SerializedStart(v.items[0]);
    }
  }

  lemma {:induction false} ReadSerializedObject(v: Json, t: string, tidy: bool)
    requires v.Object?
    ensures ReadValue(Serialize(v) + t, tidy) == Some((v, t))
    decreases v, 0, |v.members| + 1
  {
    hide ReadMembers, ReadValue, ReadObject, SerializeMembers, SortedKeys;
    var keys := SortedKeys(v.members.Keys);
    var text := SerializeMembers(v, keys);
    Associate("{", text, "}", t);
    ReadBracket(text + "}" + t, tidy);
    if keys == [] {
      assert v.members == map[];
      ReadNoMembers(v, t, tidy);
    } else {
      SortedKeysClimb(v.members.Keys);
      ReadSerializedMembers(v, keys, t, tidy, None);
      MembersStart(v, keys);
      assert (map k | k in keys :: v.members[k]) == v.members;
      ReadSomeMembers(text + "}" + t, v.members, t, tidy);
    }
  }

  lemma ReadNoMembers(v: Json, t: string, tidy: bool)
    requires v.Object?
    ensures ReadObject(SerializeMembers(v, []) + "}" + t, tidy) == Some((Object(map[]), t))
  {
    assert SerializeMembers(v, []) + "}" + t == "}" + t && ("}" + t)[1..] == t;
  }

  lemma ReadSomeMembers(inner: string, members: map<string, Json>, t: string, tidy: bool)
    requires |inner| > 0 && inner[0] == '"' && ReadMembers(inner, tidy, None) == Some((members, t))
    ensures ReadObject(inner, tidy) == Some((Object(members), t))
  {}

  lemma Associate(a: string, b: string, c: string, d: string)
    ensures a + b + c + d == a + (b + c + d)
  {}

  lemma MembersStart(v: Json, keys: seq<string>)
    requires v.Object? && |keys| > 0 && forall k | k in keys :: k in v.members
    ensures |SerializeMembers(v, keys)| > 0 && SerializeMembers(v, keys)[0] == '"'
  {}

  lemma SerializedStart(v: Json)
    ensures |Serialize(v)| > 0 && Serialize(v)[0] != ']'
  {}

  lemma {:induction false} ReadSerializedItems(items: seq<Json>, t: string, tidy: bool)
    requires |items| > 0
    ensures ReadItems(SerializeItems(items) + "]" + t, tidy) == Some((items, t))
    decreases items, 0, |items|
  {
    var all := SerializeItems(items) + "]" + t;
    if |items| == 1 {
      var rest := "]" + t;
      assert all == Serialize(items[0]) + rest;
      ReadSerialized(items[0], rest, tidy);
      assert rest[1..] == t && [items[0]] == items;
    } else {
      var rest := "," + (SerializeItems(items[1..]) + "]" + t);
      assert all == Serialize(items[0]) + rest;
      ReadSerialized(items[0], rest, tidy);
      assert rest[1..] == SerializeItems(items[1..]) + "]" + t;
      ReadSerializedItems(items[1..], t, tidy);
      assert [items[0]] + items[1..] == items;
    }
  }

  /** The reader takes one member off the front. */
  lemma ReadMember(key: string, text: string, v: Json, rest: string, tidy: bool, floor: Option<string>)
    requires tidy && floor.Some? ==> !AtMost(key, floor.value)
    requires ReadValue(text + rest, tidy) == Some((v, rest)) && |rest| > 0
    ensures ReadMembers(Quote(key) + ":" + text + rest, tidy, floor) ==
            if rest[0] == '}' then Some((map[key := v], rest[1..]))
            else if rest[0] != ',' then None
            else match ReadMembers(rest[1..], tidy, Some(key))
                 case None => None
                 case Some((members, after)) => Some((map[key := v] + members, after))
  {
    var all := Quote(key) + ":" + text + rest;
    var colon := ":" + (text + rest);
    assert all[1..] == QuoteChars(key) + "\"" + colon;
    ReadQuotedChars(key, colon, tidy);
    assert colon[1..] == text + rest;
  }

  /** What follows the first member. */
  function AfterMember(v: Json, keys: seq<string>, t: string): (rest: string)
    requires v.Object? && |keys| > 0 && forall k | k in keys :: k in v.members
  {
    if |keys| == 1 then "}" + t else "," + (SerializeMembers(v, keys[1..]) + "}" + t)
  }

  lemma MembersText(v: Json, keys: seq<string>, t: string)
    requires v.Object? && |keys| > 0 && forall k | k in keys :: k in v.members
    ensures SerializeMembers(v, keys) + "}" + t ==
            Quote(keys[0]) + ":" + Serialize(v.members[keys[0]]) + AfterMember(v, keys, t)
  {
    var member := Quote(keys[0]) + ":" + Serialize(v.members[keys[0]]);
    if |keys| > 1 {
      Regroup(member, SerializeMembers(v, keys[1..]), t);
    }
  }

  lemma Regroup(member: string, others: string, t: string)
    ensures member + "," + others + "}" + t == member + ("," + (others + "}" + t))
  {}

  /** Strictly increasing texts, all after `floor`. */
  ghost predicate Climbs(floor: Option<string>, keys: seq<string>) {
    && (forall i | 0 <= i < |keys| && floor.Some? :: !AtMost(keys[i], floor.value))
    && forall i, j | 0 <= i < j < |keys| :: !AtMost(keys[j], keys[i])
  }

  lemma ClimbsOn(floor: Option<string>, keys: seq<string>)
    requires Climbs(floor, keys) && |keys| > 0
    ensures Climbs(Some(keys[0]), keys[1..]) && (floor.Some? ==> !AtMost(keys[0], floor.value))
  {
    hide AtMost;
  }

  lemma SortedKeysClimb(keys: set<string>)
    ensures Climbs(None, SortedKeys(keys))
  {
    hide AtMost;
    var s := SortedKeys(keys);
    forall i, j | 0 <= i < j < |s| ensures !AtMost(s[j], s[i]) {
      if AtMost(s[j], s[i]) { AtMostAntisymmetric(s[i], s[j]); }
    }
  }

  lemma {:induction false} ReadSerializedMembers(v: Json, keys: seq<string>, t: string, tidy: bool, floor: Option<string>)
    requires Climbs(floor, keys)
    requires v.Object? && |keys| > 0 && forall k | k in keys :: k in v.members
    ensures ReadMembers(SerializeMembers(v, keys) + "}" + t, tidy, floor) == Some((map k | k in keys :: v.members[k], t))
    decreases v, 0, |keys|
  {
    var key, value := keys[0], v.members[keys[0]];
    var rest := AfterMember(v, keys, t);
    MembersText(v, keys, t);
    ReadSerialized(value, rest, tidy);
    ReadMember(key, Serialize(value), value, rest, tidy, floor);
    if |keys| == 1 {
      assert rest[1..] == t;
      assert (map k | k in keys :: v.members[k]) == map[key := value];
    } else {
      assert rest[1..] == SerializeMembers(v, keys[1..]) + "}" + t;
      ClimbsOn(floor, keys);
      ReadSerializedMembers(v, keys[1..], t, tidy, Some(key));
      SplitMembers(v.members, keys);
    }
  }

  lemma SplitMembers(members: map<string, Json>, keys: seq<string>)
    requires |keys| > 0 && forall k | k in keys :: k in members
    ensures (map k | k in keys :: members[k]) == map[keys[0] := members[keys[0]]] + (map k | k in keys[1..] :: members[k])
  {
    assert forall k :: k in keys <==> k == keys[0] || k in keys[1..];
  }

  // ---- Canonical form ----

  function Canonicalize(v: Json): string {
    Serialize(v)
  }

  predicate CanonicalEquals(a: Json, b: Json) {
    Canonicalize(a) == Canonicalize(b)
  }

  /** A whole text is read back to the value it was written from, by a tidy reader too. */
  lemma RoundTrip(v: Json, tidy: bool)
    ensures ReadValue(Canonicalize(v), tidy) == Some((v, ""))
  {
    ReadSerialized(v, "", tidy);
    assert Serialize(v) + "" == Serialize(v);
  }

  /** Equality of canonical texts is equality of documents. */
  lemma CanonicalEqualsIsEquality(a: Json, b: Json)
    ensures CanonicalEquals(a, b) <==> a == b
  {
    RoundTrip(a, false);
    RoundTrip(b, false);
  }

  /**
   * Canonical texts can be written one after the other and told apart: the first value
   * and the remaining text are determined, provided each value ends where its text does.
   */
  lemma PrefixFree(a: Json, s: string, b: Json, t: string)
    requires Ends(a, s) && Ends(b, t)
    requires Canonicalize(a) + s == Canonicalize(b) + t
    ensures a == b && s == t
  {
    ReadSerialized(a, s, false);
    ReadSerialized(b, t, false);
  }

  /** No canonical text extends another, numbers excepted: "1" starts "12". */
  lemma OnlyNumbersExtend(a: Json, b: Json)
    ensures !a.Number? && Canonicalize(a) <= Canonicalize(b) ==> a == b
    ensures Canonicalize(Number("1")) < Canonicalize(Number("12"))
  {
    if !a.Number? && Canonicalize(a) <= Canonicalize(b) {
      var s := Canonicalize(b)[|Canonicalize(a)|..];
      assert Canonicalize(a) + s == Canonicalize(b) + "";
      PrefixFree(a, s, b, "");
    }
  }
}
