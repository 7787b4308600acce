/**
 * Why the text is canonical (sections 3.2.2 and 3.2.3 of RFC 8785): of all the texts that
 * read back to a value, none is shorter, and only one of that length is tidy, with lower
 * case hexadecimal digits and names in increasing order.
 */
module CanonicalForm {
  import opened Wrappers
  import opened Text
  import opened Json
  import opened Sorting
  import opened Lists
  import opened CanonicalJson

  // ---- Strings ----

  lemma HexIsDigit(c: char, tidy: bool)
    ensures HexValue(c, tidy).Some? ==> HexValue(c, tidy).value < 16
    ensures HexValue(c, true).Some? ==> c == HexDigit(HexValue(c, true).value)
    ensures HexValue(c, tidy) == Some(0) ==> c == '0'
  {}

  /** A character read through four hexadecimal digits. */
  lemma HexIsLong(t: string, tidy: bool)
    requires |t| >= 4 && ReadHex(t, tidy).Some?
    ensures |QuoteChar(ReadHex(t, tidy).value)| <= 6
    ensures tidy && |QuoteChar(ReadHex(t, tidy).value)| == 6 ==> QuoteChar(ReadHex(t, tidy).value) == "\\u" + t[..4]
  {
    HexIsDigit(t[0], tidy);
    HexIsDigit(t[1], tidy);
    HexIsDigit(t[2], tidy);
    HexIsDigit(t[3], tidy);
    var n := ReadHex(t, tidy).value as int;
    if n < 0x20 {
      assert HexValue(t[0], tidy) == Some(0) && HexValue(t[1], tidy) == Some(0);
      assert HexValue(t[2], tidy) == Some(n / 16) && HexValue(t[3], tidy) == Some(n % 16);
    }
  }

  /** How many characters of the text the first character of the string takes. */
  function Taken(t: string): nat
    requires |t| > 0
  {
    if t[0] != '\\' then 1 else if |t| > 1 && t[1] == 'u' then 6 else 2
  }

  /** The text of a string is read one character at a time. */
  lemma OneCharStep(t: string, tidy: bool) returns (c: char)
    requires |t| > 0 && t[0] != '"' && ReadChars(t, tidy).Some?
    ensures Taken(t) <= |t| && ReadChars(t, tidy) == Prepend(c, ReadChars(t[Taken(t)..], tidy))
  {
    hide ReadHex, Prepend;
    if t[0] != '\\' {
      c := t[0];
    } else if t[1] == 'u' {
      HexNeedsFour(t[2..], tidy);
      c := ReadHex(t[2..], tidy).value;
    } else {
      c := if t[1] == 'b' then 8 as char else if t[1] == 't' then 9 as char else if t[1] == 'n' then 10 as char else if t[1] == 'f' then 12 as char
           else if t[1] == 'r' then 13 as char else t[1];
    }
  }

  lemma OneCharRead(t: string, tidy: bool)
    requires |t| > 0 && t[0] != '"' && ReadChars(t, tidy).Some?
    ensures |ReadChars(t, tidy).value.0| > 0 && Taken(t) <= |t|
    ensures ReadChars(t[Taken(t)..], tidy).Some?
    ensures ReadChars(t, tidy).value.0[1..] == ReadChars(t[Taken(t)..], tidy).value.0 && ReadChars(t, tidy).value.1 == ReadChars(t[Taken(t)..], tidy).value.1
  {
    hide ReadChars, Prepend, Taken;
    var c := OneCharStep(t, tidy);
    PrependReads(c, ReadChars(t[Taken(t)..], tidy));
  }

  lemma HexNeedsFour(t: string, tidy: bool)
    ensures ReadHex(t, tidy).Some? ==> |t| >= 4
  {}

  lemma PrependReads(c: char, r: Option<(string, string)>)
    ensures Prepend(c, r).Some? <==> r.Some?
    ensures r.Some? ==> |Prepend(c, r).value.0| > 0 && Prepend(c, r).value.0[0] == c && Prepend(c, r).value.0[1..] == r.value.0 && Prepend(c, r).value.1 == r.value.1
  {}

  /** A character that stands for itself is written so, and one read from a short escape has one. */
  lemma ShortIsShortest(t: string, tidy: bool)
    requires |t| > 0 && t[0] != '"' && ReadChars(t, tidy).Some? && Taken(t) < 6 && |t| >= Taken(t) && |ReadChars(t, tidy).value.0| > 0
    ensures var c := ReadChars(t, tidy).value.0[0];
            |QuoteChar(c)| <= Taken(t) && (|QuoteChar(c)| == Taken(t) ==> QuoteChar(c) == t[..Taken(t)])
  {
    hide ReadHex;
    if t[0] != '\\' {
      assert ReadChars(t, tidy) == Prepend(t[0], ReadChars(t[1..], tidy));
    }
  }

  lemma LongIsShortest(t: string, tidy: bool)
    requires |t| > 1 && t[0] == '\\' && t[1] == 'u' && ReadChars(t, tidy).Some?
    ensures |t| >= 6 && ReadHex(t[2..], tidy).Some? && |ReadChars(t, tidy).value.0| > 0
    ensures ReadChars(t, tidy).value.0[0] == ReadHex(t[2..], tidy).value
  {
    hide ReadHex, QuoteChar;
    HexNeedsFour(t[2..], tidy);
  }

  lemma PlainIsShortest(t: string, tidy: bool)
    requires |t| > 0 && t[0] != '"' && ReadChars(t, tidy).Some? && Taken(t) <= |t| && |ReadChars(t, tidy).value.0| > 0
    ensures var c := ReadChars(t, tidy).value.0[0];
            |QuoteChar(c)| <= Taken(t) && (tidy && |QuoteChar(c)| == Taken(t) ==> QuoteChar(c) == t[..Taken(t)])
  {
    hide ReadChars, ReadHex, QuoteChar;
    if Taken(t) == 6 {
      LongIsShortest(t, tidy);
      HexIsLong(t[2..], tidy);
      assert t[..6] == "\\u" + t[2..][..4];
    } else {
      ShortIsShortest(t, tidy);
    }
  }

  lemma {:induction false} CharsAreShortest(t: string, tidy: bool)
    requires ReadChars(t, tidy).Some?
    ensures var (s, rest) := ReadChars(t, tidy).value;
            |QuoteChars(s)| + 1 + |rest| <= |t| &&
            (tidy && |QuoteChars(s)| + 1 + |rest| == |t| ==> t == QuoteChars(s) + "\"" + rest)
    decreases |t|
  {
    hide QuoteChar;
    var (s, rest) := ReadChars(t, tidy).value;
    if t[0] == '"' {
      assert QuoteChars("") + "\"" + t[1..] == t;
    } else {
      OneCharRead(t, tidy);
      PlainIsShortest(t, tidy);
      var k := Taken(t);
      CharsAreShortest(t[k..], tidy);
      assert t == t[..k] + t[k..];
      assert QuoteChars(s) == QuoteChar(s[0]) + QuoteChars(s[1..]);
      if tidy && |QuoteChars(s)| + 1 + |rest| == |t| {
        assert t == QuoteChar(s[0]) + (QuoteChars(s[1..]) + "\"" + rest);
      }
    }
  }

  // ---- Members ----

  function MemberLength(members: map<string, Json>): string -> nat {
    (k: string) => if k in members then |Quote(k)| + 1 + |Serialize(members[k])| else 0
  }

  function Sum(s: seq<nat>): nat {
    if |s| == 0 then 0 else s[0] + Sum(s[1..])
  }

  lemma {:induction false} SumInsert(front: seq<nat>, x: nat, tail: seq<nat>)
    ensures Sum(front + [x] + tail) == x + Sum(front + tail)
  {
    if |front| == 0 {
      assert front + [x] + tail == [x] + tail && front + tail == tail && ([x] + tail)[1..] == tail;
    } else {
      assert (front + [x] + tail)[1..] == front[1..] + [x] + tail && (front + tail)[1..] == front[1..] + tail;
      SumInsert(front[1..], x, tail);
    }
  }

  lemma {:induction false} SumPermutes(a: seq<nat>, b: seq<nat>)
    requires multiset(a) == multiset(b)
    ensures Sum(a) == Sum(b)
    decreases |a|
  {
    assert |multiset(a)| == |a| && |multiset(b)| == |b|;
    if |a| > 0 {
      assert a == [a[0]] + a[1..];
      var front, tail := TakeOut(b, a[0]);
      assert multiset(a[1..]) == multiset(a) - multiset{a[0]};
      SumPermutes(a[1..], front + tail);
      SumInsert(front, a[0], tail);
    }
  }

  lemma {:induction false} LengthIsSum(members: map<string, Json>, keys: seq<string>)
    requires |keys| > 0 && forall k | k in keys :: k in members
    ensures |SerializeMembers(Object(members), keys)| + 1 == Sum(Map(MemberLength(members), keys)) + |keys|
  {
    hide Quote, Serialize;
    var lengths := Map(MemberLength(members), keys);
    assert lengths[0] == |Quote(keys[0])| + 1 + |Serialize(members[keys[0]])|;
    if |keys| == 1 {
      assert Sum(lengths) == lengths[0] + Sum(lengths[1..]) && lengths[1..] == [];
    } else {
      LengthIsSum(members, keys[1..]);
      assert lengths[1..] == Map(MemberLength(members), keys[1..]);
    }
  }

  /** The length of the members does not depend on the order they are written in. */
  lemma LengthForgetsOrder(members: map<string, Json>, a: seq<string>, b: seq<string>)
    requires multiset(a) == multiset(b) && |a| > 0 && forall k | k in a :: k in members
    ensures forall k | k in b :: k in members
    ensures |SerializeMembers(Object(members), a)| == |SerializeMembers(Object(members), b)|
  {
    hide SerializeMembers, Map;
    SameElements(a, b);
    assert |multiset(a)| == |a| && |multiset(b)| == |b|;
    LengthIsSum(members, a);
    LengthIsSum(members, b);
    MapPermutes(MemberLength(members), a, b);
    SumPermutes(Map(MemberLength(members), a), Map(MemberLength(members), b));
  }

  lemma {:induction false} SameMembersSameText(m: map<string, Json>, n: map<string, Json>, keys: seq<string>)
    requires forall k | k in keys :: k in m && k in n && m[k] == n[k]
    ensures SerializeMembers(Object(m), keys) == SerializeMembers(Object(n), keys)
  {
    hide Quote, Serialize;
    if |keys| > 1 {
      SameMembersSameText(m, n, keys[1..]);
    }
  }

  /** The members as they are written. */
  function MembersOf(m: map<string, Json>): string {
    SerializeMembers(Object(m), SortedKeys(m.Keys))
  }

  lemma OneMember(key: string, v: Json)
    ensures MembersOf(map[key := v]) == Quote(key) + ":" + Serialize(v)
  {
    hide Quote, Serialize;
    var keys := SortedKeys(map[key := v].Keys);
    assert keys[0] in keys && keys == [key];
  }

  lemma OneKeyMore(keys: set<string>, key: string)
    requires key !in keys
    ensures multiset([key] + SortedKeys(keys)) == multiset(keys + {key}) == multiset(SortedKeys(keys + {key}))
  {
    hide AtMost, SortedKeys;
    NoRepeats(SortedKeys(keys + {key}), keys + {key});
    NoRepeats(SortedKeys(keys), keys);
    assert multiset(keys + {key}) == multiset{key} + multiset(keys);
  }

  lemma SmallestFirst(key: string, s: seq<string>)
    requires Sorted(s, AtMost) && forall k | k in s :: AtMost(key, k)
    ensures Sorted([key] + s, AtMost)
  {
    hide AtMost;
  }

  lemma FirstKey(keys: set<string>, key: string)
    requires key !in keys && forall k | k in keys :: !AtMost(k, key)
    ensures SortedKeys(keys + {key}) == [key] + SortedKeys(keys)
  {
    hide AtMost, Sort, SortedKeys;
    OneKeyMore(keys, key);
    var all := [key] + SortedKeys(keys);
    forall k | k in SortedKeys(keys) ensures AtMost(key, k) { AtMostTotal(k, key); }
    SmallestFirst(key, SortedKeys(keys));
    SortOfSorted(all, AtMost);
    KeyOrderIsIrrelevant(all, keys + {key});
  }

  /** One member more: as long as the member, a comma and the others, and written first when its name comes first. */
  lemma MoreMembers(m: map<string, Json>, key: string, v: Json)
    requires key !in m && m != map[]
    ensures var more := map[key := v] + m;
            |MembersOf(more)| == |Quote(key) + ":" + Serialize(v)| + 1 + |MembersOf(m)| &&
            ((forall k | k in m :: !AtMost(k, key)) ==> MembersOf(more) == Quote(key) + ":" + Serialize(v) + "," + MembersOf(m))
  {
    hide Quote, Serialize, AtMost, SortedKeys;
    var more, keys := map[key := v] + m, SortedKeys(m.Keys);
    assert more.Keys == m.Keys + {key};
    OneKeyMore(m.Keys, key);
    assert keys != [] by { var k :| k in m; assert k in keys; }
    SameMembersSameText(more, m, keys);
    assert ([key] + keys)[1..] == keys;
    assert SerializeMembers(Object(more), [key] + keys) == Quote(key) + ":" + Serialize(v) + "," + MembersOf(m);
    LengthForgetsOrder(more, [key] + keys, SortedKeys(more.Keys));
    if forall k | k in m :: !AtMost(k, key) { FirstKey(m.Keys, key); }
  }

  // ---- Values ----

  /** What was read takes at least its canonical text, and in a tidy text of that length it is that text. */
  ghost predicate IsShortest(t: string, text: string, rest: string, tidy: bool) {
    |text| + |rest| <= |t| && (tidy && |text| + |rest| == |t| ==> t == text + rest)
  }

  lemma {:induction false} ValueIsShortest(t: string, tidy: bool)
    requires ReadValue(t, tidy).Some?
    ensures IsShortest(t, Serialize(ReadValue(t, tidy).value.0), ReadValue(t, tidy).value.1, tidy)
    decreases |t|, 0
  {
    hide ReadScalar, SerializeItems;
    var (v, rest) := ReadValue(t, tidy).value;
    if t[0] == '[' {
      assert t == "[" + t[1..];
      ArrayIsShortest(t[1..], tidy);
    } else if t[0] == '{' {
      assert t == "{" + t[1..];
      ObjectIsShortest(t[1..], tidy);
    } else {
      ScalarIsShortest(t, tidy);
    }
  }

  lemma ScalarIsShortest(t: string, tidy: bool)
    requires |t| > 0 && ReadScalar(t, tidy).Some?
    ensures IsShortest(t, Serialize(ReadScalar(t, tidy).value.0), ReadScalar(t, tidy).value.1, tidy)
  {
    hide QuoteChars, ReadChars;
    var (v, rest) := ReadScalar(t, tidy).value;
    if t[0] == '"' {
      CharsAreShortest(t[1..], tidy);
      assert t == "\"" + t[1..];
      assert |Quote(v.text)| == |QuoteChars(v.text)| + 2;
      if tidy && |Quote(v.text)| + |rest| == |t| {
        assert t == "\"" + (QuoteChars(v.text) + "\"" + rest) == Quote(v.text) + rest;
      }
    } else if v.Number? {
      assert t == v.digits + rest;
    } else {
      LiteralIsText(t, tidy);
    }
  }

  lemma LiteralIsText(t: string, tidy: bool)
    requires |t| > 0 && t[0] != '"' && ReadScalar(t, tidy).Some? && !ReadScalar(t, tidy).value.0.Number?
    ensures t == Serialize(ReadScalar(t, tidy).value.0) + ReadScalar(t, tidy).value.1
  {}

  lemma {:induction false} ArrayIsShortest(t: string, tidy: bool)
    requires ReadArray(t, tidy).Some?
    ensures var (v, rest) := ReadArray(t, tidy).value;
            v.Array? && IsShortest("[" + t, "[" + SerializeItems(v.items) + "]", rest, tidy)
    decreases |t|, 2
  {
    hide ReadItems;
    var (v, rest) := ReadArray(t, tidy).value;
    if t[..1] == "]" && |t| > 0 && t[0] == ']' {
      assert t == "]" + t[1..] && SerializeItems([]) == "";
      assert "[" + t == "[" + "" + "]" + rest;
    } else {
      ItemsAreShortest(t, tidy);
      var text := SerializeItems(v.items);
      if tidy && |"[" + text + "]"| + |rest| == |"[" + t| {
        assert "[" + t == "[" + (text + "]" + rest) == ("[" + text + "]") + rest;
      }
    }
  }

  lemma {:induction false} ItemsAreShortest(t: string, tidy: bool)
    requires ReadItems(t, tidy).Some?
    ensures var (items, rest) := ReadItems(t, tidy).value;
            |items| > 0 && IsShortest(t, SerializeItems(items) + "]", rest, tidy)
    decreases |t|, 1
  {
    hide ReadValue, Serialize;
    var (items, rest) := ReadItems(t, tidy).value;
    var (v, after) := ReadValue(t, tidy).value;
    ValueIsShortest(t, tidy);
    if after[0] == ']' {
      assert items == [v] && SerializeItems(items) == Serialize(v) && after == "]" + rest;
      Glue(t, Serialize(v), "", "]", rest, after, tidy);
      assert Serialize(v) + "" + "]" == Serialize(v) + "]";
    } else {
      ItemsAreShortest(after[1..], tidy);
      var (others, _) := ReadItems(after[1..], tidy).value;
      assert items == [v] + others && items[0] == v && items[1..] == others;
      assert SerializeItems(items) == Serialize(v) + "," + SerializeItems(others);
      assert after == "," + after[1..];
      GlueMore(t, Serialize(v), SerializeItems(others) + "]", rest, after, tidy);
      assert Serialize(v) + "," + (SerializeItems(others) + "]") == SerializeItems(items) + "]";
    }
  }

  lemma Glue(t: string, text: string, middle: string, close: string, rest: string, after: string, tidy: bool)
    requires IsShortest(t, text, after, tidy) && after == middle + close + rest
    ensures IsShortest(t, text + middle + close, rest, tidy)
  {
    assert text + (middle + close + rest) == text + middle + close + rest;
  }

  /** A value and a comma, before texts that are shortest. */
  lemma GlueMore(t: string, text: string, more: string, rest: string, after: string, tidy: bool)
    requires IsShortest(t, text, after, tidy) && |after| > 0 && after == "," + after[1..] && IsShortest(after[1..], more, rest, tidy)
    ensures IsShortest(t, text + "," + more, rest, tidy)
  {
    if tidy && |text + "," + more| + |rest| == |t| {
      assert t == text + after && after == "," + (more + rest);
      assert text + ("," + (more + rest)) == text + "," + more + rest;
    }
  }

  lemma {:induction false} ObjectIsShortest(t: string, tidy: bool)
    requires ReadObject(t, tidy).Some?
    ensures var (v, rest) := ReadObject(t, tidy).value;
            v.Object? && IsShortest("{" + t, Serialize(v), rest, tidy)
    decreases |t|, 2
  {
    hide ReadMembers, SerializeMembers, SortedKeys;
    var (v, rest) := ReadObject(t, tidy).value;
    if |t| > 0 && t[0] == '}' {
      assert t == "}" + t[1..];
      NoMembersText();
      assert Serialize(v) == "{" + "" + "}";
      assert "{" + t == "{" + "" + "}" + rest;
    } else {
      MembersAreShortest(t, tidy, None);
      var text := MembersOf(v.members);
      assert Serialize(v) == "{" + text + "}";
      if tidy && |"{" + text + "}"| + |rest| == |"{" + t| {
        assert "{" + t == "{" + (text + "}" + rest) == ("{" + text + "}") + rest;
      }
    }
  }

  lemma NoMembersText()
    ensures MembersOf(map[]) == ""
  {}

  /** The name, the colon and the value at the front. */
  lemma {:induction false} MemberIsShortest(t: string, key: string, colon: string, v: Json, after: string, tidy: bool)
    requires |t| > 0 && t[0] == '"' && ReadChars(t[1..], tidy) == Some((key, colon)) && |colon| > 0 && colon[0] == ':'
    requires IsShortest(colon[1..], Serialize(v), after, tidy)
    ensures IsShortest(t, Quote(key) + ":" + Serialize(v), after, tidy)
  {
    hide ReadChars, QuoteChars, Serialize;
    CharsAreShortest(t[1..], tidy);
    var q := QuoteChars(key);
    assert t == "\"" + t[1..] && colon == ":" + colon[1..];
    assert |Quote(key)| == |q| + 2;
    if tidy && |Quote(key) + ":" + Serialize(v)| + |after| == |t| {
      assert colon[1..] == Serialize(v) + after;
      assert t == "\"" + (q + "\"" + (":" + (Serialize(v) + after)));
      assert Quote(key) + ":" + Serialize(v) + after == "\"" + (q + "\"" + (":" + (Serialize(v) + after)));
    }
  }

  /** Tidy names increase from the floor on. */
  ghost predicate IsAfter(floor: Option<string>, members: map<string, Json>) {
    floor.Some? ==> forall k | k in members :: !AtMost(k, floor.value)
  }

  lemma {:induction false} MembersAreShortest(t: string, tidy: bool, floor: Option<string>)
    requires ReadMembers(t, tidy, floor).Some?
    ensures var (members, rest) := ReadMembers(t, tidy, floor).value;
            members != map[] && IsShortest(t, MembersOf(members) + "}", rest, tidy) && (tidy ==> IsAfter(floor, members))
    decreases |t|, 1
  {
    hide ReadValue, ReadChars, Serialize, Quote, MembersOf, AtMost, SortedKeys;
    var (members, rest) := ReadMembers(t, tidy, floor).value;
    var (key, colon) := ReadChars(t[1..], tidy).value;
    var (v, after) := ReadValue(colon[1..], tidy).value;
    ValueIsShortest(colon[1..], tidy);
    MemberIsShortest(t, key, colon, v, after, tidy);
    var text := Quote(key) + ":" + Serialize(v);
    if after[0] == '}' {
      assert members == map[key := v] && after == "}" + rest;
      assert key in members;
      OneMember(key, v);
      Glue(t, text, "", "}", rest, after, tidy);
      assert text + "" + "}" == text + "}";
    } else {
      MembersAreShortest(after[1..], tidy, Some(key));
      var (others, _) := ReadMembers(after[1..], tidy, Some(key)).value;
      assert after == "," + after[1..] && members == map[key := v] + others;
      GlueMore(t, text, MembersOf(others) + "}", rest, after, tidy);
      MembersJoin(t, key, v, others, rest, tidy);
      if tidy && floor.Some? { StaysAfter(floor.value, key, v, others); }
    }
  }

  lemma StaysAfter(floor: string, key: string, v: Json, others: map<string, Json>)
    requires !AtMost(key, floor) && IsAfter(Some(key), others)
    ensures IsAfter(Some(floor), map[key := v] + others)
  {
    hide AtMost;
    forall k | k in map[key := v] + others ensures !AtMost(k, floor) {
      if k in others {
        AtMostTotal(k, key);
        if AtMost(k, floor) { AtMostTransitive(key, k, floor); }
      }
    }
  }

  /** The members read with the first one: it is new in a tidy text, and in any other at most as long as it looks. */
  lemma MembersJoin(t: string, key: string, v: Json, others: map<string, Json>, rest: string, tidy: bool)
    requires others != map[] && (tidy ==> IsAfter(Some(key), others))
    requires IsShortest(t, Quote(key) + ":" + Serialize(v) + "," + (MembersOf(others) + "}"), rest, tidy)
    ensures IsShortest(t, MembersOf(map[key := v] + others) + "}", rest, tidy)
  {
    hide Quote, Serialize, MembersOf, AtMost, SortedKeys;
    var text, more := Quote(key) + ":" + Serialize(v), map[key := v] + others;
    if key in others {
      assert more == others;
      if tidy { AtMostTotal(key, key); }
    } else {
      MoreMembers(others, key, v);
      assert text + "," + (MembersOf(others) + "}") == text + "," + MembersOf(others) + "}";
    }
  }

  // ---- Canonical texts ----

  /** No text that reads back to a value is shorter than its canonical text. */
  lemma CanonicalIsShortest(t: string, v: Json, tidy: bool)
    requires ReadValue(t, tidy) == Some((v, ""))
    ensures |Canonicalize(v)| <= |t|
  {
    ValueIsShortest(t, tidy);
  }

  /** The canonical text is the only one of its length, or shorter, that is tidy and reads back to the value. */
  lemma CanonicalIsUnique(t: string, v: Json)
    ensures t == Canonicalize(v) <==> ReadValue(t, true) == Some((v, "")) && |t| <= |Canonicalize(v)|
  {
    RoundTrip(v, true);
    if ReadValue(t, true) == Some((v, "")) {
      ValueIsShortest(t, true);
      assert Serialize(v) + "" == Serialize(v);
    }
  }
}
