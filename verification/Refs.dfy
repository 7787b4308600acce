/** Stable references inside JSON documents, and how they are collected. */
module Refs {
  import opened Wrappers
  import opened Text
  import opened Json
  import opened Sorting
  import opened JsonPointer

  datatype Kind =
    | RequirementBaseline
    | DecisionSet
    | EffectiveOrganizationContext
    | SystemDefinition
    | DomainContract
    | ChangeRequest
    | EvidenceRecord
    | MaterializationRecord
    | DesignSystem

  function KindName(kind: Kind): string {
    match kind
    case RequirementBaseline => "RequirementBaseline"
    case DecisionSet => "DecisionSet"
    case EffectiveOrganizationContext => "EffectiveOrganizationContext"
    case SystemDefinition => "SystemDefinition"
    case DomainContract => "DomainContract"
    case ChangeRequest => "ChangeRequest"
    case EvidenceRecord => "EvidenceRecord"
    case MaterializationRecord => "MaterializationRecord"
    case DesignSystem => "DesignSystem"
  }

  type Key = string

  /** The identity of one revision, `Kind/id@revision`. */
  function KeyText(kind: string, id: string, revision: string): Key {
    kind + "/" + id + "@" + revision
  }

  predicate IsKindName(name: string) {
    exists kind: Kind :: KindName(kind) == name
  }

  /** An object with the kind, id and revision of a reference, whatever else it holds. */
  predicate IsRef(v: Json) {
    && v.Object?
    && "kind" in v.members && v.members["kind"].Str? && IsKindName(v.members["kind"].text)
    && "id" in v.members && v.members["id"].Str?
    && "revision" in v.members && v.members["revision"].Number?
  }

  function RefKey(ref: Json): Key
    requires IsRef(ref)
  {
    KeyText(ref.members["kind"].text, ref.members["id"].text, ref.members["revision"].digits)
  }

  datatype FoundRef = FoundRef(ref: Json, path: string)

  /** A container's own reference, if any, comes before those of its children. */
  function Own(v: Json, path: string): seq<FoundRef> {
    if IsRef(v) then [FoundRef(v, path)] else []
  }

  /** Every reference held by a document, each with its JSON Pointer. */
  function CollectRefs(v: Json, path: string): seq<FoundRef>
    decreases v, 1, 0
  {
    match v
    case Array(items) => CollectItems(items, path, 0)
    case Object(members) =>
      Own(v, path) + CollectMembers(v, SortedKeys(members.Keys), path)
    case _ => []
  }

  function CollectItems(items: seq<Json>, path: string, index: nat): seq<FoundRef>
    decreases items, 0, |items|
  {
    if |items| == 0 then [] else
    CollectRefs(items[0], path + "/" + Decimal(index)) + CollectItems(items[1..], path, index + 1)
  }

  function CollectMembers(v: Json, keys: seq<string>, path: string): seq<FoundRef>
    requires v.Object? && forall k | k in keys :: k in v.members
    decreases v, 0, |keys|
  {
    if |keys| == 0 then [] else
    CollectRefs(v.members[keys[0]], path + "/" + Escape(keys[0])) + CollectMembers(v, keys[1..], path)
  }

  /** A reference is found at `path` extended by a route that leads from `v` to it. */
  ghost predicate FoundAlong(v: Json, path: string, found: FoundRef, route: seq<string>) {
    found.path == path + Encode(route) && Lookup(v, route) == Some(found.ref) && IsRef(found.ref)
  }

  /** The children of a container, one segment at a time. */
  ghost predicate Covers(v: Json, path: string, segments: seq<string>, all: seq<FoundRef>) {
    && (forall f | f in all :: exists route :: FoundAlong(v, path, f, route) && |route| > 0 && route[0] in segments)
    && (forall route | |route| > 0 && route[0] in segments && IsRefAt(v, route) ::
          FoundRef(Lookup(v, route).value, path + Encode(route)) in all)
    && Distinct(all)
  }

  ghost predicate IsRefAt(v: Json, route: seq<string>) {
    Lookup(v, route).Some? && IsRef(Lookup(v, route).value)
  }

  ghost predicate Distinct(all: seq<FoundRef>) {
    forall i, j | 0 <= i < j < |all| :: all[i].path != all[j].path
  }

  ghost predicate Exact(v: Json, path: string, all: seq<FoundRef>) {
    && (forall f | f in all :: exists route :: FoundAlong(v, path, f, route))
    && (forall route | IsRefAt(v, route) :: FoundRef(Lookup(v, route).value, path + Encode(route)) in all)
    && Distinct(all)
  }

  lemma EncodeStep(segment: string, route: seq<string>, path: string)
    ensures path + Encode([segment] + route) == path + "/" + Escape(segment) + Encode(route)
  {
    assert ([segment] + route)[1..] == route;
  }

  /** Two routes that end in the same pointer text are the same. */
  lemma EncodeInjective(a: seq<string>, b: seq<string>, path: string)
    requires path + Encode(a) == path + Encode(b)
    ensures a == b
  {
    assert (path + Encode(a))[|path|..] == Encode(a);
    assert (path + Encode(b))[|path|..] == Encode(b);
    DecodeEncode(a);
    DecodeEncode(b);
  }

  lemma {:induction false} DecimalNeedsNoEscape(n: nat)
    ensures Escape(Decimal(n)) == Decimal(n)
  {
    DecimalIsIndex(n);
    DigitsNeedNoEscape(Decimal(n));
  }

  lemma {:induction false} DigitsNeedNoEscape(s: string)
    requires forall i | 0 <= i < |s| :: IsDigit(s[i])
    ensures Escape(s) == s
  {
    if |s| > 0 {
      EscapeStep(s);
      DigitsNeedNoEscape(s[1..]);
    }
  }

  /** What one child contributes, seen from its parent. */
  lemma ChildCovers(v: Json, path: string, segment: string, child: Json, found: seq<FoundRef>)
    requires Child(v, segment) == Some(child)
    requires Exact(child, path + "/" + Escape(segment), found)
    ensures Covers(v, path, [segment], found)
  {
    hide Escape, Encode, IsRef, Child;
    var inner := path + "/" + Escape(segment);
    forall f | f in found
      ensures exists route :: FoundAlong(v, path, f, route) && |route| > 0 && route[0] in [segment]
    {
      var route :| FoundAlong(child, inner, f, route);
      EncodeStep(segment, route, path);
      assert ([segment] + route)[1..] == route;
      assert FoundAlong(v, path, f, [segment] + route);
    }
    forall route | |route| > 0 && route[0] in [segment] && IsRefAt(v, route)
      ensures FoundRef(Lookup(v, route).value, path + Encode(route)) in found
    {
      assert route == [segment] + route[1..];
      EncodeStep(segment, route[1..], path);
      assert IsRefAt(child, route[1..]);
    }
  }

  /** Children under different segments never report the same pointer. */
  lemma CoversConcat(v: Json, path: string, a: seq<string>, b: seq<string>, left: seq<FoundRef>, right: seq<FoundRef>)
    requires Covers(v, path, a, left) && Covers(v, path, b, right)
    requires forall s | s in a :: s !in b
    ensures Covers(v, path, a + b, left + right)
  {
    var all := left + right;
    forall i, j | 0 <= i < j < |all|
      ensures all[i].path != all[j].path
    {
      if i < |left| <= j {
        assert all[i] in left && all[j] in right;
        var p :| FoundAlong(v, path, all[i], p) && |p| > 0 && p[0] in a;
        var q :| FoundAlong(v, path, all[j], q) && |q| > 0 && q[0] in b;
        if all[i].path == all[j].path {
          EncodeInjective(p, q, path);
        }
      }
    }
  }

  function Indices(from: nat, count: nat): (s: seq<string>)
    ensures |s| == count && forall i | 0 <= i < count :: s[i] == Decimal(from + i)
    decreases count
  {
    if count == 0 then [] else [Decimal(from)] + Indices(from + 1, count - 1)
  }

  lemma IndexIsLater(from: nat, count: nat, n: nat)
    requires n < from
    ensures Decimal(n) !in Indices(from, count)
  {
    forall i | 0 <= i < count
      ensures Indices(from, count)[i] != Decimal(n)
    {
      IndexTextsAgree(Decimal(n), from + i);
      IndexTextsAgree(Decimal(n), n);
    }
  }

  lemma ItemIsChild(v: Json, index: nat)
    requires v.Array? && index < |v.items|
    ensures Child(v, Decimal(index)) == Some(v.items[index])
  {
    IndexTextsAgree(Decimal(index), index);
  }

  lemma {:induction false} ItemsCover(v: Json, path: string, index: nat)
    requires v.Array? && index <= |v.items|
    ensures Covers(v, path, Indices(index, |v.items| - index), CollectItems(v.items[index..], path, index))
    decreases v, 0, |v.items| - index
  {
    hide Covers, Exact, IsRef, Escape, Decimal, Child;
    if index < |v.items| {
      var rest := v.items[index..];
      assert rest[1..] == v.items[index + 1..];
      CollectIsExact(rest[0], path + "/" + Decimal(index));
      DecimalNeedsNoEscape(index);
      ItemIsChild(v, index);
      var here := CollectRefs(rest[0], path + "/" + Decimal(index));
      ChildCovers(v, path, Decimal(index), rest[0], here);
      ItemsCover(v, path, index + 1);
      IndexIsLater(index + 1, |v.items| - index - 1, index);
      var there := CollectItems(rest[1..], path, index + 1);
      CoversConcat(v, path, [Decimal(index)], Indices(index + 1, |v.items| - index - 1), here, there);
    } else {
      NoItemsCovered(v, path);
    }
  }

  lemma {:induction false} MembersCover(v: Json, path: string, keys: seq<string>)
    requires v.Object? && forall k | k in keys :: k in v.members
    requires forall i, j | 0 <= i < j < |keys| :: keys[i] != keys[j]
    ensures Covers(v, path, keys, CollectMembers(v, keys, path))
    decreases v, 0, |keys|
  {
    if |keys| > 0 {
      var child := v.members[keys[0]];
      var here := CollectRefs(child, path + "/" + Escape(keys[0]));
      CollectIsExact(child, path + "/" + Escape(keys[0]));
      ChildCovers(v, path, keys[0], child, here);
      MembersCover(v, path, keys[1..]);
      CoversConcat(v, path, [keys[0]], keys[1..], here, CollectMembers(v, keys[1..], path));
      assert [keys[0]] + keys[1..] == keys;
    }
  }

  lemma OwnIsDistinct(v: Json, path: string, segments: seq<string>, below: seq<FoundRef>)
    requires Covers(v, path, segments, below)
    ensures Distinct(Own(v, path) + below)
  {
    forall j | 0 <= j < |below|
      ensures below[j].path != path
    {
      assert below[j] in below;
      var route :| FoundAlong(v, path, below[j], route) && |route| > 0 && route[0] in segments;
      assert |Encode(route)| > 0;
    }
  }

  lemma WithOwn(v: Json, path: string, segments: seq<string>, below: seq<FoundRef>)
    requires Covers(v, path, segments, below)
    requires forall s :: Child(v, s).Some? ==> s in segments
    ensures Exact(v, path, Own(v, path) + below)
  {
    hide IsRef, Child;
    OwnIsDistinct(v, path, segments, below);
    var own := Own(v, path);
    assert path + Encode([]) == path;
    assert IsRef(v) ==> FoundAlong(v, path, FoundRef(v, path), []);
    forall f | f in own + below
      ensures exists route :: FoundAlong(v, path, f, route)
    {
      if f in below {
        var route :| FoundAlong(v, path, f, route) && |route| > 0 && route[0] in segments;
      } else {
        assert FoundAlong(v, path, f, []);
      }
    }
    forall route | IsRefAt(v, route)
      ensures FoundRef(Lookup(v, route).value, path + Encode(route)) in own + below
    {
      if route == [] {
        assert FoundRef(v, path) in own;
      } else {
        assert Child(v, route[0]).Some?;
        assert FoundRef(Lookup(v, route).value, path + Encode(route)) in below;
      }
    }
  }

  lemma NoItemsCovered(v: Json, path: string)
    ensures Covers(v, path, [], [])
  {}

  lemma {:induction false} CollectIsExact(v: Json, path: string)
    ensures Exact(v, path, CollectRefs(v, path))
    decreases v, 1, 0
  {
    hide Covers, Exact, IsRef;
    match v
    case Array(items) =>
      ItemsCover(v, path, 0);
      assert items[0..] == items;
      var segments := Indices(0, |items|);
      forall s | Child(v, s).Some?
        ensures s in segments
      {
        IndexIsDecimal(s);
        assert segments[IndexValue(s)] == s;
      }
      WithOwn(v, path, segments, CollectItems(items, path, 0));
      NotARef(v, path);
      assert [] + CollectItems(items, path, 0) == CollectItems(items, path, 0);
    case Object(members) =>
      var keys := SortedKeys(members.Keys);
      MembersCover(v, path, keys);
      WithOwn(v, path, keys, CollectMembers(v, keys, path));
    case _ =>
      NoItemsCovered(v, path);
      WithOwn(v, path, [], []);
      NotARef(v, path);
      assert Own(v, path) + [] == CollectRefs(v, path);
  }

  lemma NotARef(v: Json, path: string)
    requires !v.Object?
    ensures Own(v, path) == []
  {}

  /**
   * Every reference-shaped object of a document is reported exactly once, and decoding
   * the pointer it is reported at leads back to it.
   */
  lemma RefsAreExact(v: Json)
    ensures forall f | f in CollectRefs(v, "") :: IsRef(f.ref) && Lookup(v, Decode(f.path)) == Some(f.ref)
    ensures forall route | IsRefAt(v, route) ::
              exists i :: 0 <= i < |CollectRefs(v, "")| && CollectRefs(v, "")[i] == FoundRef(Lookup(v, route).value, Encode(route))
    ensures Distinct(CollectRefs(v, ""))
  {
    hide CollectRefs, Encode, Decode, Lookup, IsRef;
    CollectIsExact(v, "");
    var all := CollectRefs(v, "");
    forall f | f in all
      ensures IsRef(f.ref) && Lookup(v, Decode(f.path)) == Some(f.ref)
    {
      var route :| FoundAlong(v, "", f, route);
      assert "" + Encode(route) == Encode(route);
      DecodeEncode(route);
    }
    forall route | IsRefAt(v, route)
      ensures exists i :: 0 <= i < |all| && all[i] == FoundRef(Lookup(v, route).value, Encode(route))
    {
      assert "" + Encode(route) == Encode(route);
      assert FoundRef(Lookup(v, route).value, Encode(route)) in all;
    }
  }

  /** The references themselves, in the order they are found. */
  function RefList(v: Json): (refs: seq<Json>)
    ensures forall r | r in refs :: IsRef(r)
  {
    RefsAreExact(v);
    var all := CollectRefs(v, "");
    seq(|all|, i requires 0 <= i < |all| => all[i].ref)
  }

  /** The keys a document refers to. */
  function RefKeys(v: Json): (keys: seq<Key>)
    ensures |keys| == |RefList(v)|
    ensures forall i | 0 <= i < |keys| :: keys[i] == RefKey(RefList(v)[i])
  {
    var refs := RefList(v);
    seq(|refs|, i requires 0 <= i < |refs| => RefKey(refs[i]))
  }

  // ---- The text form ----

  datatype ContractRef = ContractRef(kind: Kind, id: string, revision: nat, item: Option<string>)

  predicate IsLower(c: char) { 'a' <= c <= 'z' }

  predicate IsLetter(c: char) { IsLower(c) || 'A' <= c <= 'Z' }

  /** `^[a-z][a-z0-9]*(?:[-.][a-z0-9]+)*$`: every separator is followed by a letter or a digit. */
  predicate IsId(s: string) {
    |s| > 0 && IsLower(s[0]) &&
    forall i | 0 <= i < |s| :: IsIdChar(s[i]) || (s[i] in "-." && i + 1 < |s| && IsIdChar(s[i + 1]))
  }

  predicate IsIdChar(c: char) { IsLower(c) || IsDigit(c) }

  /** Lower-case letters and digits with single separators between them, a letter first. */
  lemma IdIsPattern(s: string)
    ensures IsId(s) <==>
            s != "" && 'a' <= s[0] <= 'z' && (s[|s| - 1] != '-' && s[|s| - 1] != '.') &&
            (forall c | c in s :: 'a' <= c <= 'z' || '0' <= c <= '9' || c == '-' || c == '.') &&
            forall i | 0 <= i < |s| - 1 :: (s[i] == '-' || s[i] == '.') ==> (s[i + 1] != '-' && s[i + 1] != '.')
  {
    assert forall i | 0 <= i < |s| :: s[i] in s;
    if IsId(s) {
      assert IsIdChar(s[|s| - 1]);
    }
  }

  /** `^[A-Za-z][A-Za-z0-9]*(?:[-_.][A-Za-z0-9]+)*$`. */
  predicate IsItemName(s: string) {
    |s| > 0 && IsLetter(s[0]) &&
    forall i | 0 <= i < |s| :: IsItemChar(s[i]) || (s[i] in "-_." && i + 1 < |s| && IsItemChar(s[i + 1]))
  }

  predicate IsItemChar(c: char) { IsLetter(c) || IsDigit(c) }

  /** The parts of a reference that the text form can carry. */
  predicate IsWritable(ref: ContractRef) {
    IsId(ref.id) && ref.revision > 0 && (ref.item.Some? ==> IsItemName(ref.item.value))
  }

  /** `Kind/id@revision[#item]`. */
  function FormatRef(ref: ContractRef): string {
    KeyText(KindName(ref.kind), ref.id, Decimal(ref.revision)) + if ref.item.Some? && ref.item.value != "" then "#" + ref.item.value else ""
  }

  /** The two sides of the first `c`. */
  function SplitAt(text: string, c: char): (r: Option<(string, string)>)
    ensures r.Some? ==> text == r.value.0 + [c] + r.value.1 && c !in r.value.0
    ensures r.Some? <==> c in text
  {
    var i := IndexOf(text, c);
    if i < 0 then None else
    assert text == text[..i] + [c] + text[i + 1..];
    Some((text[..i], text[i + 1..]))
  }

  lemma SplitAtFirst(a: string, c: char, b: string)
    requires c !in a
    ensures SplitAt(a + [c] + b, c) == Some((a, b))
  {
    var text := a + [c] + b;
    assert text[|a|] == c;
    var r := SplitAt(text, c).value;
    FirstPartAgrees(a, r.0, b, r.1, c);
  }

  function KindNamed(name: string): (r: Option<Kind>)
    ensures forall kind :: r == Some(kind) <==> KindName(kind) == name
  {
    if kind: Kind :| KindName(kind) == name then Some(kind) else None
  }

  /** The revision and the item of `revision[#item]`. */
  function SplitItem(tail: string): (string, Option<string>) {
    match SplitAt(tail, '#')
    case None => (tail, None)
    case Some((revision, item)) => (revision, Some(item))
  }

  /** Reads the text form; nothing when the text is not a stable reference. */
  function ParseRef(text: string): Option<ContractRef> {
    match SplitAt(text, '/')
    case None => None
    case Some((name, rest)) =>
      match SplitAt(rest, '@')
      case None => None
      case Some((id, tail)) =>
        var (revision, item) := SplitItem(tail);
        if IsId(id) && IsIndex(revision) && revision[0] != '0' && (item.Some? ==> IsItemName(item.value)) && KindNamed(name).Some? then
          Some(ContractRef(KindNamed(name).value, id, IndexValue(revision), item))
        else None
  }

  function Tail(ref: ContractRef): string {
    Decimal(ref.revision) + if ref.item.Some? && ref.item.value != "" then "#" + ref.item.value else ""
  }

  lemma FormatParts(ref: ContractRef)
    ensures FormatRef(ref) == KindName(ref.kind) + ['/'] + (ref.id + ['@'] + Tail(ref))
  {
    hide KindName, Decimal;
  }

  lemma SplitTail(ref: ContractRef)
    requires ref.item != Some("")
    ensures SplitItem(Tail(ref)) == (Decimal(ref.revision), ref.item)
  {
    hide Decimal;
    DecimalIsDigits(ref.revision);
    if ref.item.Some? {
      SplitAtFirst(Decimal(ref.revision), '#', ref.item.value);
      assert Tail(ref) == Decimal(ref.revision) + ['#'] + ref.item.value;
    } else {
      assert Tail(ref) == Decimal(ref.revision) && '#' !in Tail(ref);
    }
  }

  lemma TailOfSplit(tail: string, ref: ContractRef)
    requires SplitItem(tail) == (Decimal(ref.revision), ref.item) && ref.item != Some("")
    ensures tail == Tail(ref)
  {}

  lemma KindHasNoSlash(kind: Kind)
    ensures '/' !in KindName(kind)
  {}

  lemma IdHasNoAt(id: string)
    requires IsId(id)
    ensures '@' !in id
  {}

  /** Parsing inverts formatting on everything that can be written, and accepts nothing else. */
  lemma ParseRefIsExact(text: string, ref: ContractRef)
    ensures ParseRef(text) == Some(ref) <==> IsWritable(ref) && text == FormatRef(ref)
  {
    hide KindName, Decimal, SplitAt, SplitItem, IsId, IsItemName, FormatRef, Tail;
    FormatParts(ref);
    if IsWritable(ref) && text == FormatRef(ref) {
      KindHasNoSlash(ref.kind);
      IdHasNoAt(ref.id);
      assert ref.item != Some("") by { EmptyIsNoItem(); }
      SplitAtFirst(KindName(ref.kind), '/', ref.id + ['@'] + Tail(ref));
      SplitAtFirst(ref.id, '@', Tail(ref));
      SplitTail(ref);
      DecimalIsIndex(ref.revision);
    }
    if ParseRef(text) == Some(ref) {
      var (name, rest) := SplitAt(text, '/').value;
      var (id, tail) := SplitAt(rest, '@').value;
      var (revision, item) := SplitItem(tail);
      IndexIsDecimal(revision);
      assert ref.item != Some("") by { EmptyIsNoItem(); }
      TailOfSplit(tail, ref);
    }
  }

  lemma EmptyIsNoItem()
    ensures !IsItemName("")
  {}
}
