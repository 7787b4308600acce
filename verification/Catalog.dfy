/** The extension catalog: what may realize a component or a capability, never two descriptors for the same thing. */
module Catalog {
  import opened Wrappers
  import opened Text
  import opened Json
  import opened Refs
  import opened Sorting
  import opened Lists

  datatype RuntimeAdapter = RuntimeAdapter(id: string, version: string, componentKinds: seq<string>, runtime: string)

  datatype CapabilityProvider = CapabilityProvider(id: string, version: string, capability: string, runtimes: seq<string>)

  datatype ExtensionCatalog = ExtensionCatalog(runtimeAdapters: seq<RuntimeAdapter>, capabilityProviders: seq<CapabilityProvider>)

  /** What a descriptor covers: a component kind, or a capability, on a runtime. */
  datatype Coverage = KindOn(kind: string, runtime: string) | CapabilityOn(capability: string, runtime: string)

  function AdapterCoverage(a: RuntimeAdapter): (c: seq<Coverage>)
    ensures |c| == |a.componentKinds| && forall i | 0 <= i < |c| :: c[i] == KindOn(a.componentKinds[i], a.runtime)
  {
    seq(|a.componentKinds|, i requires 0 <= i < |a.componentKinds| => KindOn(a.componentKinds[i], a.runtime))
  }

  function ProviderCoverage(p: CapabilityProvider): (c: seq<Coverage>)
    ensures |c| == |p.runtimes| && forall i | 0 <= i < |c| :: c[i] == CapabilityOn(p.capability, p.runtimes[i])
  {
    seq(|p.runtimes|, i requires 0 <= i < |p.runtimes| => CapabilityOn(p.capability, p.runtimes[i]))
  }

  /** One descriptor: its id and what it covers. */
  datatype Descriptor = Descriptor(id: string, coverage: seq<Coverage>)

  function Descriptors(c: ExtensionCatalog): (d: seq<Descriptor>)
    ensures |d| == |c.runtimeAdapters| + |c.capabilityProviders|
    ensures forall i | 0 <= i < |c.runtimeAdapters| :: d[i] == Descriptor(c.runtimeAdapters[i].id, AdapterCoverage(c.runtimeAdapters[i]))
    ensures forall i | 0 <= i < |c.capabilityProviders| ::
              d[|c.runtimeAdapters| + i] == Descriptor(c.capabilityProviders[i].id, ProviderCoverage(c.capabilityProviders[i]))
  {
    seq(|c.runtimeAdapters|, i requires 0 <= i < |c.runtimeAdapters| => Descriptor(c.runtimeAdapters[i].id, AdapterCoverage(c.runtimeAdapters[i]))) +
    seq(|c.capabilityProviders|, i requires 0 <= i < |c.capabilityProviders| => Descriptor(c.capabilityProviders[i].id, ProviderCoverage(c.capabilityProviders[i])))
  }

  /** No id is declared twice, and nothing is covered twice, by two descriptors or by one. */
  ghost predicate IsUnambiguous(d: seq<Descriptor>) {
    && (forall i, j | 0 <= i < j < |d| :: d[i].id != d[j].id)
    && (forall i | 0 <= i < |d| :: NoRepeat(d[i].coverage))
    && (forall i, j, x | 0 <= i < j < |d| && x in d[i].coverage :: x !in d[j].coverage)
  }

  datatype CatalogError =
    | Invalid(path: string, problem: Problem)
    | DuplicateId(id: string)
    | OverlappingCoverage(coverage: Coverage)

  datatype Problem = NoCatalog | NoObject | UnknownFields(names: set<string>) | NoIdentifier | NoVersion | NoNameList

  /** Claims what one descriptor covers. */
  method Cover(coverage: seq<Coverage>, covered0: set<Coverage>) returns (covered: set<Coverage>, found: seq<CatalogError>)
    ensures covered == covered0 + set x | x in coverage
    ensures found == [] <==> NoRepeat(coverage) && forall x | x in coverage :: x !in covered0
  {
    covered, found := covered0, [];
    for i := 0 to |coverage|
      invariant forall x :: x in covered <==> x in covered0 || x in coverage[..i]
      invariant found == [] <==> NoRepeat(coverage[..i]) && forall x | x in coverage[..i] :: x !in covered0
    {
      assert coverage[..i + 1] == coverage[..i] + [coverage[i]];
      NoRepeatStep(coverage[..i], coverage[i]);
      if coverage[i] in covered {
        found := found + [OverlappingCoverage(coverage[i])];
      } else {
        covered := covered + {coverage[i]};
      }
    }
    assert coverage[..|coverage|] == coverage;
  }

  lemma UnambiguousStep(d: seq<Descriptor>, next: Descriptor)
    ensures IsUnambiguous(d + [next]) <==>
            IsUnambiguous(d) && NoRepeat(next.coverage) &&
            (forall e | e in d :: e.id != next.id && forall x | x in next.coverage :: x !in e.coverage)
  {
    hide NoRepeat;
    var all := d + [next];
    assert all[|d|] == next && forall i | 0 <= i < |d| :: all[i] == d[i];
    if IsUnambiguous(all) {
      forall e | e in d
        ensures e.id != next.id && forall x | x in next.coverage :: x !in e.coverage
      {
        var i :| 0 <= i < |d| && d[i] == e;
        assert all[i].id != all[|d|].id;
      }
    }
  }

  /** Reports nothing exactly when no id and no coverage is declared twice. */
  method CheckCoverage(catalog: ExtensionCatalog) returns (found: seq<CatalogError>)
    ensures found == [] <==> IsUnambiguous(Descriptors(catalog))
  {
    hide IsUnambiguous, NoRepeat;
    found := [];
    var all := Descriptors(catalog);
    var ids: set<string> := {};
    var covered: set<Coverage> := {};
    assert IsUnambiguous(all[..0]) by { NothingIsAmbiguous(); }
    for i := 0 to |all|
      invariant forall id :: id in ids <==> exists e :: e in all[..i] && e.id == id
      invariant forall x :: x in covered <==> exists e :: e in all[..i] && x in e.coverage
      invariant found == [] <==> IsUnambiguous(all[..i])
    {
      assert all[..i + 1] == all[..i] + [all[i]];
      UnambiguousStep(all[..i], all[i]);
      if all[i].id in ids {
        found := found + [DuplicateId(all[i].id)];
      }
      ids := ids + {all[i].id};
      var more: seq<CatalogError>;
      covered, more := Cover(all[i].coverage, covered);
      found := found + more;
    }
    assert all[..|all|] == all;
  }

  lemma NothingIsAmbiguous()
    ensures IsUnambiguous([])
  {}

  // ---- Lookups ----

  predicate Realizes(a: RuntimeAdapter, kind: string, runtime: string) {
    a.runtime == runtime && kind in a.componentKinds
  }

  predicate Provides(p: CapabilityProvider, capability: string, runtime: string) {
    p.capability == capability && runtime in p.runtimes
  }

  /** `runtimeAdapters.find(...)`. */
  function FindAdapter(adapters: seq<RuntimeAdapter>, kind: string, runtime: string): (r: Option<RuntimeAdapter>)
    ensures r.Some? ==> r.value in adapters && Realizes(r.value, kind, runtime)
    ensures r.None? ==> forall a | a in adapters :: !Realizes(a, kind, runtime)
  {
    if |adapters| == 0 then None else
    if Realizes(adapters[0], kind, runtime) then Some(adapters[0]) else FindAdapter(adapters[1..], kind, runtime)
  }

  function FindProvider(providers: seq<CapabilityProvider>, capability: string, runtime: string): (r: Option<CapabilityProvider>)
    ensures r.Some? ==> r.value in providers && Provides(r.value, capability, runtime)
    ensures r.None? ==> forall p | p in providers :: !Provides(p, capability, runtime)
  {
    if |providers| == 0 then None else
    if Provides(providers[0], capability, runtime) then Some(providers[0]) else FindProvider(providers[1..], capability, runtime)
  }

  /** What two descriptors cover in common shows them to be the same one. */
  lemma OneCovers(d: seq<Descriptor>, i: nat, j: nat, x: Coverage)
    requires IsUnambiguous(d) && i < |d| && j < |d| && x in d[i].coverage && x in d[j].coverage
    ensures i == j
  {
    hide NoRepeat;
  }

  /** In a validated catalog, at most one adapter realizes a kind on a runtime. */
  lemma OneAdapter(c: ExtensionCatalog, a: RuntimeAdapter, b: RuntimeAdapter, kind: string, runtime: string)
    requires IsUnambiguous(Descriptors(c)) && a in c.runtimeAdapters && b in c.runtimeAdapters
    requires Realizes(a, kind, runtime) && Realizes(b, kind, runtime)
    ensures a == b
  {
    hide IsUnambiguous;
    var i :| 0 <= i < |c.runtimeAdapters| && c.runtimeAdapters[i] == a;
    var j :| 0 <= j < |c.runtimeAdapters| && c.runtimeAdapters[j] == b;
    AdapterCovers(a, kind, runtime);
    AdapterCovers(b, kind, runtime);
    OneCovers(Descriptors(c), i, j, KindOn(kind, runtime));
  }

  lemma AdapterCovers(a: RuntimeAdapter, kind: string, runtime: string)
    requires Realizes(a, kind, runtime)
    ensures KindOn(kind, runtime) in AdapterCoverage(a)
  {
    var m :| 0 <= m < |a.componentKinds| && a.componentKinds[m] == kind;
    assert AdapterCoverage(a)[m] == KindOn(kind, runtime);
  }

  /** And at most one provider a capability. */
  lemma OneProvider(c: ExtensionCatalog, p: CapabilityProvider, q: CapabilityProvider, capability: string, runtime: string)
    requires IsUnambiguous(Descriptors(c)) && p in c.capabilityProviders && q in c.capabilityProviders
    requires Provides(p, capability, runtime) && Provides(q, capability, runtime)
    ensures p == q
  {
    hide IsUnambiguous, Descriptors;
    var i :| 0 <= i < |c.capabilityProviders| && c.capabilityProviders[i] == p;
    var j :| 0 <= j < |c.capabilityProviders| && c.capabilityProviders[j] == q;
    ProviderDescribed(c, i, capability, runtime);
    ProviderDescribed(c, j, capability, runtime);
    OneCovers(Descriptors(c), |c.runtimeAdapters| + i, |c.runtimeAdapters| + j, CapabilityOn(capability, runtime));
  }

  lemma ProviderDescribed(c: ExtensionCatalog, i: nat, capability: string, runtime: string)
    requires i < |c.capabilityProviders| && Provides(c.capabilityProviders[i], capability, runtime)
    ensures CapabilityOn(capability, runtime) in Descriptors(c)[|c.runtimeAdapters| + i].coverage
  {
    hide Provides;
    ProviderCovers(c.capabilityProviders[i], capability, runtime);
    assert Descriptors(c)[|c.runtimeAdapters| + i] == Descriptor(c.capabilityProviders[i].id, ProviderCoverage(c.capabilityProviders[i]));
  }

  lemma ProviderCovers(p: CapabilityProvider, capability: string, runtime: string)
    requires Provides(p, capability, runtime)
    ensures CapabilityOn(capability, runtime) in ProviderCoverage(p)
  {
    var m :| 0 <= m < |p.runtimes| && p.runtimes[m] == runtime;
    assert ProviderCoverage(p)[m] == CapabilityOn(capability, runtime);
  }

  ghost predicate SameDescriptors(a: ExtensionCatalog, b: ExtensionCatalog) {
    multiset(a.runtimeAdapters) == multiset(b.runtimeAdapters) && multiset(a.capabilityProviders) == multiset(b.capabilityProviders)
  }

  /** Lookups in a validated catalog do not depend on the order of its descriptors. */
  lemma LookupsForgetOrder(a: ExtensionCatalog, b: ExtensionCatalog, name: string, runtime: string)
    requires IsUnambiguous(Descriptors(a)) && SameDescriptors(a, b)
    ensures FindAdapter(a.runtimeAdapters, name, runtime) == FindAdapter(b.runtimeAdapters, name, runtime)
    ensures FindProvider(a.capabilityProviders, name, runtime) == FindProvider(b.capabilityProviders, name, runtime)
  {
    hide IsUnambiguous, FindAdapter, FindProvider;
    SameElements(a.runtimeAdapters, b.runtimeAdapters);
    SameElements(a.capabilityProviders, b.capabilityProviders);
    var x, y := FindAdapter(a.runtimeAdapters, name, runtime), FindAdapter(b.runtimeAdapters, name, runtime);
    if x.Some? && y.Some? { OneAdapter(a, x.value, y.value, name, runtime); }
    var p, q := FindProvider(a.capabilityProviders, name, runtime), FindProvider(b.capabilityProviders, name, runtime);
    if p.Some? && q.Some? { OneProvider(a, p.value, q.value, name, runtime); }
  }

  // ---- Catalogs read from data ----

  predicate IsLabelChar(c: char) {
    IsItemChar(c) || c == '.' || c == '-'
  }

  /** `^(0|[1-9]\d*)\.(0|[1-9]\d*)\.(0|[1-9]\d*)(?:-[0-9A-Za-z.-]+)?$`. */
  predicate IsSemVer(text: string) {
    match SplitAt(text, '.')
    case None => false
    case Some((major, rest)) =>
      match SplitAt(rest, '.')
      case None => false
      case Some((minor, tail)) =>
        IsIndex(major) && IsIndex(minor) && IsPatch(tail)
  }

  /** A pre-release suffix: nothing, or a dash and a text of letters, digits, dots and dashes. */
  predicate IsSuffix(suffix: string) {
    suffix == "" ||
    (|suffix| > 1 && suffix[0] == '-' && forall i | 0 < i < |suffix| ::
      'a' <= suffix[i] <= 'z' || 'A' <= suffix[i] <= 'Z' || '0' <= suffix[i] <= '9' || suffix[i] == '.' || suffix[i] == '-')
  }

  function Release(major: nat, minor: nat, patch: nat): string {
    Decimal(major) + "." + (Decimal(minor) + "." + Decimal(patch))
  }

  lemma DecimalHasNone(n: nat, c: char)
    requires !IsDigit(c)
    ensures c !in Decimal(n)
  {
    DecimalIsDigits(n);
  }

  /** What follows the two dots. */
  predicate IsPatch(tail: string) {
    match SplitAt(tail, '-')
    case None => IsIndex(tail)
    case Some((patch, tag)) => IsIndex(patch) && |tag| > 0 && forall c | c in tag :: IsLabelChar(c)
  }

  lemma PatchIsNumber(tail: string) returns (patch: nat, suffix: string)
    requires IsPatch(tail)
    ensures IsSuffix(suffix) && tail == Decimal(patch) + suffix
  {
    hide SplitAt;
    match SplitAt(tail, '-')
    case None =>
      patch, suffix := IndexValue(tail), "";
      IndexIsDecimal(tail);
    case Some((number, tag)) =>
      patch, suffix := IndexValue(number), "-" + tag;
      IndexIsDecimal(number);
      assert forall i | 0 < i < |suffix| :: suffix[i] == tag[i - 1] && tag[i - 1] in tag;
  }

  lemma NumberIsPatch(patch: nat, suffix: string)
    requires IsSuffix(suffix)
    ensures IsPatch(Decimal(patch) + suffix)
  {
    hide SplitAt, Decimal, IsIndex;
    DecimalIsIndex(patch);
    DecimalHasNone(patch, '-');
    if suffix == "" {
      assert Decimal(patch) + suffix == Decimal(patch);
    } else {
      var tag := suffix[1..];
      assert suffix == ['-'] + tag;
      assert Decimal(patch) + suffix == Decimal(patch) + ['-'] + tag;
      SplitAtFirst(Decimal(patch), '-', tag);
      forall c | c in tag
        ensures IsLabelChar(c)
      {
        var i :| 0 <= i < |tag| && tag[i] == c;
        assert suffix[i + 1] == c;
      }
    }
  }

  lemma FirstAreNumbers(text: string, first: string, second: string, patch: nat, suffix: string)
    requires IsIndex(first) && IsIndex(second) && text == first + ['.'] + (second + ['.'] + (Decimal(patch) + suffix))
    ensures exists major, minor :: text == Release(major, minor, patch) + suffix
  {
    IndexIsDecimal(first);
    IndexIsDecimal(second);
    assert text == Release(IndexValue(first), IndexValue(second), patch) + suffix;
  }

  lemma ReleaseIsSemVer(text: string, major: nat, minor: nat, patch: nat, suffix: string)
    requires IsSuffix(suffix) && text == Release(major, minor, patch) + suffix
    ensures IsSemVer(text)
  {
    hide SplitAt, Decimal, IsIndex, IsSuffix, IsPatch;
    var tail := Decimal(patch) + suffix;
    var rest := Decimal(minor) + ['.'] + tail;
    assert text == Decimal(major) + ['.'] + rest;
    DecimalHasNone(major, '.');
    DecimalHasNone(minor, '.');
    SplitAtFirst(Decimal(major), '.', rest);
    SplitAtFirst(Decimal(minor), '.', tail);
    DecimalIsIndex(major);
    DecimalIsIndex(minor);
    NumberIsPatch(patch, suffix);
  }

  /** The accepted versions are three numbers without leading zeros, and such a suffix. */
  lemma SemVerIsRelease(text: string)
    ensures IsSemVer(text) <==> exists major, minor, patch, suffix :: IsSuffix(suffix) && text == Release(major, minor, patch) + suffix
  {
    hide SplitAt, Decimal, IsIndex, IsSuffix, IsLabelChar, IndexValue;
    if IsSemVer(text) {
      var (first, rest) := SplitAt(text, '.').value;
      var (second, tail) := SplitAt(rest, '.').value;
      var patch, suffix := PatchIsNumber(tail);
      FirstAreNumbers(text, first, second, patch, suffix);
    }
    if major, minor, patch, suffix :| IsSuffix(suffix) && text == Release(major, minor, patch) + suffix {
      ReleaseIsSemVer(text, major, minor, patch, suffix);
    }
  }

  function TextAt(entry: Json, key: string): string {
    match Member(entry, key)
    case Some(Str(text)) => text
    case _ => ""
  }

  function Items(entry: Json, key: string): seq<Json> {
    match Member(entry, key)
    case Some(Array(items)) => items
    case _ => []
  }

  function TextsAt(entry: Json, key: string): (texts: seq<string>)
    ensures |texts| == |Items(entry, key)|
  {
    Map((v: Json) => if v.Str? then v.text else "", Items(entry, key))
  }

  predicate IsIdentifier(v: Option<Json>) {
    v.Some? && v.value.Str? && IsId(v.value.text)
  }

  /** A non-empty list of identifiers without repetition. */
  ghost predicate IsNameList(entry: Json, key: string) {
    && Member(entry, key).Some? && Member(entry, key).value.Array? && |Items(entry, key)| > 0
    && (forall i | 0 <= i < |Items(entry, key)| :: IsIdentifier(Some(Items(entry, key)[i])))
    && NoRepeat(TextsAt(entry, key))
  }

  /** `new Set(value).size === value.length`, on a list of texts. */
  method CheckNameList(entry: Json, key: string) returns (ok: bool)
    ensures ok <==> IsNameList(entry, key)
  {
    hide IsIdentifier;
    var v := Member(entry, key);
    if v.None? || !v.value.Array? || |v.value.items| == 0 {
      return false;
    }
    var items, texts := Items(entry, key), TextsAt(entry, key);
    var seen: set<string> := {};
    ok := true;
    for i := 0 to |items|
      invariant forall t :: t in seen <==> t in texts[..i]
      invariant ok <==> NoRepeat(texts[..i]) && forall k | 0 <= k < i :: IsIdentifier(Some(items[k]))
    {
      assert texts[..i + 1] == texts[..i] + [texts[i]];
      NoRepeatStep(texts[..i], texts[i]);
      if !IsIdentifier(Some(items[i])) || texts[i] in seen {
        ok := false;
      }
      seen := seen + {texts[i]};
    }
    assert texts[..|texts|] == texts;
  }

  /** The shape of one descriptor: its version, one identifier and one list of identifiers besides its id. */
  ghost predicate IsEntry(entry: Json, name: string, list: string) {
    && entry.Object? && entry.members.Keys <= {"id", "version", name, list}
    && IsIdentifier(Member(entry, "id"))
    && Member(entry, "version").Some? && Member(entry, "version").value.Str? && IsSemVer(Member(entry, "version").value.text)
    && IsIdentifier(Member(entry, name)) && IsNameList(entry, list)
  }

  method CheckEntry(entry: Json, path: string, name: string, list: string) returns (found: seq<CatalogError>)
    ensures found == [] <==> IsEntry(entry, name, list)
  {
    hide IsIdentifier, IsSemVer, IsNameList;
    if !entry.Object? {
      return [Invalid(path, NoObject)];
    }
    found := [];
    var unknown := entry.members.Keys - {"id", "version", name, list};
    if unknown != {} { found := found + [Invalid(path, UnknownFields(unknown))]; }
    assert unknown == {} <==> entry.members.Keys <= {"id", "version", name, list} by {
      forall k | k in entry.members.Keys && k !in {"id", "version", name, list} ensures k in unknown {}
    }
    if !IsIdentifier(Member(entry, "id")) { found := found + [Invalid(path + "/id", NoIdentifier)]; }
    var version := Member(entry, "version");
    if version.None? || !version.value.Str? || !IsSemVer(version.value.text) { found := found + [Invalid(path + "/version", NoVersion)]; }
    if !IsIdentifier(Member(entry, name)) { found := found + [Invalid(path + "/" + name, NoIdentifier)]; }
    var listed := CheckNameList(entry, list);
    if !listed { found := found + [Invalid(path + "/" + list, NoNameList)]; }
  }

  method CheckAll(entries: seq<Json>, path: string, name: string, list: string) returns (found: seq<CatalogError>)
    ensures found == [] <==> forall i | 0 <= i < |entries| :: IsEntry(entries[i], name, list)
  {
    hide IsEntry;
    found := [];
    for i := 0 to |entries|
      invariant found == [] <==> forall k | 0 <= k < i :: IsEntry(entries[k], name, list)
    {
      var more := CheckEntry(entries[i], path + "/" + Decimal(i), name, list);
      found := found + more;
    }
  }

  function ReadAdapter(entry: Json): RuntimeAdapter {
    RuntimeAdapter(TextAt(entry, "id"), TextAt(entry, "version"), TextsAt(entry, "componentKinds"), TextAt(entry, "runtime"))
  }

  function ReadProvider(entry: Json): CapabilityProvider {
    CapabilityProvider(TextAt(entry, "id"), TextAt(entry, "version"), TextAt(entry, "capability"), TextsAt(entry, "runtimes"))
  }

  /** The descriptors held by a catalog value. */
  function ReadCatalog(input: Json): ExtensionCatalog {
    ExtensionCatalog(Map((e: Json) => ReadAdapter(e), Items(input, "runtimeAdapters")), Map((e: Json) => ReadProvider(e), Items(input, "capabilityProviders")))
  }

  predicate HasLists(input: Json) {
    && Member(input, "runtimeAdapters").Some? && Member(input, "runtimeAdapters").value.Array?
    && Member(input, "capabilityProviders").Some? && Member(input, "capabilityProviders").value.Array?
  }

  /** The values accepted as catalogs. */
  ghost predicate IsCatalog(input: Json) {
    && input.Object? && "runtimeAdapters" in input.members && input.members["runtimeAdapters"].Array?
    && "capabilityProviders" in input.members && input.members["capabilityProviders"].Array?
    && input.members.Keys <= {"runtimeAdapters", "capabilityProviders", "$comment"}
    && (forall i | 0 <= i < |Items(input, "runtimeAdapters")| :: IsEntry(Items(input, "runtimeAdapters")[i], "runtime", "componentKinds"))
    && (forall i | 0 <= i < |Items(input, "capabilityProviders")| :: IsEntry(Items(input, "capabilityProviders")[i], "capability", "runtimes"))
    && IsUnambiguous(Descriptors(ReadCatalog(input)))
  }

  /** Validates a catalog read from data: one with any error is never used. */
  method ValidateCatalog(input: Json) returns (catalog: Option<ExtensionCatalog>, found: seq<CatalogError>)
    ensures catalog == if IsCatalog(input) then Some(ReadCatalog(input)) else None
    ensures found == [] <==> IsCatalog(input)
  {
    hide IsEntry, IsUnambiguous, ReadCatalog, Member, HasLists;
    ListsAreMembers(input);
    if !HasLists(input) {
      return None, [Invalid("", NoCatalog)];
    }
    found := [];
    var extra := input.members.Keys - {"runtimeAdapters", "capabilityProviders", "$comment"};
    if extra != {} { found := found + [Invalid("", UnknownFields(extra))]; }
    assert extra == {} <==> input.members.Keys <= {"runtimeAdapters", "capabilityProviders", "$comment"} by {
      forall k | k in input.members.Keys && k !in {"runtimeAdapters", "capabilityProviders", "$comment"} ensures k in extra {}
    }
    var adapters := CheckAll(Items(input, "runtimeAdapters"), "/runtimeAdapters", "runtime", "componentKinds");
    var providers := CheckAll(Items(input, "capabilityProviders"), "/capabilityProviders", "capability", "runtimes");
    found := found + adapters + providers;
    if adapters != [] || providers != [] {
      return None, found;
    }
    var read := ReadCatalog(input);
    var more := CheckCoverage(read);
    found := found + more;
    catalog := if found == [] then Some(read) else None;
  }

  lemma ListsAreMembers(input: Json)
    ensures HasLists(input) <==>
            input.Object? && "runtimeAdapters" in input.members && input.members["runtimeAdapters"].Array? &&
            "capabilityProviders" in input.members && input.members["capabilityProviders"].Array?
  {}

  // ---- Writing a catalog and reading it back ----

  function Names(texts: seq<string>): Json {
    Array(Map((t: string) => Str(t), texts))
  }

  function AdapterJson(a: RuntimeAdapter): Json {
    Object(map["id" := Str(a.id), "version" := Str(a.version), "componentKinds" := Names(a.componentKinds), "runtime" := Str(a.runtime)])
  }

  function ProviderJson(p: CapabilityProvider): Json {
    Object(map["id" := Str(p.id), "version" := Str(p.version), "capability" := Str(p.capability), "runtimes" := Names(p.runtimes)])
  }

  function CatalogJson(c: ExtensionCatalog): Json {
    Object(map["runtimeAdapters" := Array(Map((a: RuntimeAdapter) => AdapterJson(a), c.runtimeAdapters)),
      "capabilityProviders" := Array(Map((p: CapabilityProvider) => ProviderJson(p), c.capabilityProviders))])
  }

  ghost predicate AreNames(texts: seq<string>) {
    |texts| > 0 && NoRepeat(texts) && forall i | 0 <= i < |texts| :: IsId(texts[i])
  }

  ghost predicate IsShapedAdapter(a: RuntimeAdapter) {
    IsId(a.id) && IsSemVer(a.version) && IsId(a.runtime) && AreNames(a.componentKinds)
  }

  ghost predicate IsShapedProvider(p: CapabilityProvider) {
    IsId(p.id) && IsSemVer(p.version) && IsId(p.capability) && AreNames(p.runtimes)
  }

  ghost predicate IsShaped(c: ExtensionCatalog) {
    && (forall i | 0 <= i < |c.runtimeAdapters| :: IsShapedAdapter(c.runtimeAdapters[i]))
    && (forall i | 0 <= i < |c.capabilityProviders| :: IsShapedProvider(c.capabilityProviders[i]))
  }

  lemma NamesReadBack(entry: Json, key: string, texts: seq<string>)
    requires Member(entry, key) == Some(Names(texts))
    ensures TextsAt(entry, key) == texts && (IsNameList(entry, key) <==> AreNames(texts))
  {
    hide IsId, Member;
    var items := Items(entry, key);
    assert forall i | 0 <= i < |texts| :: items[i] == Str(texts[i]);
    assert TextsAt(entry, key) == texts;
  }

  lemma AdapterReadsBack(a: RuntimeAdapter)
    ensures ReadAdapter(AdapterJson(a)) == a && (IsEntry(AdapterJson(a), "runtime", "componentKinds") <==> IsShapedAdapter(a))
  {
    hide IsId, IsSemVer, Names, IsNameList, AreNames;
    NamesReadBack(AdapterJson(a), "componentKinds", a.componentKinds);
    assert AdapterJson(a).members.Keys == {"id", "version", "runtime", "componentKinds"};
  }

  lemma ProviderReadsBack(p: CapabilityProvider)
    ensures ReadProvider(ProviderJson(p)) == p && (IsEntry(ProviderJson(p), "capability", "runtimes") <==> IsShapedProvider(p))
  {
    hide IsId, IsSemVer, Names, IsNameList, AreNames;
    NamesReadBack(ProviderJson(p), "runtimes", p.runtimes);
    assert ProviderJson(p).members.Keys == {"id", "version", "capability", "runtimes"};
  }

  /** A catalog that is written reads back as itself, and is accepted exactly when it is shaped and unambiguous. */
  lemma CatalogReadsBack(c: ExtensionCatalog)
    ensures ReadCatalog(CatalogJson(c)) == c
    ensures IsCatalog(CatalogJson(c)) <==> IsShaped(c) && IsUnambiguous(Descriptors(c))
  {
    hide ReadAdapter, ReadProvider, AdapterJson, ProviderJson, IsEntry, IsShapedAdapter, IsShapedProvider, IsUnambiguous;
    var v := CatalogJson(c);
    var adapters, providers := Items(v, "runtimeAdapters"), Items(v, "capabilityProviders");
    forall i | 0 <= i < |adapters| ensures adapters[i] == AdapterJson(c.runtimeAdapters[i]) { }
    forall i | 0 <= i < |c.runtimeAdapters| { AdapterReadsBack(c.runtimeAdapters[i]); }
    forall i | 0 <= i < |c.capabilityProviders| { ProviderReadsBack(c.capabilityProviders[i]); }
    assert ReadCatalog(v).runtimeAdapters == c.runtimeAdapters;
    assert ReadCatalog(v).capabilityProviders == c.capabilityProviders;
  }
}
