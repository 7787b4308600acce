/** Design tokens: alias chains, their validation and their resolution. */
module DesignSystem {
  import opened Wrappers
  import opened Sets
  import opened Sorting
  import opened Lists
  import opened Checks

  datatype TokenType = Color | Dimension | FontFamily | FontWeight | NumberToken | Duration

  datatype TokenValue = Text(text: string) | Number(digits: string) | Families(names: seq<string>)

  datatype Token = Token(kind: TokenType, value: TokenValue)

  /** The tokens of a tree by dotted path. */
  type Tokens = map<string, Token>

  /** The path named by `{path}`, with no brace inside. */
  function AliasOf(value: TokenValue): Option<string> {
    match value
    case Text(s) =>
      if |s| > 2 && s[0] == '{' && s[|s| - 1] == '}' && '{' !in s[1..|s| - 1] && '}' !in s[1..|s| - 1]
      then Some(s[1..|s| - 1]) else None
    case _ => None
  }

  /** An alias is a path in braces. */
  lemma AliasIsExact(s: string, path: string)
    ensures AliasOf(Text(s)) == Some(path) <==> s == "{" + path + "}" && path != "" && '{' !in path && '}' !in path
  {
    if s == "{" + path + "}" {
      assert s[1..|s| - 1] == path;
    }
    if AliasOf(Text(s)) == Some(path) {
      assert s == [s[0]] + s[1..|s| - 1] + [s[|s| - 1]];
    }
  }

  /** The token an alias refers to. */
  function Next(flat: Tokens, path: string): Option<string> {
    if path in flat then AliasOf(flat[path].value) else None
  }

  /** `n` aliases followed. */
  function Follow(flat: Tokens, path: string, n: nat): Option<string>
    decreases n
  {
    if n == 0 then Some(path) else
    match Next(flat, path) case None => None case Some(q) => Follow(flat, q, n - 1)
  }

  ghost predicate NeverEnds(flat: Tokens, path: string) {
    forall n: nat :: Follow(flat, path, n).Some?
  }

  /** The chain ends, after `n` aliases, at a token with a literal value. */
  ghost predicate EndsAt(flat: Tokens, path: string, n: nat, end: string) {
    Follow(flat, path, n) == Some(end) && end in flat && AliasOf(flat[end].value).None?
  }

  ghost predicate EndsAtLiteral(flat: Tokens, path: string) {
    exists n: nat, end :: EndsAt(flat, path, n, end)
  }

  lemma {:induction false} FollowAdd(flat: Tokens, path: string, a: nat, b: nat)
    ensures Follow(flat, path, a + b) ==
            match Follow(flat, path, a) { case None => None case Some(q) => Follow(flat, q, b) }
    decreases a
  {
    if a > 0 && Next(flat, path).Some? {
      FollowAdd(flat, Next(flat, path).value, a - 1, b);
    }
  }

  /** A chain that meets the same token twice never ends. */
  lemma {:induction false} RepeatGoesOn(flat: Tokens, path: string, i: nat, j: nat, n: nat)
    requires j < i && Follow(flat, path, i).Some? && Follow(flat, path, i) == Follow(flat, path, j)
    ensures Follow(flat, path, n).Some?
    decreases n
  {
    if n <= i {
      FollowAdd(flat, path, n, i - n);
    } else {
      FollowAdd(flat, path, i, n - i);
      FollowAdd(flat, path, j, n - i);
      RepeatGoesOn(flat, path, i, j, n - i + j);
    }
  }

  /** The tokens met before the `n`th alias. */
  ghost function Met(flat: Tokens, path: string, n: nat): set<string> {
    if n == 0 then {} else
    Met(flat, path, n - 1) + match Follow(flat, path, n - 1) { case Some(q) => {q} case None => {} }
  }

  lemma {:induction false} MetIsFollowed(flat: Tokens, path: string, n: nat, q: string) returns (j: nat)
    requires q in Met(flat, path, n)
    ensures j < n && Follow(flat, path, j) == Some(q)
  {
    if Follow(flat, path, n - 1) == Some(q) {
      j := n - 1;
    } else {
      j := MetIsFollowed(flat, path, n - 1, q);
    }
  }

  /** Follows the aliases of a token from `target` on, until the chain ends or comes back on itself. */
  method AliasWalk(flat: Tokens, path: string, target: string) returns (cycle: bool)
    requires Next(flat, path) == Some(target)
    ensures cycle <==> NeverEnds(flat, path)
  {
    var seen := {path};
    var next := Some(target);
    ghost var i: nat := 1;
    assert Follow(flat, target, 0) == Some(target);
    while next.Some?
      invariant next == Follow(flat, path, i)
      invariant seen == Met(flat, path, i)
      decreases flat.Keys - seen, if next.Some? then 1 else 0
    {
      if next.value in seen {
        ghost var j := MetIsFollowed(flat, path, i, next.value);
        forall n: nat ensures Follow(flat, path, n).Some? { RepeatGoesOn(flat, path, i, j, n); }
        return true;
      }
      FollowAdd(flat, path, i, 1);
      assert Follow(flat, next.value, 1) == Next(flat, next.value) by { FollowOne(flat, next.value); }
      ghost var left := flat.Keys - seen;
      assert next.value in flat.Keys ==> next.value in left;
      seen := seen + {next.value};
      assert flat.Keys - seen <= left;
      next := Next(flat, next.value);
      i := i + 1;
    }
    cycle := false;
    assert Follow(flat, path, i).None?;
  }

  lemma FollowOne(flat: Tokens, path: string)
    ensures Follow(flat, path, 1) == Next(flat, path)
  {
    match Next(flat, path)
    case None =>
    case Some(q) => assert Follow(flat, q, 0) == Some(q);
  }

  // ---- Validation ----

  datatype TokenCode = InvalidValue | UnresolvedAlias | TypeMismatch | AliasCycle

  datatype TokenError = TokenError(code: TokenCode, path: string)

  /** Whether a literal is a value of a type. */
  type ValueRules = (TokenType, TokenValue) -> bool

  /** Which tokens deserve which error. */
  ghost predicate Deserves(flat: Tokens, rules: ValueRules, e: TokenError) {
    e.path in flat &&
    var token, next := flat[e.path], Next(flat, e.path);
    match e.code
    case InvalidValue => next.None? && !rules(token.kind, token.value)
    case UnresolvedAlias => next.Some? && next.value !in flat
    case TypeMismatch => next.Some? && next.value in flat && flat[next.value].kind != token.kind
    case AliasCycle => NeverEnds(flat, e.path)
  }

  lemma CycleHasTarget(flat: Tokens, path: string)
    requires NeverEnds(flat, path)
    ensures Next(flat, path).Some? && Next(flat, path).value in flat
  {
    FollowOne(flat, path);
    assert Follow(flat, path, 1).Some? && Follow(flat, path, 2).Some?;
    FollowAdd(flat, path, 1, 1);
    FollowOne(flat, Next(flat, path).value);
  }

  /** One token. */
  method CheckToken(flat: Tokens, rules: ValueRules, path: string) returns (found: seq<TokenError>)
    requires path in flat
    ensures forall e :: e in found <==> e.path == path && Deserves(flat, rules, e)
  {
    hide NeverEnds, AliasOf;
    found := [];
    var token, target := flat[path], Next(flat, path);
    forall e: TokenError | e.path == path && Deserves(flat, rules, e) && e.code == AliasCycle
      ensures target.Some? && target.value in flat
    {
      CycleHasTarget(flat, path);
    }
    if target.None? {
      if !rules(token.kind, token.value) {
        found := [TokenError(InvalidValue, path)];
      }
      return;
    }
    if target.value !in flat {
      found := [TokenError(UnresolvedAlias, path)];
      return;
    }
    if flat[target.value].kind != token.kind {
      found := [TokenError(TypeMismatch, path)];
    }
    var cycle := AliasWalk(flat, path, target.value);
    if cycle {
      found := found + [TokenError(AliasCycle, path)];
    }
  }

  /** Reports exactly the errors the tokens deserve; a cycle exactly when the walk of a token never ends. */
  method ValidateTokens(flat: Tokens, rules: ValueRules) returns (found: seq<TokenError>)
    ensures forall e :: e in found <==> Deserves(flat, rules, e)
  {
    hide Deserves, SortedKeys;
    found := [];
    var paths := SortedKeys(flat.Keys);
    for i := 0 to |paths|
      invariant forall e :: e in found <==> (exists j :: 0 <= j < i && paths[j] == e.path) && Deserves(flat, rules, e)
    {
      assert paths[i] in paths;
      var more := CheckToken(flat, rules, paths[i]);
      found := found + more;
    }
    forall e
      ensures e in found <==> Deserves(flat, rules, e)
    {
      DeservingIsToken(flat, rules, e);
      assert e.path in flat ==> exists j :: 0 <= j < |paths| && paths[j] == e.path;
    }
  }

  lemma DeservingIsToken(flat: Tokens, rules: ValueRules, e: TokenError)
    ensures Deserves(flat, rules, e) ==> e.path in flat
  {}

  // ---- Resolution ----

  datatype ResolvedToken = ResolvedToken(kind: TokenType, value: TokenValue)

  /** Follows aliases to a literal, with a depth guard; nothing stands for the exception. */
  function Resolve(flat: Tokens, path: string, depth: nat): Option<ResolvedToken>
    decreases |flat| + 1 - depth
  {
    if path !in flat || depth > |flat| then None else
    var token := flat[path];
    match AliasOf(token.value)
    case None => Some(ResolvedToken(token.kind, token.value))
    case Some(target) =>
      match Resolve(flat, target, depth + 1)
      case None => None
      case Some(r) => Some(r.(kind := token.kind))
  }

  lemma {:induction false} ResolveReaches(flat: Tokens, path: string, depth: nat)
    requires Resolve(flat, path, depth).Some?
    ensures EndsAtLiteral(flat, path)
    decreases |flat| + 1 - depth
  {
    match AliasOf(flat[path].value)
    case None => assert EndsAt(flat, path, 0, path);
    case Some(target) =>
      ResolveReaches(flat, target, depth + 1);
      var n: nat, end :| EndsAt(flat, target, n, end);
      assert EndsAt(flat, path, n + 1, end);
  }

  lemma {:induction false} ResolveAlong(flat: Tokens, path: string, depth: nat, n: nat, end: string)
    requires EndsAt(flat, path, n, end) && depth + n <= |flat|
    ensures path in flat
    ensures Resolve(flat, path, depth) == Some(ResolvedToken(flat[path].kind, flat[end].value))
    decreases n
  {
    if n > 0 {
      var target := Next(flat, path).value;
      ResolveAlong(flat, target, depth + 1, n - 1, end);
    }
  }

  /** Before its end, a chain is at a token. */
  lemma ChainIsAtToken(flat: Tokens, path: string, k: nat, n: nat)
    requires k < n && Follow(flat, path, n).Some?
    ensures Follow(flat, path, k).Some? && Follow(flat, path, k).value in flat
  {
    FollowAdd(flat, path, k, n - k);
  }

  /** A chain that ends never meets a token again. */
  lemma ChainMovesOn(flat: Tokens, path: string, k: nat, n: nat)
    requires k <= n && Follow(flat, path, n).Some? && Follow(flat, path, n + 1).None?
    ensures Follow(flat, path, k).Some? && Follow(flat, path, k).value !in Met(flat, path, k)
  {
    FollowAdd(flat, path, k, n - k);
    var q := Follow(flat, path, k).value;
    if q in Met(flat, path, k) {
      var j := MetIsFollowed(flat, path, k, q);
      RepeatGoesOn(flat, path, k, j, n + 1);
    }
  }

  lemma {:induction false} MetSize(flat: Tokens, path: string, k: nat, n: nat)
    requires k <= n && Follow(flat, path, n).Some? && Follow(flat, path, n + 1).None?
    ensures |Met(flat, path, k)| == k && Met(flat, path, k) <= flat.Keys
    decreases k
  {
    if k > 0 {
      MetSize(flat, path, k - 1, n);
      ChainIsAtToken(flat, path, k - 1, n);
      ChainMovesOn(flat, path, k - 1, n);
    }
  }

  /** A chain that ends is shorter than the number of tokens, so the depth guard never cuts it. */
  lemma ChainIsShort(flat: Tokens, path: string, n: nat, end: string)
    requires EndsAt(flat, path, n, end)
    ensures n < |flat|
  {
    FollowAdd(flat, path, n, 1);
    FollowOne(flat, end);
    MetSize(flat, path, n, n);
    ChainMovesOn(flat, path, n, n);
    SubsetIsSmaller(Met(flat, path, n) + {end}, flat.Keys);
    assert |flat.Keys| == |flat|;
  }

  /** Resolution succeeds exactly on chains that end at a literal, and gives that literal under the token's own type. */
  lemma ResolveIsExact(flat: Tokens, path: string)
    ensures Resolve(flat, path, 0).Some? <==> EndsAtLiteral(flat, path)
    ensures forall n: nat, end | EndsAt(flat, path, n, end) ::
              path in flat && Resolve(flat, path, 0) == Some(ResolvedToken(flat[path].kind, flat[end].value))
  {
    if Resolve(flat, path, 0).Some? {
      ResolveReaches(flat, path, 0);
    }
    forall n: nat, end | EndsAt(flat, path, n, end)
      ensures path in flat && Resolve(flat, path, 0) == Some(ResolvedToken(flat[path].kind, flat[end].value))
    {
      ChainIsShort(flat, path, n, end);
      ResolveAlong(flat, path, 0, n, end);
    }
  }

  /** Every alias names a token. */
  ghost predicate IsClosed(flat: Tokens) {
    forall p | p in flat && Next(flat, p).Some? :: Next(flat, p).value in flat
  }

  lemma {:induction false} ClosedChainStays(flat: Tokens, path: string, n: nat)
    requires IsClosed(flat) && path in flat && Follow(flat, path, n).Some?
    ensures Follow(flat, path, n).value in flat
    decreases n
  {
    if n > 0 {
      ClosedChainStays(flat, Next(flat, path).value, n - 1);
    }
  }

  lemma {:induction false} LastStep(flat: Tokens, path: string, n: nat) returns (m: nat)
    requires Follow(flat, path, n).None?
    ensures Follow(flat, path, m).Some? && Follow(flat, path, m + 1).None?
  {
    if Follow(flat, path, n - 1).Some? {
      m := n - 1;
    } else {
      m := LastStep(flat, path, n - 1);
    }
  }

  lemma ResolvableTokenEnds(flat: Tokens, path: string)
    requires path in flat && Resolve(flat, path, 0).Some?
    ensures !NeverEnds(flat, path)
    ensures Next(flat, path).Some? ==> Next(flat, path).value in flat
  {
    ResolveIsExact(flat, path);
    var n: nat, end :| EndsAt(flat, path, n, end);
    FollowAdd(flat, path, n, 1);
    FollowOne(flat, end);
    assert Follow(flat, path, n + 1).None?;
    if n > 1 {
      FollowAdd(flat, path, 1, 1);
      FollowAdd(flat, path, 2, n - 2);
      FollowOne(flat, path);
      FollowOne(flat, Next(flat, path).value);
    }
  }

  lemma EndingTokenResolves(flat: Tokens, path: string)
    requires IsClosed(flat) && path in flat && !NeverEnds(flat, path)
    ensures Resolve(flat, path, 0).Some?
  {
    hide Resolve, IsClosed;
    var n: nat :| Follow(flat, path, n).None?;
    var m := LastStep(flat, path, n);
    ClosedChainStays(flat, path, m);
    var end := Follow(flat, path, m).value;
    FollowAdd(flat, path, m, 1);
    FollowOne(flat, end);
    assert EndsAt(flat, path, m, end);
    ResolveIsExact(flat, path);
  }

  /** Every token resolves exactly when the alias graph is closed and no chain goes on for ever. */
  lemma ResolvableIffClosedAndFinite(flat: Tokens)
    ensures (forall p | p in flat :: Resolve(flat, p, 0).Some?) <==>
            IsClosed(flat) && forall p | p in flat :: !NeverEnds(flat, p)
  {
    hide Resolve, NeverEnds, AliasOf;
    if forall p | p in flat :: Resolve(flat, p, 0).Some? {
      forall p | p in flat { ResolvableTokenEnds(flat, p); }
    }
    if IsClosed(flat) && forall p | p in flat :: !NeverEnds(flat, p) {
      forall p | p in flat { EndingTokenResolves(flat, p); }
    }
  }

  /** Tokens with nothing to report resolve. */
  lemma ValidTokensResolve(flat: Tokens, rules: ValueRules)
    requires forall e :: !Deserves(flat, rules, e)
    ensures forall p | p in flat :: Resolve(flat, p, 0).Some?
  {
    forall p | p in flat
      ensures !NeverEnds(flat, p) && (Next(flat, p).Some? ==> Next(flat, p).value in flat)
    {
      assert !Deserves(flat, rules, TokenError(AliasCycle, p));
      assert !Deserves(flat, rules, TokenError(UnresolvedAlias, p));
    }
    ResolvableIffClosedAndFinite(flat);
  }

  // ---- Overrides ----

  type Overrides = map<string, TokenValue>

  /** The tokens of a context: an override keeps the type of the token it replaces. */
  function WithOverrides(flat: Tokens, overrides: Overrides): Tokens {
    map p | p in flat :: if p in overrides then Token(flat[p].kind, overrides[p]) else flat[p]
  }

  /** What validation asks of an override: a known token, and a literal or an alias of its type. */
  predicate OverrideOk(flat: Tokens, rules: ValueRules, path: string, value: TokenValue) {
    path in flat &&
    match AliasOf(value)
    case None => rules(flat[path].kind, value)
    case Some(target) => target in flat && flat[target].kind == flat[path].kind
  }

  ghost predicate IsValidSystem(flat: Tokens, overrides: Overrides, rules: ValueRules) {
    (forall e :: !Deserves(flat, rules, e)) && OverridesOk(flat, rules, overrides)
  }

  datatype DesignContext = DesignContext(id: string, overrides: Overrides)

  datatype DesignError = DuplicateContext(id: string) | InvalidToken(error: TokenError) | InvalidOverride(context: string, path: string)

  function ContextIds(contexts: seq<DesignContext>): seq<string> {
    Lists.Map((c: DesignContext) => c.id, contexts)
  }

  predicate OverridesOk(flat: Tokens, rules: ValueRules, overrides: Overrides) {
    forall p | p in overrides :: OverrideOk(flat, rules, p, overrides[p])
  }

  method CheckOverrides(context: DesignContext, flat: Tokens, rules: ValueRules) returns (found: seq<DesignError>)
    ensures found == [] <==> OverridesOk(flat, rules, context.overrides)
  {
    hide OverrideOk, Sorted, SortedKeys, OverridesOk;
    found := [];
    var paths := SortedKeys(context.overrides.Keys);
    for i := 0 to |paths|
      invariant found == [] <==> forall k | 0 <= k < i :: OverrideOk(flat, rules, paths[k], context.overrides[paths[k]])
    {
      if !OverrideOk(flat, rules, paths[i], context.overrides[paths[i]]) {
        found := found + [InvalidOverride(context.id, paths[i])];
      }
    }
    ListedOverrides(flat, rules, context.overrides, paths);
  }

  lemma ListedOverrides(flat: Tokens, rules: ValueRules, overrides: Overrides, paths: seq<string>)
    requires forall p :: p in paths <==> p in overrides
    ensures OverridesOk(flat, rules, overrides) <==> forall k | 0 <= k < |paths| :: OverrideOk(flat, rules, paths[k], overrides[paths[k]])
  {
    hide OverrideOk;
    if forall k | 0 <= k < |paths| :: OverrideOk(flat, rules, paths[k], overrides[paths[k]]) {
      forall p | p in overrides ensures OverrideOk(flat, rules, p, overrides[p]) {
        var k :| 0 <= k < |paths| && paths[k] == p;
      }
    }
  }

  /** Reports nothing exactly when every context, taken with the tokens, is valid and no context id is repeated. */
  method ValidateDesignSystem(flat: Tokens, contexts: seq<DesignContext>, rules: ValueRules) returns (found: seq<DesignError>)
    ensures found == [] <==>
            NoRepeat(ContextIds(contexts)) && (forall e :: !Deserves(flat, rules, e)) && forall c | c in contexts :: OverridesOk(flat, rules, c.overrides)
  {
    hide Deserves, OverridesOk, NoRepeat;
    var twice := UniqueIds(ContextIds(contexts));
    var errors := ValidateTokens(flat, rules);
    if errors != [] { assert errors[0] in errors; }
    found := Lists.Map(id => DuplicateContext(id), twice) + Lists.Map(e => InvalidToken(e), errors);
    ghost var before := found == [];
    for i := 0 to |contexts|
      invariant found == [] <==> before && forall k | 0 <= k < i :: OverridesOk(flat, rules, contexts[k].overrides)
    {
      var more := CheckOverrides(contexts[i], flat, rules);
      found := found + more;
    }
  }

  /** The tokens of a context, resolved; nothing when some token cannot be. */
  method ResolveDesignTokens(flat: Tokens, overrides: Overrides) returns (r: Option<map<string, ResolvedToken>>)
    ensures r.Some? <==> forall p | p in flat :: EndsAtLiteral(WithOverrides(flat, overrides), p)
    ensures r.Some? ==> r.value.Keys == flat.Keys
    ensures r.Some? ==> forall p | p in flat :: Resolve(WithOverrides(flat, overrides), p, 0) == Some(r.value[p])
  {
    hide SortedKeys, Sorted, Resolve, EndsAtLiteral, EndsAt, WithOverrides, Follow, Next, AliasOf;
    var tokens := WithOverrides(flat, overrides);
    var paths := SortedKeys(flat.Keys);
    var result: map<string, ResolvedToken> := map[];
    for i := 0 to |paths|
      invariant forall p :: p in result <==> exists j :: 0 <= j < i && paths[j] == p
      invariant forall j | 0 <= j < i :: Resolve(tokens, paths[j], 0) == Some(result[paths[j]])
      invariant forall j | 0 <= j < i :: EndsAtLiteral(tokens, paths[j])
    {
      assert paths[i] in paths;
      ResolveIsExact(tokens, paths[i]);
      var resolved := Resolve(tokens, paths[i], 0);
      if resolved.None? {
        return None;
      }
      result := result[paths[i] := resolved.value];
    }
    assert forall p | p in flat :: p in paths;
    r := Some(result);
  }

  /** A valid context resolves exactly when its overrides close no alias chain on itself. */
  lemma ValidContextResolves(flat: Tokens, overrides: Overrides, rules: ValueRules)
    requires IsValidSystem(flat, overrides, rules)
    ensures var tokens := WithOverrides(flat, overrides);
            (forall p | p in flat :: EndsAtLiteral(tokens, p)) <==> forall p | p in flat :: !NeverEnds(tokens, p)
  {
    hide AliasOf, NeverEnds, EndsAtLiteral, Resolve;
    var tokens := WithOverrides(flat, overrides);
    forall p | p in tokens && Next(tokens, p).Some?
      ensures Next(tokens, p).value in tokens
    {
      if p in overrides {
        assert OverrideOk(flat, rules, p, overrides[p]);
      } else {
        assert !Deserves(flat, rules, TokenError(UnresolvedAlias, p));
      }
    }
    assert IsClosed(tokens);
    ResolvableIffClosedAndFinite(tokens);
    forall p | p in flat
      ensures EndsAtLiteral(tokens, p) <==> Resolve(tokens, p, 0).Some?
    {
      ResolveIsExact(tokens, p);
    }
    assert tokens.Keys == flat.Keys;
  }

  /** Validation does not look for cycles among overrides: an accepted system whose context cannot be resolved. */
  lemma AcceptedContextMayCycle()
    ensures var flat := map["a" := Token(Color, Text("#000000")), "b" := Token(Color, Text("{a}"))];
            var overrides := map["a" := Text("{b}")];
            var rules: ValueRules := (kind, value) => AliasOf(value).None?;
            IsValidSystem(flat, overrides, rules) && !EndsAtLiteral(WithOverrides(flat, overrides), "a")
  {
    var flat := map["a" := Token(Color, Text("#000000")), "b" := Token(Color, Text("{a}"))];
    var overrides := map["a" := Text("{b}")];
    var rules: ValueRules := (kind, value) => AliasOf(value).None?;
    var tokens := WithOverrides(flat, overrides);
    assert Next(flat, "a") == None && "{a}"[1..2] == "a" && Next(flat, "b") == Some("a");
    assert "{b}"[1..2] == "b" && Next(tokens, "a") == Some("b") && Next(tokens, "b") == Some("a");
    FollowOne(flat, "a");
    FollowOne(flat, "b");
    FollowAdd(flat, "b", 1, 1);
    forall e
      ensures !Deserves(flat, rules, e)
    {
      assert Follow(flat, "a", 1).None? && Follow(flat, "b", 2).None?;
    }
    FollowAdd(tokens, "a", 1, 1);
    FollowOne(tokens, "a");
    FollowOne(tokens, "b");
    forall n: nat ensures Follow(tokens, "a", n).Some? { RepeatGoesOn(tokens, "a", 2, 0, n); }
    if EndsAtLiteral(tokens, "a") { EndingIsFinite(tokens, "a"); }
  }

  lemma EndingIsFinite(flat: Tokens, path: string)
    requires EndsAtLiteral(flat, path)
    ensures !NeverEnds(flat, path)
  {
    var n: nat, end :| EndsAt(flat, path, n, end);
    FollowAdd(flat, path, n, 1);
    FollowOne(flat, end);
    assert Follow(flat, path, n + 1).None?;
  }
}
