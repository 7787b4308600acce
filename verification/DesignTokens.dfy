/** Token trees of a Design System, flattened to tokens by dotted path. */
module DesignTokens {
  import opened Wrappers
  import opened Text
  import opened DesignSystem

  /** A token, a group of named children, or anything else, which is skipped. */
  datatype TokenTree = Leaf(token: Token) | Group(entries: seq<Entry>) | Other

  datatype Entry = Entry(name: string, child: TokenTree)

  /** Names that start with `$` are not children. */
  predicate IsReserved(name: string) {
    |name| > 0 && name[0] == '$'
  }

  function PathUnder(prefix: string, name: string): string {
    if prefix == "" then name else prefix + "." + name
  }

  function Flatten(entries: seq<Entry>, prefix: string): Tokens
    decreases entries, 1
  {
    if |entries| == 0 then map[] else
    var n := |entries| - 1;
    Flatten(entries[..n], prefix) + FlattenEntry(entries[n], prefix)
  }

  function FlattenEntry(e: Entry, prefix: string): Tokens
    decreases e, 0
  {
    if IsReserved(e.name) then map[] else
    match e.child
    case Other => map[]
    case Leaf(token) => map[PathUnder(prefix, e.name) := token]
    case Group(entries) => Flatten(entries, PathUnder(prefix, e.name))
  }

  /** Every token of a tree by dotted path; a path met twice keeps the last token. */
  method FlattenTokens(entries: seq<Entry>, prefix: string) returns (tokens: Tokens)
    ensures tokens == Flatten(entries, prefix)
    decreases entries
  {
    tokens := map[];
    for i := 0 to |entries|
      invariant tokens == Flatten(entries[..i], prefix)
    {
      assert entries[..i + 1][..i] == entries[..i];
      var e := entries[i];
      if IsReserved(e.name) {
        continue;
      }
      var path := PathUnder(prefix, e.name);
      match e.child
      case Other =>
      case Leaf(token) =>
        tokens := tokens[path := token];
      case Group(children) =>
        var inner := FlattenTokens(children, path);
        tokens := tokens + inner;
    }
    assert entries[..|entries|] == entries;
  }

  // ---- What the dotted paths mean ----

  /** The names to follow from the root lead to this token. */
  ghost predicate IsTokenAt(entries: seq<Entry>, route: seq<string>, token: Token)
    decreases |route|, 1
  {
    exists i :: 0 <= i < |entries| && EntryLeadsTo(entries[i], route, token)
  }

  ghost predicate EntryLeadsTo(e: Entry, route: seq<string>, token: Token)
    decreases |route|, 0
  {
    |route| > 0 && e.name == route[0] && (e.name == "" || e.name[0] != '$') &&
    if |route| == 1 then e.child == Leaf(token) else e.child.Group? && IsTokenAt(e.child.entries, route[1..], token)
  }

  predicate IsPlainName(name: string) {
    name != "" && '.' !in name
  }

  ghost predicate IsPlainEntry(e: Entry) {
    IsPlainName(e.name) && (e.child.Group? ==> IsPlain(e.child.entries))
  }

  /** Names as the schema of a Design System allows them: not empty, without a dot, and not repeated in a group. */
  ghost predicate IsPlain(entries: seq<Entry>) {
    (forall i | 0 <= i < |entries| :: IsPlainEntry(entries[i])) && forall i, j | 0 <= i < j < |entries| :: entries[i].name != entries[j].name
  }

  ghost predicate IsPlainRoute(route: seq<string>) {
    |route| > 0 && forall i | 0 <= i < |route| :: IsPlainName(route[i])
  }

  /** The names joined by dots. */
  function Dotted(route: seq<string>): string {
    if |route| == 0 then "" else if |route| == 1 then route[0] else route[0] + ['.'] + Dotted(route[1..])
  }

  function Joined(prefix: string, route: seq<string>): string {
    if prefix == "" then Dotted(route) else prefix + "." + Dotted(route)
  }

  /** Plain routes with the same dotted path are the same. */
  lemma {:induction false} DottedInjective(a: seq<string>, b: seq<string>)
    requires IsPlainRoute(a) && IsPlainRoute(b) && Dotted(a) == Dotted(b)
    ensures a == b
    decreases |a|
  {
    DotMarksMore(a);
    DotMarksMore(b);
    if |a| > 1 {
      FirstPartAgrees(a[0], b[0], Dotted(a[1..]), Dotted(b[1..]), '.');
      DottedInjective(a[1..], b[1..]);
      assert a == [a[0]] + a[1..] && b == [b[0]] + b[1..];
    }
  }

  lemma DotMarksMore(route: seq<string>)
    requires IsPlainRoute(route)
    ensures '.' in Dotted(route) <==> |route| > 1
  {
    if |route| > 1 {
      assert Dotted(route)[|route[0]|] == '.';
    }
  }

  lemma JoinedInjective(prefix: string, a: seq<string>, b: seq<string>)
    requires IsPlainRoute(a) && IsPlainRoute(b) && Joined(prefix, a) == Joined(prefix, b)
    ensures a == b
  {
    hide Dotted;
    if prefix != "" {
      assert Joined(prefix, a)[|prefix| + 1..] == Dotted(a) && Joined(prefix, b)[|prefix| + 1..] == Dotted(b);
    }
    DottedInjective(a, b);
  }

  lemma JoinedBelow(prefix: string, name: string, route: seq<string>)
    requires name != "" && |route| > 0
    ensures Joined(PathUnder(prefix, name), route) == Joined(prefix, [name] + route)
  {
    assert ([name] + route)[1..] == route;
    assert Dotted([name] + route) == name + ['.'] + Dotted(route);
    hide Dotted;
    if prefix != "" {
      assert prefix + "." + name + "." + Dotted(route) == prefix + "." + (name + ['.'] + Dotted(route));
    }
  }

  lemma JoinedOne(prefix: string, name: string)
    ensures Joined(prefix, [name]) == PathUnder(prefix, name)
  {}

  ghost predicate Gives(tokens: Tokens, path: string, token: Token) {
    path in tokens && tokens[path] == token
  }

  /** A route of the entry leads to the token, and is written as this path. */
  ghost predicate EntryHas(e: Entry, prefix: string, path: string, token: Token) {
    exists route :: IsPlainRoute(route) && EntryLeadsTo(e, route, token) && Joined(prefix, route) == path
  }

  ghost predicate GroupHas(entries: seq<Entry>, prefix: string, path: string, token: Token) {
    exists route :: IsPlainRoute(route) && IsTokenAt(entries, route, token) && Joined(prefix, route) == path
  }

  ghost predicate EntryIsExact(e: Entry, prefix: string) {
    forall path, token :: Gives(FlattenEntry(e, prefix), path, token) <==> EntryHas(e, prefix, path, token)
  }

  ghost predicate GroupIsExact(entries: seq<Entry>, prefix: string) {
    forall path, token :: Gives(Flatten(entries, prefix), path, token) <==> GroupHas(entries, prefix, path, token)
  }

  lemma {:induction false} EntriesAreExact(e: Entry, prefix: string)
    requires IsPlainEntry(e)
    ensures EntryIsExact(e, prefix)
    decreases e, 0
  {
    if !IsReserved(e.name) && e.child.Group? {
      FlattenIsExact(e.child.entries, PathUnder(prefix, e.name));
    }
    forall path, token
      ensures Gives(FlattenEntry(e, prefix), path, token) <==> EntryHas(e, prefix, path, token)
    {
      if !IsReserved(e.name) && e.child.Leaf? {
        LeafIsExact(e, prefix, path, token);
      } else if !IsReserved(e.name) && e.child.Group? {
        GroupEntryIsExact(e, prefix, path, token);
      }
    }
  }

  lemma LeafIsExact(e: Entry, prefix: string, path: string, token: Token)
    requires IsPlainEntry(e) && !IsReserved(e.name) && e.child.Leaf?
    ensures Gives(FlattenEntry(e, prefix), path, token) <==> EntryHas(e, prefix, path, token)
  {
    JoinedOne(prefix, e.name);
    var route := [e.name];
    assert IsPlainRoute(route) && EntryLeadsTo(e, route, e.child.token);
    if r :| IsPlainRoute(r) && EntryLeadsTo(e, r, token) && Joined(prefix, r) == path {
      assert r == route;
    }
  }

  lemma GroupEntryIsExact(e: Entry, prefix: string, path: string, token: Token)
    requires IsPlainEntry(e) && !IsReserved(e.name) && e.child.Group? && GroupIsExact(e.child.entries, PathUnder(prefix, e.name))
    ensures Gives(FlattenEntry(e, prefix), path, token) <==> EntryHas(e, prefix, path, token)
  {
    hide Flatten, IsTokenAt, Joined, Gives;
    var below := PathUnder(prefix, e.name);
    if GroupHas(e.child.entries, below, path, token) {
      var r :| IsPlainRoute(r) && IsTokenAt(e.child.entries, r, token) && Joined(below, r) == path;
      JoinedBelow(prefix, e.name, r);
      var route := [e.name] + r;
      assert route[1..] == r && IsPlainRoute(route) && EntryLeadsTo(e, route, token);
    }
    if route :| IsPlainRoute(route) && EntryLeadsTo(e, route, token) && Joined(prefix, route) == path {
      var r := route[1..];
      assert route == [e.name] + r && IsPlainRoute(r);
      JoinedBelow(prefix, e.name, r);
      assert GroupHas(e.child.entries, below, path, token);
    }
  }

  /** The dotted paths of a tree with plain names are exactly the routes to its tokens. */
  lemma {:induction false} FlattenIsExact(entries: seq<Entry>, prefix: string)
    requires IsPlain(entries)
    ensures forall path, token :: Gives(Flatten(entries, prefix), path, token) <==> GroupHas(entries, prefix, path, token)
    decreases entries, 1
  {
    hide FlattenEntry, EntryLeadsTo, Joined, IsPlainRoute, IsPlainEntry;
    if |entries| > 0 {
      hide Flatten, Gives;
      var n := |entries| - 1;
      FlattenIsExact(entries[..n], prefix);
      EntriesAreExact(entries[n], prefix);
      forall path, token
        ensures Gives(Flatten(entries, prefix), path, token) <==> GroupHas(entries, prefix, path, token)
      {
        OneMoreEntry(entries, prefix, path, token);
      }
    }
  }

  lemma OneMoreEntry(entries: seq<Entry>, prefix: string, path: string, token: Token)
    requires |entries| > 0 && IsPlain(entries)
    requires GroupIsExact(entries[..|entries| - 1], prefix) && EntryIsExact(entries[|entries| - 1], prefix)
    ensures Gives(Flatten(entries, prefix), path, token) <==> GroupHas(entries, prefix, path, token)
  {
    hide FlattenEntry, Joined, IsPlainRoute, EntryLeadsTo, IsPlain, IsTokenAt, Flatten;
    var n := |entries| - 1;
    var front, last := entries[..n], entries[n];
    assert Flatten(entries, prefix) == Flatten(front, prefix) + FlattenEntry(last, prefix) by { FlattenStep(entries, prefix); }
    assert Gives(Flatten(front, prefix), path, token) <==> GroupHas(front, prefix, path, token);
    assert Gives(FlattenEntry(last, prefix), path, token) <==> EntryHas(last, prefix, path, token);
    GroupHasStep(entries, prefix, path, token);
    if GroupHas(front, prefix, path, token) {
      LastEntryIsElsewhere(entries, prefix, path, token);
    }
  }

  lemma FlattenStep(entries: seq<Entry>, prefix: string)
    requires |entries| > 0
    ensures Flatten(entries, prefix) == Flatten(entries[..|entries| - 1], prefix) + FlattenEntry(entries[|entries| - 1], prefix)
  {
    hide FlattenEntry;
  }

  lemma GroupHasStep(entries: seq<Entry>, prefix: string, path: string, token: Token)
    requires |entries| > 0
    ensures GroupHas(entries, prefix, path, token) <==>
            GroupHas(entries[..|entries| - 1], prefix, path, token) || EntryHas(entries[|entries| - 1], prefix, path, token)
  {
    hide Joined, IsPlainRoute, EntryLeadsTo;
    var n := |entries| - 1;
    var front, last := entries[..n], entries[n];
    if route :| IsPlainRoute(route) && IsTokenAt(entries, route, token) && Joined(prefix, route) == path {
      var i :| 0 <= i < |entries| && EntryLeadsTo(entries[i], route, token);
      if i < n {
        assert front[i] == entries[i] && IsTokenAt(front, route, token);
      }
    }
    if route :| IsPlainRoute(route) && IsTokenAt(front, route, token) && Joined(prefix, route) == path {
      var i :| 0 <= i < |front| && EntryLeadsTo(front[i], route, token);
      assert EntryLeadsTo(entries[i], route, token) && IsTokenAt(entries, route, token);
    }
    if route :| IsPlainRoute(route) && EntryLeadsTo(last, route, token) && Joined(prefix, route) == path {
      assert IsTokenAt(entries, route, token);
    }
  }

  /** A path of an earlier entry is not a path of the last one. */
  lemma LastEntryIsElsewhere(entries: seq<Entry>, prefix: string, path: string, token: Token)
    requires |entries| > 0 && IsPlain(entries) && EntryIsExact(entries[|entries| - 1], prefix)
    requires GroupHas(entries[..|entries| - 1], prefix, path, token)
    ensures path !in FlattenEntry(entries[|entries| - 1], prefix)
  {
    hide FlattenEntry, Joined, IsPlainRoute, IsPlainEntry, EntryLeadsTo;
    var front, last := entries[..|entries| - 1], entries[|entries| - 1];
    var route :| IsPlainRoute(route) && IsTokenAt(front, route, token) && Joined(prefix, route) == path;
    var i :| 0 <= i < |front| && EntryLeadsTo(front[i], route, token);
    if path in FlattenEntry(last, prefix) {
      var t := FlattenEntry(last, prefix)[path];
      assert Gives(FlattenEntry(last, prefix), path, t);
      var r :| IsPlainRoute(r) && EntryLeadsTo(last, r, t) && Joined(prefix, r) == path;
      JoinedInjective(prefix, route, r);
      LeadsByName(entries[i], route, token);
      LeadsByName(last, r, t);
    }
  }

  lemma LeadsByName(e: Entry, route: seq<string>, token: Token)
    requires EntryLeadsTo(e, route, token)
    ensures |route| > 0 && route[0] == e.name
  {}
}
