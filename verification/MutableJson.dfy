/**
 * The structured clone of a document as what it is at run time, a tree of mutable arrays
 * and objects, and the application of changes to it in place.
 */
module MutableJson {
  import opened Wrappers
  import opened Text
  import opened Json
  import opened JsonPointer
  import opened Lists
  import opened ChangeRequest

  class Container {
    const isArray: bool
    var items: seq<Value>
    var members: map<string, Value>

    constructor (isArray: bool)
      ensures this.isArray == isArray && items == [] && members == map[]
    {
      this.isArray, items, members := isArray, [], map[];
    }
  }

  datatype Value = Scalar(json: Json) | Reference(to: Container)

  /**
   * What a value is meant to hold: the JSON it denotes, with the container of each array
   * and object. The names of an object are listed in some order, beside its members.
   */
  datatype Shape =
    | Leaf(json: Json)
    | ArrayOf(node: Container, children: seq<Shape>)
    | ObjectOf(node: Container, names: seq<string>, children: seq<Shape>)

  ghost function ValueOf(t: Shape): Value {
    if t.Leaf? then Scalar(t.json) else Reference(t.node)
  }

  ghost function JsonOf(t: Shape): Json {
    match t
    case Leaf(v) => v
    case ArrayOf(_, children) => Array(JsonsOf(children))
    case ObjectOf(_, names, children) => Object(Pairing(names, JsonsOf(children)))
  }

  ghost function JsonsOf(shapes: seq<Shape>): (r: seq<Json>)
    ensures |r| == |shapes| && forall i | 0 <= i < |r| :: r[i] == JsonOf(shapes[i])
  {
    seq(|shapes|, i requires 0 <= i < |shapes| => JsonOf(shapes[i]))
  }

  /** The object with these names and members. */
  ghost function Pairing<T>(names: seq<string>, values: seq<T>): map<string, T> {
    if |names| == 0 || |values| != |names| then map[] else
    Pairing(names[..|names| - 1], values[..|names| - 1])[names[|names| - 1] := values[|names| - 1]]
  }

  ghost function Nodes(t: Shape): set<Container> {
    if t.Leaf? then {} else {t.node} + AllNodes(t.children)
  }

  ghost function AllNodes(shapes: seq<Shape>): set<Container> {
    set i, x | 0 <= i < |shapes| && x in Nodes(shapes[i]) :: x
  }

  /** No container is shared, neither between siblings nor with an ancestor, and no name is repeated. */
  ghost predicate IsTree(t: Shape) {
    match t
    case Leaf(v) => !IsContainer(v)
    case ArrayOf(n, children) => n !in AllNodes(children) && IsForest(children)
    case ObjectOf(n, names, children) => n !in AllNodes(children) && IsForest(children) && |names| == |children| && NoRepeat(names)
  }

  ghost predicate IsForest(shapes: seq<Shape>) {
    (forall i | 0 <= i < |shapes| :: IsTree(shapes[i])) && forall i, j | 0 <= i < j < |shapes| :: Nodes(shapes[i]) !! Nodes(shapes[j])
  }

  ghost function ValuesOf(shapes: seq<Shape>): (r: seq<Value>)
    ensures |r| == |shapes| && forall i | 0 <= i < |r| :: r[i] == ValueOf(shapes[i])
  {
    seq(|shapes|, i requires 0 <= i < |shapes| => ValueOf(shapes[i]))
  }

  /** The container of the shape itself holds what the shape says. */
  ghost predicate HoldsHere(t: Shape)
    requires !t.Leaf?
    reads t.node
  {
    match t
    case ArrayOf(n, children) => n.isArray && n.items == ValuesOf(children)
    case ObjectOf(n, names, children) => !n.isArray && n.members == Pairing(names, ValuesOf(children))
  }

  /** All the containers hold what the shape says. */
  ghost predicate Holds(t: Shape)
    reads Nodes(t)
    decreases t
  {
    t.Leaf? || (HoldsHere(t) && AllHold(t.children))
  }

  ghost predicate AllHold(shapes: seq<Shape>)
    reads AllNodes(shapes)
    decreases shapes
  {
    forall i | 0 <= i < |shapes| :: Holds(shapes[i])
  }

  // ---- Lists of shapes ----

  lemma PickShape(shapes: seq<Shape>, i: nat)
    requires i < |shapes|
    ensures Nodes(shapes[i]) <= AllNodes(shapes)
    ensures IsForest(shapes) ==> IsTree(shapes[i])
    ensures AllHold(shapes) ==> Holds(shapes[i])
  {
    hide Nodes, IsTree, Holds;
  }

  /** A new shape put anywhere among others. */
  lemma InsertShape(shapes: seq<Shape>, p: nat, s: Shape)
    requires p <= |shapes| && AllHold(shapes) && IsForest(shapes) && Holds(s) && IsTree(s) && Nodes(s) !! AllNodes(shapes)
    ensures AllHold(shapes[..p] + [s] + shapes[p..]) && IsForest(shapes[..p] + [s] + shapes[p..])
    ensures AllNodes(shapes[..p] + [s] + shapes[p..]) <= AllNodes(shapes) + Nodes(s)
  {
    hide Nodes, IsTree, Holds;
    var all := shapes[..p] + [s] + shapes[p..];
    forall i | 0 <= i < |all|
      ensures all[i] == if i < p then shapes[i] else if i == p then s else shapes[i - 1]
    {}
    forall i | 0 <= i < |shapes| ensures Nodes(shapes[i]) <= AllNodes(shapes) { PickShape(shapes, i); }
  }

  /** A shape put in the place of another. */
  lemma ReplaceShape(shapes: seq<Shape>, p: nat, s: Shape)
    requires p < |shapes| && IsForest(shapes) && IsTree(s)
    requires Nodes(s) * AllNodes(shapes) <= Nodes(shapes[p])
    ensures IsForest(shapes[p := s]) && AllNodes(shapes[p := s]) <= AllNodes(shapes) + Nodes(s)
    ensures AllHold(shapes) && Holds(s) ==> AllHold(shapes[p := s])
  {
    hide Nodes, IsTree, Holds;
    var all := shapes[p := s];
    forall i | 0 <= i < |shapes| ensures Nodes(shapes[i]) <= AllNodes(shapes) { PickShape(shapes, i); }
    forall i | 0 <= i < |shapes| && i != p ensures Nodes(shapes[i]) !! Nodes(s) {
      assert Nodes(shapes[i]) !! Nodes(shapes[p]);
    }
  }

  lemma RemoveShape(shapes: seq<Shape>, p: nat)
    requires p < |shapes| && AllHold(shapes) && IsForest(shapes)
    ensures AllHold(shapes[..p] + shapes[p + 1..]) && IsForest(shapes[..p] + shapes[p + 1..])
    ensures AllNodes(shapes[..p] + shapes[p + 1..]) <= AllNodes(shapes)
  {
    hide Nodes, IsTree, Holds;
    var all := shapes[..p] + shapes[p + 1..];
    forall i | 0 <= i < |all| ensures all[i] == if i < p then shapes[i] else shapes[i + 1] {}
    forall i | 0 <= i < |shapes| ensures Nodes(shapes[i]) <= AllNodes(shapes) { PickShape(shapes, i); }
  }

  // ---- Names and members ----

  lemma {:induction false} PairingAt<T>(names: seq<string>, values: seq<T>, i: nat)
    requires NoRepeat(names) && |names| == |values| && i < |names|
    ensures names[i] in Pairing(names, values) && Pairing(names, values)[names[i]] == values[i]
  {
    var n := |names| - 1;
    if i < n {
      PairingAt(names[..n], values[..n], i);
    }
  }

  lemma {:induction false} PairingKeys<T>(names: seq<string>, values: seq<T>)
    requires |names| == |values|
    ensures forall k :: k in Pairing(names, values) <==> k in names
  {
    if |names| > 0 {
      var n := |names| - 1;
      PairingKeys(names[..n], values[..n]);
      assert names == names[..n] + [names[n]];
    }
  }

  lemma PairingSnoc<T>(names: seq<string>, values: seq<T>, name: string, value: T)
    requires |names| == |values|
    ensures Pairing(names + [name], values + [value]) == Pairing(names, values)[name := value]
  {
    assert (names + [name])[..|names|] == names && (values + [value])[..|values|] == values;
  }

  /** The members of an object, taken through their shapes. */
  lemma JsonMembers(names: seq<string>, shapes: seq<Shape>)
    requires NoRepeat(names) && |names| == |shapes|
    ensures forall k :: k in Pairing(names, JsonsOf(shapes)) <==> k in names
    ensures forall k | k in names :: k in Pairing(names, shapes) && Pairing(names, JsonsOf(shapes))[k] == JsonOf(Pairing(names, shapes)[k])
  {
    hide JsonOf, Pairing;
    PairingKeys(names, shapes);
    PairingKeys(names, JsonsOf(shapes));
    forall k | k in names
      ensures Pairing(names, JsonsOf(shapes))[k] == JsonOf(Pairing(names, shapes)[k])
    {
      var i :| 0 <= i < |names| && names[i] == k;
      PairingAt(names, shapes, i);
      PairingAt(names, JsonsOf(shapes), i);
    }
  }

  // ---- Structured clone ----

  /** A copy that shares nothing with the original; nothing that existed before is changed. */
  method StructuredClone(v: Value, ghost t: Shape) returns (copy: Value, ghost s: Shape)
    requires Holds(t) && IsTree(t) && ValueOf(t) == v
    ensures Holds(s) && IsTree(s) && ValueOf(s) == copy && JsonOf(s) == JsonOf(t)
    ensures fresh(Nodes(s))
    decreases t, 3
  {
    match v
    case Scalar(json) =>
      copy, s := v, t;
    case Reference(from) =>
      if from.isArray {
        copy, s := CloneArray(from, t);
      } else {
        copy, s := CloneObject(from, t);
      }
  }

  method CloneArray(from: Container, ghost t: Shape) returns (copy: Value, ghost s: Shape)
    requires t.ArrayOf? && t.node == from && Holds(t) && IsTree(t)
    ensures Holds(s) && IsTree(s) && ValueOf(s) == copy && JsonOf(s) == JsonOf(t)
    ensures fresh(Nodes(s))
    decreases t, 2
  {
    var values;
    ghost var shapes;
    values, shapes := CloneItems(from.items, t.children);
    assert allocated(AllNodes(shapes));
    var node := new Container(true);
    assert node !in AllNodes(shapes);
    node.items := values;
    assert AllHold(shapes);
    copy, s := Reference(node), ArrayOf(node, shapes);
  }

  method CloneItems(from: seq<Value>, ghost t: seq<Shape>) returns (values: seq<Value>, ghost shapes: seq<Shape>)
    requires AllHold(t) && IsForest(t) && from == ValuesOf(t)
    ensures AllHold(shapes) && IsForest(shapes) && values == ValuesOf(shapes) && JsonsOf(shapes) == JsonsOf(t)
    ensures fresh(AllNodes(shapes))
    decreases t, 0
  {
    hide Holds, IsTree, Nodes, JsonOf, AllHold, IsForest, AllNodes;
    values, shapes := [], [];
    NoShape();
    assert allocated(AllNodes(t));
    for i := 0 to |from|
      invariant |shapes| == i && AllHold(t)
      invariant AllHold(shapes) && IsForest(shapes) && values == ValuesOf(shapes)
      invariant forall k | 0 <= k < i :: JsonOf(shapes[k]) == JsonOf(t[k])
      invariant fresh(AllNodes(shapes))
    {
      var value;
      ghost var shape;
      PickShape(t, i);
      assert allocated(AllNodes(shapes));
      value, shape := StructuredClone(from[i], t[i]);
      InsertShape(shapes, i, shape);
      assert shapes[..i] + [shape] + shapes[i..] == shapes + [shape];
      values, shapes := values + [value], shapes + [shape];
    }
  }

  lemma NoShape()
    ensures AllHold([]) && IsForest([]) && AllNodes([]) == {}
  {}

  method CloneObject(from: Container, ghost t: Shape) returns (copy: Value, ghost s: Shape)
    requires t.ObjectOf? && t.node == from && Holds(t) && IsTree(t)
    ensures Holds(s) && IsTree(s) && ValueOf(s) == copy && JsonOf(s) == JsonOf(t)
    ensures fresh(Nodes(s))
    decreases t, 2
  {
    var values;
    ghost var names, shapes;
    values, names, shapes := CloneMembers(from.members, t);
    assert allocated(AllNodes(shapes));
    var node := new Container(false);
    assert node !in AllNodes(shapes);
    node.members := values;
    assert AllHold(shapes);
    copy, s := Reference(node), ObjectOf(node, names, shapes);
    SameMembers(t, s);
  }

  method CloneMembers(from: map<string, Value>, ghost t: Shape)
    returns (values: map<string, Value>, ghost names: seq<string>, ghost shapes: seq<Shape>)
    requires t.ObjectOf? && AllHold(t.children) && IsTree(t) && from == Pairing(t.names, ValuesOf(t.children))
    ensures AllHold(shapes) && IsForest(shapes) && |names| == |shapes| && NoRepeat(names)
    ensures values == Pairing(names, ValuesOf(shapes))
    ensures (forall k :: k in names <==> k in t.names) && CopiesMembers(t, names, shapes)
    ensures fresh(AllNodes(shapes))
    decreases t, 1
  {
    hide Holds, IsTree, Nodes, JsonOf, AllHold, IsForest, AllNodes, Pairing, NoRepeat;
    values, names, shapes := map[], [], [];
    NoShape();
    NoPairing();
    assert IsForest(t.children) && NoRepeat(t.names) && |t.names| == |t.children| by { TreeParts(t); }
    PairingKeys(t.names, ValuesOf(t.children));
    assert allocated(AllNodes(t.children));
    var left := from.Keys;
    while left != {}
      invariant left <= from.Keys && AllHold(t.children)
      invariant AllHold(shapes) && IsForest(shapes) && |names| == |shapes| && NoRepeat(names)
      invariant values == Pairing(names, ValuesOf(shapes))
      invariant forall k :: k in names <==> k in from.Keys && k !in left
      invariant CopiesMembers(t, names, shapes)
      invariant fresh(AllNodes(shapes))
      decreases left
    {
      var key :| key in left;
      ghost var i :| 0 <= i < |t.names| && t.names[i] == key;
      var value;
      ghost var shape;
      PickShape(t.children, i);
      PairingAt(t.names, ValuesOf(t.children), i);
      assert allocated(AllNodes(shapes));
      value, shape := StructuredClone(from[key], t.children[i]);
      InsertShape(shapes, |shapes|, shape);
      assert shapes[..|shapes|] + [shape] + shapes[|shapes|..] == shapes + [shape];
      assert ValuesOf(shapes + [shape]) == ValuesOf(shapes) + [value];
      PairingSnoc(names, ValuesOf(shapes), key, value);
      NoRepeatStep(names, key);
      CopiesOneMore(t, names, shapes, i, shape);
      values, names, shapes := values[key := value], names + [key], shapes + [shape];
      left := left - {key};
    }
  }

  /** Each copied member denotes what the member of `t` under the same name denotes. */
  ghost predicate CopiesMembers(t: Shape, names: seq<string>, shapes: seq<Shape>)
    requires t.ObjectOf?
  {
    |names| == |shapes| && forall j | 0 <= j < |names| :: names[j] in Pairing(t.names, t.children) && JsonOf(shapes[j]) == JsonOf(Pairing(t.names, t.children)[names[j]])
  }

  lemma CopiesOneMore(t: Shape, names: seq<string>, shapes: seq<Shape>, i: nat, shape: Shape)
    requires t.ObjectOf? && CopiesMembers(t, names, shapes) && NoRepeat(t.names) && |t.names| == |t.children|
    requires i < |t.names| && JsonOf(shape) == JsonOf(t.children[i])
    ensures CopiesMembers(t, names + [t.names[i]], shapes + [shape])
  {
    hide JsonOf, Pairing;
    PairingAt(t.names, t.children, i);
  }

  lemma NoPairing()
    ensures Pairing<Value>([], ValuesOf([])) == map[] && NoRepeat<string>([])
  {}

  lemma TreeParts(t: Shape)
    requires IsTree(t) && !t.Leaf?
    ensures t.node !in AllNodes(t.children) && IsForest(t.children)
    ensures t.ObjectOf? ==> NoRepeat(t.names) && |t.names| == |t.children|
  {}

  lemma SameMembers(t: Shape, s: Shape)
    requires t.ObjectOf? && s.ObjectOf? && IsTree(t) && IsTree(s)
    requires (forall k :: k in s.names <==> k in t.names) && CopiesMembers(t, s.names, s.children)
    ensures JsonOf(s) == JsonOf(t)
  {
    hide Pairing, JsonOf, IsTree, NoRepeat;
    TreeParts(t);
    TreeParts(s);
    JsonMembers(t.names, t.children);
    JsonMembers(s.names, s.children);
    forall k | k in s.names
      ensures JsonOf(Pairing(s.names, s.children)[k]) == JsonOf(Pairing(t.names, t.children)[k])
    {
      var j :| 0 <= j < |s.names| && s.names[j] == k;
      PairingAt(s.names, s.children, j);
    }
    JsonOfObject(s);
    JsonOfObject(t);
    assert Pairing(s.names, JsonsOf(s.children)) == Pairing(t.names, JsonsOf(t.children));
  }

  lemma JsonOfObject(t: Shape)
    requires t.ObjectOf?
    ensures JsonOf(t) == Object(Pairing(t.names, JsonsOf(t.children)))
  {}

  // ---- Children ----

  ghost function FindName(names: seq<string>, name: string): (r: Option<nat>)
    ensures r.Some? ==> r.value < |names| && names[r.value] == name
    ensures r.None? ==> name !in names
  {
    if |names| == 0 then None else
    if names[0] == name then Some(0) else
    match FindName(names[1..], name)
    case Some(i) => Some(i + 1)
    case None => None
  }

  /** The position of a child among the children. */
  ghost function Slot(t: Shape, segment: string): (r: Option<nat>)
    ensures r.Some? ==> !t.Leaf? && r.value < |t.children|
  {
    match t
    case Leaf(_) => None
    case ArrayOf(_, children) => if IsIndex(segment) && IndexValue(segment) < |children| then Some(IndexValue(segment)) else None
    case ObjectOf(_, names, children) => if |names| == |children| then FindName(names, segment) else None
  }

  ghost function ChildShape(t: Shape, segment: string): (r: Option<Shape>)
    ensures r.Some? ==> r.value < t
  {
    var i := Slot(t, segment);
    if i.Some? then Some(t.children[i.value]) else None
  }

  ghost function WithChildShape(t: Shape, segment: string, c: Shape): Shape
    requires Slot(t, segment).Some?
  {
    t.(children := t.children[Slot(t, segment).value := c])
  }

  /** Children and JSON children correspond. */
  lemma JsonOfChild(t: Shape, segment: string)
    requires IsTree(t)
    ensures Child(JsonOf(t), segment) == match ChildShape(t, segment) { case Some(c) => Some(JsonOf(c)) case None => None }
  {
    hide Pairing, NoRepeat, JsonOf;
    match t
    case Leaf(v) => LeafJson(t);
    case ArrayOf(_, children) => JsonOfArray(t);
    case ObjectOf(_, names, children) =>
      JsonOfObject(t);
      TreeParts(t);
      PairingKeys(names, JsonsOf(children));
      var i := FindName(names, segment);
      if i.Some? {
        PairingAt(names, JsonsOf(children), i.value);
      }
  }

  lemma LeafJson(t: Shape)
    requires t.Leaf? && IsTree(t)
    ensures JsonOf(t) == t.json && !IsContainer(t.json)
  {}

  lemma JsonOfArray(t: Shape)
    requires t.ArrayOf?
    ensures JsonOf(t) == Array(JsonsOf(t.children))
  {}

  lemma {:induction false} PairingUpdate<T>(names: seq<string>, values: seq<T>, i: nat, value: T)
    requires NoRepeat(names) && |names| == |values| && i < |names|
    ensures Pairing(names, values[i := value]) == Pairing(names, values)[names[i] := value]
  {
    hide Pairing;
    PairingKeys(names, values);
    PairingKeys(names, values[i := value]);
    forall k | k in names
      ensures Pairing(names, values[i := value])[k] == Pairing(names, values)[names[i] := value][k]
    {
      var j :| 0 <= j < |names| && names[j] == k;
      PairingAt(names, values, j);
      PairingAt(names, values[i := value], j);
    }
  }

  /** Replacing a child replaces the JSON child. */
  lemma JsonWithChild(t: Shape, segment: string, c: Shape)
    requires IsTree(t) && Slot(t, segment).Some?
    ensures Child(JsonOf(t), segment).Some? && JsonOf(WithChildShape(t, segment, c)) == WithChild(JsonOf(t), segment, JsonOf(c))
  {
    hide Pairing, NoRepeat, JsonOf;
    JsonOfChild(t, segment);
    var i, s := Slot(t, segment).value, WithChildShape(t, segment, c);
    assert JsonsOf(s.children) == JsonsOf(t.children)[i := JsonOf(c)];
    if t.ArrayOf? {
      JsonOfArray(t);
      JsonOfArray(s);
    } else {
      JsonOfObject(t);
      JsonOfObject(s);
      TreeParts(t);
      PairingUpdate(t.names, JsonsOf(t.children), i, JsonOf(c));
    }
  }

  // ---- Locations ----

  ghost function ShapeAt(t: Shape, route: seq<string>): Option<Shape>
    decreases |route|
  {
    if |route| == 0 then Some(t) else
    match ChildShape(t, route[0])
    case None => None
    case Some(c) => ShapeAt(c, route[1..])
  }

  ghost function WithShapeAt(t: Shape, route: seq<string>, s: Shape): Shape
    requires ShapeAt(t, route).Some?
    decreases |route|
  {
    if |route| == 0 then s else
    WithChildShape(t, route[0], WithShapeAt(ChildShape(t, route[0]).value, route[1..], s))
  }

  lemma {:induction false} ShapeAtStep(t: Shape, route: seq<string>, segment: string)
    requires ShapeAt(t, route).Some?
    ensures ShapeAt(t, route + [segment]) == ChildShape(ShapeAt(t, route).value, segment)
    decreases |route|
  {
    hide ChildShape;
    if |route| == 0 {
      assert (route + [segment])[1..] == [];
    } else {
      assert (route + [segment])[1..] == route[1..] + [segment];
      ShapeAtStep(ChildShape(t, route[0]).value, route[1..], segment);
    }
  }

  lemma ChildPart(t: Shape, segment: string)
    requires IsTree(t) && ChildShape(t, segment).Some?
    ensures var c := ChildShape(t, segment).value;
            IsTree(c) && Nodes(c) <= AllNodes(t.children) && t.node !in AllNodes(t.children) && Nodes(t) == {t.node} + AllNodes(t.children)
    ensures Holds(t) ==> HoldsHere(t) && Holds(ChildShape(t, segment).value)
  {
    TreeParts(t);
    PickShape(t.children, Slot(t, segment).value);
  }

  lemma {:induction false} PartIsTree(t: Shape, route: seq<string>)
    requires IsTree(t) && ShapeAt(t, route).Some?
    ensures IsTree(ShapeAt(t, route).value) && Nodes(ShapeAt(t, route).value) <= Nodes(t)
    ensures Holds(t) ==> Holds(ShapeAt(t, route).value)
    decreases |route|
  {
    hide Nodes, AllNodes, IsTree, Holds, ChildShape, HoldsHere;
    if |route| > 0 {
      ChildPart(t, route[0]);
      PartIsTree(ChildShape(t, route[0]).value, route[1..]);
    }
  }

  /** A part replaced by one with the same container and otherwise new ones: the document is still a tree. */
  lemma {:induction false} TreeWithPart(t: Shape, route: seq<string>, s: Shape)
    requires IsTree(t) && ShapeAt(t, route).Some? && IsTree(s)
    requires Nodes(s) * Nodes(t) <= Nodes(ShapeAt(t, route).value)
    ensures IsTree(WithShapeAt(t, route, s)) && Nodes(WithShapeAt(t, route, s)) <= Nodes(t) + Nodes(s)
    decreases |route|
  {
    hide Nodes, AllNodes, IsForest, IsTree, ChildShape, Slot;
    if |route| > 0 {
      var c := ChildShape(t, route[0]).value;
      ChildPart(t, route[0]);
      PartIsTree(c, route[1..]);
      TreeWithPart(c, route[1..], s);
      TreeWithChild(t, route[0], WithShapeAt(c, route[1..], s), s);
    }
  }

  lemma TreeWithChild(t: Shape, segment: string, c: Shape, s: Shape)
    requires IsTree(t) && ChildShape(t, segment).Some? && IsTree(c)
    requires Nodes(c) <= Nodes(ChildShape(t, segment).value) + Nodes(s) && Nodes(s) * Nodes(t) <= Nodes(ChildShape(t, segment).value)
    ensures IsTree(WithChildShape(t, segment, c)) && Nodes(WithChildShape(t, segment, c)) <= Nodes(t) + Nodes(s)
  {
    hide AllNodes, IsForest;
    var i := Slot(t, segment).value;
    TreeParts(t);
    PickShape(t.children, i);
    ReplaceShape(t.children, i, c);
  }

  // ---- Writing one container ----

  /** Every container but one holds what the shape says. */
  ghost predicate HoldsBut(t: Shape, n: Container)
    reads Nodes(t) - {n}
    decreases t
  {
    t.Leaf? || ((t.node == n || HoldsHere(t)) && AllHoldBut(t.children, n))
  }

  ghost predicate AllHoldBut(shapes: seq<Shape>, n: Container)
    reads AllNodes(shapes) - {n}
    decreases shapes
  {
    forall i | 0 <= i < |shapes| :: HoldsBut(shapes[i], n)
  }

  lemma {:induction false} HoldsButOne(t: Shape, n: Container)
    ensures Holds(t) ==> HoldsBut(t, n)
    ensures HoldsBut(t, n) && n !in Nodes(t) ==> Holds(t)
    decreases t
  {
    hide HoldsHere, Holds, HoldsBut;
    LeafHolds(t, n);
    if !t.Leaf? {
      HoldsParts(t);
      HoldsButParts(t, n);
      forall i | 0 <= i < |t.children|
        ensures Holds(t.children[i]) ==> HoldsBut(t.children[i], n)
      {
        HoldsButOne(t.children[i], n);
      }
      forall i | 0 <= i < |t.children| && n !in Nodes(t)
        ensures HoldsBut(t.children[i], n) ==> Holds(t.children[i])
      {
        PickShape(t.children, i);
        HoldsButOne(t.children[i], n);
      }
    }
  }

  lemma LeafHolds(t: Shape, n: Container)
    ensures t.Leaf? ==> Holds(t) && HoldsBut(t, n)
  {}

  lemma HoldsButParts(t: Shape, n: Container)
    requires !t.Leaf?
    ensures HoldsBut(t, n) <==> (t.node == n || HoldsHere(t)) && forall i | 0 <= i < |t.children| :: HoldsBut(t.children[i], n)
  {
    hide HoldsHere;
  }

  lemma HoldsParts(t: Shape)
    requires !t.Leaf?
    ensures Holds(t) <==> HoldsHere(t) && forall i | 0 <= i < |t.children| :: Holds(t.children[i])
  {
    hide HoldsHere;
  }

  /** Once the container of a part holds a new part, the document with the new part holds. */
  lemma {:induction false} HoldsWithPart(t: Shape, route: seq<string>, s: Shape, n: Container)
    requires IsTree(t) && ShapeAt(t, route).Some? && !s.Leaf? && s.node == n
    requires !ShapeAt(t, route).value.Leaf? && ShapeAt(t, route).value.node == n
    requires HoldsBut(t, n) && Holds(s)
    ensures Holds(WithShapeAt(t, route, s)) && ValueOf(WithShapeAt(t, route, s)) == ValueOf(t)
    decreases |route|
  {
    hide Nodes, AllNodes, IsForest, IsTree, ChildShape, Slot, Holds, HoldsHere, HoldsBut, AllHoldBut;
    if |route| > 0 {
      var c := ChildShape(t, route[0]).value;
      ChildPart(t, route[0]);
      PartIsTree(c, route[1..]);
      OwnNode(ShapeAt(t, route).value);
      HoldsButChild(t, route[0], n);
      HoldsWithPart(c, route[1..], s, n);
      HoldsWithChild(t, route[0], WithShapeAt(c, route[1..], s), n);
    }
  }

  lemma OwnNode(t: Shape)
    requires !t.Leaf?
    ensures t.node in Nodes(t)
  {}

  lemma HoldsButChild(t: Shape, segment: string, n: Container)
    requires HoldsBut(t, n) && ChildShape(t, segment).Some?
    ensures HoldsBut(ChildShape(t, segment).value, n)
  {
    hide HoldsHere;
  }

  lemma HoldsWithChild(t: Shape, segment: string, c: Shape, n: Container)
    requires IsTree(t) && ChildShape(t, segment).Some? && HoldsBut(t, n) && n in Nodes(ChildShape(t, segment).value)
    requires Holds(c) && ValueOf(c) == ValueOf(ChildShape(t, segment).value)
    ensures Holds(WithChildShape(t, segment, c)) && ValueOf(WithChildShape(t, segment, c)) == ValueOf(t)
  {
    hide Nodes, IsTree, Pairing, Holds, HoldsBut;
    var i, s := Slot(t, segment).value, WithChildShape(t, segment, c);
    TreeParts(t);
    PickShape(t.children, i);
    assert ValuesOf(s.children) == ValuesOf(t.children);
    HoldsButParts(t, n);
    forall j | 0 <= j < |s.children|
      ensures Holds(s.children[j])
    {
      if j != i {
        assert Nodes(t.children[i]) !! Nodes(t.children[j]);
        HoldsButOne(t.children[j], n);
      }
    }
    HoldsParts(s);
  }

  // ---- The edit of one container ----

  /** An edit below the root is the edit of the part it leads to. */
  lemma {:induction false} EditOfPart(t: Shape, a: Step, front: seq<string>, last: string, s: Shape)
    requires IsTree(t) && a.route == front + [last] && ShapeAt(t, front).Some? && !ShapeAt(t, front).value.Leaf?
    requires EditHere(JsonOf(ShapeAt(t, front).value), a.op, last, a.value) == Success(JsonOf(s))
    ensures Edit(JsonOf(t), a) == Success(JsonOf(WithShapeAt(t, front, s)))
    decreases |front|
  {
    hide JsonOf, IsTree, EditHere, WithChild, Slot;
    if |front| > 0 {
      assert a.route[0] == front[0] && a.route[1..] == front[1..] + [last];
      var c := ChildShape(t, front[0]).value;
      JsonOfChild(t, front[0]);
      ChildPart(t, front[0]);
      EditOfPart(c, Tail(a), front[1..], last, s);
      EditKeepsContainer(JsonOf(c), Tail(a));
      JsonWithChild(t, front[0], WithShapeAt(c, front[1..], s));
    } else {
      assert front + [last] == [last];
    }
  }

  /** It fails as that edit fails. */
  lemma {:induction false} FailureOfPart(t: Shape, a: Step, front: seq<string>, last: string)
    requires IsTree(t) && a.route == front + [last] && ShapeAt(t, front).Some? && !ShapeAt(t, front).value.Leaf?
    requires EditHere(JsonOf(ShapeAt(t, front).value), a.op, last, a.value).Failure?
    ensures Edit(JsonOf(t), a) == Failure(EditHere(JsonOf(ShapeAt(t, front).value), a.op, last, a.value).error)
    decreases |front|
  {
    hide JsonOf, IsTree, ChildShape, EditHere, WithChild, Slot;
    if |front| > 0 {
      assert a.route[0] == front[0] && a.route[1..] == front[1..] + [last];
      var c := ChildShape(t, front[0]).value;
      JsonOfChild(t, front[0]);
      ChildPart(t, front[0]);
      assert !c.Leaf? by { if |front| > 1 { NotLeaf(c, front[1]); } }
      JsonIsContainer(c);
      FailureOfPart(c, Tail(a), front[1..], last);
    } else {
      assert front + [last] == [last];
    }
  }

  lemma NotLeaf(t: Shape, segment: string)
    ensures ChildShape(t, segment).Some? ==> !t.Leaf?
  {}

  lemma JsonIsContainer(t: Shape)
    requires IsTree(t)
    ensures IsContainer(JsonOf(t)) <==> !t.Leaf?
  {}

  /** It fails for want of a container when the route meets none. */
  lemma {:induction false} NoPart(t: Shape, a: Step, n: nat)
    requires IsTree(t) && !t.Leaf? && n < |a.route| - 1 && ShapeAt(t, a.route[..n]).Some?
    requires ChildShape(ShapeAt(t, a.route[..n]).value, a.route[n]).None? || ChildShape(ShapeAt(t, a.route[..n]).value, a.route[n]).value.Leaf?
    ensures Edit(JsonOf(t), a) == Failure(NoContainer)
    decreases n
  {
    hide JsonOf, IsTree, ChildShape, EditHere, WithChild, Slot;
    JsonOfChild(t, a.route[0]);
    if n > 0 {
      var c := ChildShape(t, a.route[..n][0]).value;
      ChildPart(t, a.route[0]);
      assert a.route[..n][1..] == Tail(a).route[..n - 1];
      JsonIsContainer(c);
      if !c.Leaf? {
        NoPart(c, Tail(a), n - 1);
      }
    } else {
      assert ShapeAt(t, a.route[..0]) == Some(t);
      if ChildShape(t, a.route[0]).Some? {
        ChildPart(t, a.route[0]);
        JsonIsContainer(ChildShape(t, a.route[0]).value);
      }
    }
  }

  lemma ArrayTree(n: Container, shapes: seq<Shape>)
    requires n !in AllNodes(shapes) && IsForest(shapes)
    ensures IsTree(ArrayOf(n, shapes)) && Nodes(ArrayOf(n, shapes)) == {n} + AllNodes(shapes)
  {}

  lemma ArrayHolds(n: Container, shapes: seq<Shape>)
    requires n.isArray && n.items == ValuesOf(shapes) && AllHold(shapes)
    ensures Holds(ArrayOf(n, shapes))
  {}

  lemma ObjectTree(n: Container, names: seq<string>, shapes: seq<Shape>)
    requires n !in AllNodes(shapes) && IsForest(shapes) && |names| == |shapes| && NoRepeat(names)
    ensures IsTree(ObjectOf(n, names, shapes)) && Nodes(ObjectOf(n, names, shapes)) == {n} + AllNodes(shapes)
  {}

  lemma ObjectHolds(n: Container, names: seq<string>, shapes: seq<Shape>)
    requires !n.isArray && n.members == Pairing(names, ValuesOf(shapes)) && AllHold(shapes)
    ensures Holds(ObjectOf(n, names, shapes))
  {}

  lemma ArrayParts(t: Shape)
    requires t.ArrayOf? && Holds(t) && IsTree(t)
    ensures t.node.isArray && t.node.items == ValuesOf(t.children) && AllHold(t.children) && IsForest(t.children)
    ensures t.node !in AllNodes(t.children) && Nodes(t) == {t.node} + AllNodes(t.children)
    ensures JsonOf(t) == Array(JsonsOf(t.children))
  {}

  lemma ObjectParts(t: Shape)
    requires t.ObjectOf? && Holds(t) && IsTree(t)
    ensures !t.node.isArray && t.node.members == Pairing(t.names, ValuesOf(t.children)) && AllHold(t.children) && IsForest(t.children)
    ensures t.node !in AllNodes(t.children) && Nodes(t) == {t.node} + AllNodes(t.children)
    ensures JsonOf(t) == Object(Pairing(t.names, JsonsOf(t.children))) && |t.names| == |t.children| && NoRepeat(t.names)
  {}

  /** The containers of a shape just built: those of `t`, and new ones. */
  twostate predicate Extends(t: Shape, new t': Shape) {
    !t'.Leaf? && !t.Leaf? && t'.node == t.node && IsTree(t') && forall x | x in Nodes(t') :: x in Nodes(t) || fresh(x)
  }

  /** `parent.splice(position, 0, structuredClone(value))`. */
  method AddItem(parent: Container, ghost t: Shape, p: nat, value: Value, ghost v: Shape) returns (ghost t': Shape)
    requires t.ArrayOf? && t.node == parent && Holds(t) && IsTree(t) && p <= |parent.items|
    requires Holds(v) && IsTree(v) && ValueOf(v) == value
    modifies parent
    ensures Extends(t, t') && Holds(t')
    ensures p <= |t.children| && JsonOf(t') == Array(JsonsOf(t.children)[..p] + [JsonOf(v)] + JsonsOf(t.children)[p..])
  {
    hide Holds, IsTree, Nodes, AllHold, IsForest, AllNodes, JsonOf, ValueOf;
    ArrayParts(t);
    assert allocated(AllNodes(t.children));
    var copy;
    ghost var c;
    copy, c := StructuredClone(value, v);
    InsertShape(t.children, p, c);
    ghost var shapes := t.children[..p] + [c] + t.children[p..];
    parent.items := parent.items[..p] + [copy] + parent.items[p..];
    assert ValuesOf(shapes) == parent.items;
    assert JsonsOf(shapes) == JsonsOf(t.children)[..p] + [JsonOf(c)] + JsonsOf(t.children)[p..];
    ArrayTree(parent, shapes);
    ArrayHolds(parent, shapes);
    t' := ArrayOf(parent, shapes);
    JsonOfArray(t');
  }

  /** `parent[position] = structuredClone(value)`. */
  method ReplaceItem(parent: Container, ghost t: Shape, p: nat, value: Value, ghost v: Shape) returns (ghost t': Shape)
    requires t.ArrayOf? && t.node == parent && Holds(t) && IsTree(t) && p < |parent.items|
    requires Holds(v) && IsTree(v) && ValueOf(v) == value
    modifies parent
    ensures Extends(t, t') && Holds(t')
    ensures p < |t.children| && JsonOf(t') == Array(JsonsOf(t.children)[p := JsonOf(v)])
  {
    hide Holds, IsTree, Nodes, AllHold, IsForest, AllNodes, JsonOf, ValueOf;
    ArrayParts(t);
    assert allocated(AllNodes(t.children));
    var copy;
    ghost var c;
    copy, c := StructuredClone(value, v);
    ReplaceShape(t.children, p, c);
    ghost var shapes := t.children[p := c];
    parent.items := parent.items[p := copy];
    assert ValuesOf(shapes) == parent.items;
    assert JsonsOf(shapes) == JsonsOf(t.children)[p := JsonOf(c)];
    ArrayTree(parent, shapes);
    ArrayHolds(parent, shapes);
    t' := ArrayOf(parent, shapes);
    JsonOfArray(t');
  }

  /** `parent.splice(position, 1)`. */
  method RemoveItem(parent: Container, ghost t: Shape, p: nat) returns (ghost t': Shape)
    requires t.ArrayOf? && t.node == parent && Holds(t) && IsTree(t) && p < |parent.items|
    modifies parent
    ensures Extends(t, t') && Holds(t')
    ensures p < |t.children| && JsonOf(t') == Array(JsonsOf(t.children)[..p] + JsonsOf(t.children)[p + 1..])
  {
    hide Holds, IsTree, Nodes, AllHold, IsForest, AllNodes, JsonOf, ValueOf;
    ArrayParts(t);
    RemoveShape(t.children, p);
    ghost var shapes := t.children[..p] + t.children[p + 1..];
    parent.items := parent.items[..p] + parent.items[p + 1..];
    assert ValuesOf(shapes) == parent.items;
    assert JsonsOf(shapes) == JsonsOf(t.children)[..p] + JsonsOf(t.children)[p + 1..];
    ArrayTree(parent, shapes);
    ArrayHolds(parent, shapes);
    t' := ArrayOf(parent, shapes);
    JsonOfArray(t');
  }

  /** The edit of an array, in place. */
  method EditArray(parent: Container, ghost t: Shape, op: Op, last: string, value: Value, ghost v: Shape) returns (error: Option<Reason>, ghost t': Shape)
    requires t.ArrayOf? && t.node == parent && Holds(t) && IsTree(t)
    requires Holds(v) && IsTree(v) && ValueOf(v) == value
    modifies parent
    ensures match EditHere(JsonOf(t), op, last, JsonOf(v))
            case Success(w) => error.None? && Extends(t, t') && Holds(t') && JsonOf(t') == w
            case Failure(e) => error == Some(e) && t' == t && unchanged(parent)
  {
    hide Holds, IsTree, Nodes, AllHold, IsForest, AllNodes, JsonOf, ValueOf, IsIndex, Extends;
    ArrayParts(t);
    error, t' := None, t;
    var position := Position(|parent.items|, op, last);
    if position.None? {
      error := Some(InvalidIndex);
      return;
    }
    match op
    case Add => t' := AddItem(parent, t, position.value, value, v);
    case Replace => t' := ReplaceItem(parent, t, position.value, value, v);
    case Remove => t' := RemoveItem(parent, t, position.value);
  }

  lemma PairingRemove<T>(names: seq<string>, values: seq<T>, i: nat)
    requires NoRepeat(names) && |names| == |values| && i < |names|
    ensures NoRepeat(names[..i] + names[i + 1..])
    ensures Pairing(names[..i] + names[i + 1..], values[..i] + values[i + 1..]) == Pairing(names, values) - {names[i]}
  {
    hide Pairing;
    var fewer, kept := names[..i] + names[i + 1..], values[..i] + values[i + 1..];
    forall j | 0 <= j < |fewer| ensures fewer[j] == names[if j < i then j else j + 1] && kept[j] == values[if j < i then j else j + 1] {}
    assert NoRepeat(fewer);
    PairingKeys(names, values);
    PairingKeys(fewer, kept);
    forall k
      ensures k in fewer <==> k in names && k != names[i]
    {
      if k in names && k != names[i] {
        var j :| 0 <= j < |names| && names[j] == k;
        assert fewer[if j < i then j else j - 1] == k;
      }
    }
    forall k | k in fewer
      ensures Pairing(fewer, kept)[k] == Pairing(names, values)[k]
    {
      var j :| 0 <= j < |fewer| && fewer[j] == k;
      PairingAt(fewer, kept, j);
      PairingAt(names, values, if j < i then j else j + 1);
    }
  }

  /** `record[last] = structuredClone(value)` for a new member. */
  method AddMember(parent: Container, ghost t: Shape, last: string, value: Value, ghost v: Shape) returns (ghost t': Shape)
    requires t.ObjectOf? && t.node == parent && Holds(t) && IsTree(t) && last !in parent.members
    requires Holds(v) && IsTree(v) && ValueOf(v) == value
    modifies parent
    ensures Extends(t, t') && Holds(t')
    ensures JsonOf(t') == Object(Pairing(t.names, JsonsOf(t.children))[last := JsonOf(v)])
  {
    hide Holds, IsTree, Nodes, AllHold, IsForest, AllNodes, JsonOf, ValueOf, Pairing, NoRepeat;
    ObjectParts(t);
    PairingKeys(t.names, ValuesOf(t.children));
    assert allocated(AllNodes(t.children));
    var copy;
    ghost var c;
    copy, c := StructuredClone(value, v);
    InsertShape(t.children, |t.children|, c);
    assert t.children[..|t.children|] + [c] + t.children[|t.children|..] == t.children + [c];
    ghost var names, shapes := t.names + [last], t.children + [c];
    NoRepeatStep(t.names, last);
    assert ValuesOf(shapes) == ValuesOf(t.children) + [copy] && JsonsOf(shapes) == JsonsOf(t.children) + [JsonOf(c)];
    PairingSnoc(t.names, ValuesOf(t.children), last, copy);
    PairingSnoc(t.names, JsonsOf(t.children), last, JsonOf(c));
    parent.members := parent.members[last := copy];
    ObjectTree(parent, names, shapes);
    ObjectHolds(parent, names, shapes);
    t' := ObjectOf(parent, names, shapes);
    JsonOfObject(t');
  }

  /** The same for a member that exists. */
  method ReplaceMember(parent: Container, ghost t: Shape, last: string, value: Value, ghost v: Shape) returns (ghost t': Shape)
    requires t.ObjectOf? && t.node == parent && Holds(t) && IsTree(t) && last in parent.members
    requires Holds(v) && IsTree(v) && ValueOf(v) == value
    modifies parent
    ensures Extends(t, t') && Holds(t')
    ensures JsonOf(t') == Object(Pairing(t.names, JsonsOf(t.children))[last := JsonOf(v)])
  {
    hide Holds, IsTree, Nodes, AllHold, IsForest, AllNodes, JsonOf, ValueOf, Pairing, NoRepeat;
    ObjectParts(t);
    PairingKeys(t.names, ValuesOf(t.children));
    ghost var i :| 0 <= i < |t.names| && t.names[i] == last;
    assert allocated(AllNodes(t.children));
    var copy;
    ghost var c;
    copy, c := StructuredClone(value, v);
    ReplaceShape(t.children, i, c);
    ghost var shapes := t.children[i := c];
    assert ValuesOf(shapes) == ValuesOf(t.children)[i := copy] && JsonsOf(shapes) == JsonsOf(t.children)[i := JsonOf(c)];
    PairingUpdate(t.names, ValuesOf(t.children), i, copy);
    PairingUpdate(t.names, JsonsOf(t.children), i, JsonOf(c));
    parent.members := parent.members[last := copy];
    ObjectTree(parent, t.names, shapes);
    ObjectHolds(parent, t.names, shapes);
    t' := ObjectOf(parent, t.names, shapes);
    JsonOfObject(t');
  }

  /** `delete record[last]`. */
  method DeleteMember(parent: Container, ghost t: Shape, last: string) returns (ghost t': Shape)
    requires t.ObjectOf? && t.node == parent && Holds(t) && IsTree(t) && last in parent.members
    modifies parent
    ensures Extends(t, t') && Holds(t')
    ensures JsonOf(t') == Object(Pairing(t.names, JsonsOf(t.children)) - {last})
  {
    hide Holds, IsTree, Nodes, AllHold, IsForest, AllNodes, JsonOf, ValueOf, Pairing, NoRepeat;
    ObjectParts(t);
    PairingKeys(t.names, ValuesOf(t.children));
    ghost var i :| 0 <= i < |t.names| && t.names[i] == last;
    RemoveShape(t.children, i);
    ghost var names, shapes := t.names[..i] + t.names[i + 1..], t.children[..i] + t.children[i + 1..];
    assert ValuesOf(shapes) == ValuesOf(t.children)[..i] + ValuesOf(t.children)[i + 1..];
    assert JsonsOf(shapes) == JsonsOf(t.children)[..i] + JsonsOf(t.children)[i + 1..];
    PairingRemove(t.names, ValuesOf(t.children), i);
    PairingRemove(t.names, JsonsOf(t.children), i);
    parent.members := parent.members - {last};
    ObjectTree(parent, names, shapes);
    ObjectHolds(parent, names, shapes);
    t' := ObjectOf(parent, names, shapes);
    JsonOfObject(t');
  }

  /** The edit of an object, in place. */
  method EditObject(parent: Container, ghost t: Shape, op: Op, last: string, value: Value, ghost v: Shape) returns (error: Option<Reason>, ghost t': Shape)
    requires t.ObjectOf? && t.node == parent && Holds(t) && IsTree(t)
    requires Holds(v) && IsTree(v) && ValueOf(v) == value
    modifies parent
    ensures match EditHere(JsonOf(t), op, last, JsonOf(v))
            case Success(w) => error.None? && Extends(t, t') && Holds(t') && JsonOf(t') == w
            case Failure(e) => error == Some(e) && t' == t && unchanged(parent)
  {
    hide Holds, IsTree, Nodes, AllHold, IsForest, AllNodes, JsonOf, ValueOf, Extends, Pairing, NoRepeat;
    ObjectParts(t);
    PairingKeys(t.names, ValuesOf(t.children));
    PairingKeys(t.names, JsonsOf(t.children));
    error, t' := None, t;
    var present := last in parent.members;
    if op.Add? && present {
      error := Some(AddOnExisting);
    } else if !op.Add? && !present {
      error := Some(MissingMember);
    } else if op.Remove? {
      t' := DeleteMember(parent, t, last);
    } else if op.Add? {
      t' := AddMember(parent, t, last, value, v);
    } else {
      t' := ReplaceMember(parent, t, last, value, v);
    }
  }

  // ---- Applying changes ----

  /** The value under a segment, as `parent[Number(segment)]` or `parent[segment]` reads it. */
  function ReadChild(parent: Container, segment: string): Option<Value>
    reads parent
  {
    if parent.isArray then
      if IsIndex(segment) && IndexValue(segment) < |parent.items| then Some(parent.items[IndexValue(segment)]) else None
    else if segment in parent.members then Some(parent.members[segment]) else None
  }

  lemma ChildIsRead(t: Shape, segment: string)
    requires Holds(t) && IsTree(t) && !t.Leaf?
    ensures ReadChild(t.node, segment) == match ChildShape(t, segment) { case Some(c) => Some(ValueOf(c)) case None => None }
  {
    hide Pairing, NoRepeat, Nodes, AllNodes, IsForest, AllHold;
    if t.ArrayOf? {
      ArrayParts(t);
    } else {
      ObjectParts(t);
      PairingKeys(t.names, ValuesOf(t.children));
      var i := FindName(t.names, segment);
      if i.Some? { PairingAt(t.names, ValuesOf(t.children), i.value); }
    }
  }

  /** The container the route leads to before its last segment, if it crosses containers only. */
  method Descend(root: Container, ghost t: Shape, segments: seq<string>, ghost a: Step) returns (parent: Option<Container>)
    requires Holds(t) && IsTree(t) && !t.Leaf? && t.node == root && a.route == segments
    ensures parent.None? ==> Edit(JsonOf(t), a) == Failure(NoContainer)
    ensures parent.Some? ==>
              var part := ShapeAt(t, segments[..|segments| - 1]);
              part.Some? && !part.value.Leaf? && part.value.node == parent.value
  {
    hide Holds, IsTree, Nodes, JsonOf, ChildShape, ShapeAt;
    var current := root;
    RouteStart(t);
    for i := 0 to |segments| - 1
      invariant Holds(t)
      invariant ShapeAt(t, segments[..i]).Some?
      invariant !ShapeAt(t, segments[..i]).value.Leaf? && ShapeAt(t, segments[..i]).value.node == current
    {
      ghost var part := ShapeAt(t, segments[..i]).value;
      PartIsTree(t, segments[..i]);
      ChildIsRead(part, segments[i]);
      var child := ReadChild(current, segments[i]);
      if child.None? || child.value.Scalar? {
        NoPart(t, a, i);
        return None;
      }
      ShapeAtStep(t, segments[..i], segments[i]);
      assert segments[..i + 1] == segments[..i] + [segments[i]];
      current := child.value.to;
    }
    parent := Some(current);
  }

  lemma RouteStart(t: Shape)
    ensures ShapeAt(t, []) == Some(t)
  {}

  /** One change, in place: the document becomes the edited one, or nothing is written. */
  method ApplyChange(root: Container, ghost t: Shape, op: Op, path: string, value: Value, ghost v: Shape)
    returns (error: Option<Reason>, ghost t': Shape)
    requires Holds(t) && IsTree(t) && !t.Leaf? && t.node == root && allocated(Nodes(t))
    requires Holds(v) && IsTree(v) && ValueOf(v) == value
    modifies Nodes(t)
    ensures match Edit(JsonOf(t), Step(op, Route(path), JsonOf(v)))
            case Success(w) => error.None? && Extends(t, t') && Holds(t') && JsonOf(t') == w
            case Failure(e) => error == Some(e) && t' == t && unchanged(Nodes(t))
  {
    hide Holds, IsTree, Nodes, JsonOf, ShapeAt, Edit, EditHere, Route, HoldsBut, ValueOf;
    var segments := Route(path);
    ghost var a: Step := Step(op, segments, JsonOf(v));
    assert allocated(Nodes(t)) && allocated(Nodes(v));
    var parent := Descend(root, t, segments, a);
    t' := t;
    if parent.None? {
      error := Some(NoContainer);
      return;
    }
    ghost var front := segments[..|segments| - 1];
    ghost var part := ShapeAt(t, front).value;
    assert segments == front + [segments[|segments| - 1]];
    PartIsTree(t, front);
    OwnNode(part);
    HoldsButOne(t, part.node);
    assert allocated(Nodes(t)) && allocated(Nodes(part));
    ghost var part';
    if parent.value.isArray {
      assert part.ArrayOf? by { KindOfPart(part); }
      error, part' := EditArray(parent.value, part, op, segments[|segments| - 1], value, v);
    } else {
      assert part.ObjectOf? by { KindOfPart(part); }
      error, part' := EditObject(parent.value, part, op, segments[|segments| - 1], value, v);
    }
    if error.Some? {
      FailureOfPart(t, a, front, segments[|segments| - 1]);
    } else {
      EditOfPart(t, a, front, segments[|segments| - 1], part');
      TreeWithPart(t, front, part');
      HoldsWithPart(t, front, part', part.node);
      t' := WithShapeAt(t, front, part');
      SameRoot(t, front, part');
    }
  }

  lemma KindOfPart(t: Shape)
    requires Holds(t) && !t.Leaf?
    ensures t.ArrayOf? <==> t.node.isArray
  {}

  lemma SameRoot(t: Shape, route: seq<string>, s: Shape)
    requires !t.Leaf? && ShapeAt(t, route).Some? && !s.Leaf? && ShapeAt(t, route).value.Leaf? == s.Leaf? && ShapeAt(t, route).value.node == s.node
    ensures !WithShapeAt(t, route, s).Leaf? && WithShapeAt(t, route, s).node == t.node
  {}

  /** A change whose value is a value of the heap. */
  datatype HeapChange = HeapChange(op: Op, path: string, value: Value)

  ghost function ChangesOf(changes: seq<HeapChange>, values: seq<Shape>): (r: seq<Change>)
    requires |values| == |changes|
    ensures |r| == |changes| && forall i | 0 <= i < |r| :: r[i] == Change(changes[i].op, changes[i].path, JsonOf(values[i]))
  {
    seq(|changes|, i requires 0 <= i < |changes| => Change(changes[i].op, changes[i].path, JsonOf(values[i])))
  }

  /** The values of the changes are trees; they may share containers with the document or with each other. */
  ghost predicate AreValues(changes: seq<HeapChange>, values: seq<Shape>)
    reads AllNodes(values)
  {
    |values| == |changes| && AllHold(values) && forall i | 0 <= i < |values| :: IsTree(values[i]) && changes[i].value == ValueOf(values[i])
  }

  /**
   * `applyChanges`: a copy of the document with all the changes applied, or the first change
   * that cannot be. No container that existed before, of the document or of a value, is
   * written: the method modifies nothing.
   */
  method ApplyChanges(document: Container, ghost d: Shape, changes: seq<HeapChange>, ghost values: seq<Shape>)
    returns (copy: Container, error: Option<ApplyError>, ghost s: Shape)
    requires Holds(d) && IsTree(d) && !d.Leaf? && d.node == document && AreValues(changes, values)
    ensures match ApplyAll(JsonOf(d), ChangesOf(changes, values))
            case Success(w) => error.None? && Holds(s) && IsTree(s) && !s.Leaf? && s.node == copy && fresh(Nodes(s)) && JsonOf(s) == w
            case Failure(e) => error == Some(e)
  {
    hide Holds, IsTree, Nodes, JsonOf, Edit, AllHold, AllNodes, ApplyAll;
    var clone;
    assert allocated(AllNodes(values));
    clone, s := StructuredClone(Reference(document), d);
    JsonIsContainer(d);
    JsonIsContainer(s);
    copy, error := clone.to, None;
    ghost var all := ChangesOf(changes, values);
    assert all[..0] == [];
    NoChange(JsonOf(d));
    for i := 0 to |changes|
      invariant Holds(s) && IsTree(s) && !s.Leaf? && s.node == copy && fresh(Nodes(s)) && AllHold(values)
      invariant ApplyAll(JsonOf(d), all[..i]) == Success(JsonOf(s))
    {
      PickShape(values, i);
      assert allocated(Nodes(s));
      var reason;
      reason, s := ApplyChange(copy, s, changes[i].op, changes[i].path, changes[i].value, values[i]);
      OneMoreChange(JsonOf(d), all, i);
      if reason.Some? {
        error := Some(ApplyError(i, reason.value));
        return;
      }
    }
    assert all[..|changes|] == all;
  }

  lemma NoChange(v: Json)
    ensures ApplyAll(v, []) == Success(v)
  {}
}
