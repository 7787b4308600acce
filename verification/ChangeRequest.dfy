/**
 * Applying the declared changes of a Change Request to a document (JSON Pointer targets,
 * section 4 of RFC 6901), undoing them, and when their order does not matter.
 */
module ChangeRequest {
  import opened Wrappers
  import opened Text
  import opened Json
  import opened JsonPointer
  import opened Identity

  datatype Op = Add | Replace | Remove

  /** `value` is read by `Add` and `Replace` only. */
  datatype Change = Change(op: Op, path: string, value: Json)

  datatype Reason = NoContainer | InvalidIndex | AddOnExisting | MissingMember

  datatype ApplyError = ApplyError(index: nat, reason: Reason)

  // ---- One change ----

  /** The pointer as the containers to cross and the member to change. */
  function Route(path: string): (route: seq<string>)
    ensures |route| > 0
  {
    // The pointer to the whole document leaves no segment: its text form is then "undefined".
    if Decode(path) == [] then ["undefined"] else Decode(path)
  }

  /** The position a last segment denotes in an array of a given length. */
  function Position(length: nat, op: Op, last: string): Option<nat> {
    if last == "-" then (if op.Add? then Some(length) else None) else
    if !IsIndex(last) then None else
    var bound := if op.Add? then length else length - 1;
    if IndexValue(last) <= bound then Some(IndexValue(last)) else None
  }

  function EditItems(items: seq<Json>, op: Op, last: string, value: Json): Result<seq<Json>, Reason> {
    match Position(|items|, op, last)
    case None => Failure(InvalidIndex)
    case Some(p) =>
      match op
      case Add => Success(items[..p] + [value] + items[p..])
      case Replace => Success(items[p := value])
      case Remove => Success(items[..p] + items[p + 1..])
  }

  function EditMembers(members: map<string, Json>, op: Op, last: string, value: Json): Result<map<string, Json>, Reason> {
    match op
    case Add => if last in members then Failure(AddOnExisting) else Success(members[last := value])
    case Replace => if last in members then Success(members[last := value]) else Failure(MissingMember)
    case Remove => if last in members then Success(members - {last}) else Failure(MissingMember)
  }

  /** The change made in the container that holds the target. */
  function EditHere(v: Json, op: Op, last: string, value: Json): Result<Json, Reason> {
    match v
    case Array(items) =>
      (match EditItems(items, op, last, value) case Success(s) => Success(Array(s)) case Failure(e) => Failure(e))
    case Object(members) =>
      (match EditMembers(members, op, last, value) case Success(m) => Success(Object(m)) case Failure(e) => Failure(e))
    case _ => Failure(NoContainer)
  }

  datatype RawStep = Step(op: Op, route: seq<string>, value: Json)

  /** A change whose pointer is decoded: the containers to cross, then the member to change. */
  type Step = s: RawStep | |s.route| > 0 witness Step(Remove, [""], Null)

  /** The same change, seen from the first container it crosses. */
  function Tail(a: Step): Step
    requires |a.route| > 1
  {
    a.(route := a.route[1..])
  }

  /** `v` with its child at `segment` replaced. */
  function WithChild(v: Json, segment: string, child: Json): Json
    requires Child(v, segment).Some?
  {
    if v.Array? then Array(v.items[IndexValue(segment) := child]) else Object(v.members[segment := child])
  }

  /** The edited document: only the containers on the route are touched. */
  function Edit(v: Json, a: Step): Result<Json, Reason>
    decreases |a.route|
  {
    if |a.route| == 1 then EditHere(v, a.op, a.route[0], a.value) else
    match Child(v, a.route[0])
    case None => Failure(NoContainer)
    case Some(child) =>
      if !IsContainer(child) then Failure(NoContainer) else
      match Edit(child, Tail(a))
      case Success(w) => Success(WithChild(v, a.route[0], w))
      case Failure(e) => Failure(e)
  }

  function StepOf(change: Change): Step {
    Step(change.op, Route(change.path), change.value)
  }

  function ApplyOne(v: Json, change: Change): Result<Json, Reason> {
    Edit(v, StepOf(change))
  }

  /** All the changes in order, or the first one that cannot apply. */
  function ApplyAll(v: Json, changes: seq<Change>): Result<Json, ApplyError>
    decreases |changes|
  {
    if |changes| == 0 then Success(v) else
    match ApplyOne(v, changes[0])
    case Failure(reason) => Failure(ApplyError(0, reason))
    case Success(w) =>
      match ApplyAll(w, changes[1..])
      case Failure(e) => Failure(ApplyError(e.index + 1, e.reason))
      case Success(x) => Success(x)
  }

  // ---- One change, seen from the child of `v` it passes through ----

  /** The change inserts or removes an element of `v` itself, and so renumbers its elements. */
  predicate SplicesHere(v: Json, a: Step) {
    v.Array? && |a.route| == 1 && !a.op.Replace?
  }

  /** What a change that does not splice does to the child at its first segment. */
  function EditChild(child: Option<Json>, inArray: bool, a: Step): Result<Option<Json>, Reason> {
    if |a.route| == 1 then
      if child.Some? then
        if a.op.Add? then Failure(AddOnExisting) else Success(if a.op.Remove? then None else Some(a.value))
      else if a.op.Add? then Success(Some(a.value))
      else Failure(if inArray then InvalidIndex else MissingMember)
    else if child.None? || !IsContainer(child.value) then Failure(NoContainer)
    else
      match Edit(child.value, Tail(a))
      case Success(w) => Success(Some(w))
      case Failure(e) => Failure(e)
  }

  /** A child can be set in an object; in an array, only where there is one. */
  predicate CanSet(v: Json, segment: string, child: Option<Json>) {
    v.Object? || (v.Array? && child.Some? && Child(v, segment).Some?)
  }

  /** `v` with the child at `segment` set, or deleted. */
  function SetChild(v: Json, segment: string, child: Option<Json>): Json
    requires CanSet(v, segment, child)
  {
    match child
    case None => Object(v.members - {segment})
    case Some(c) => if v.Array? then WithChild(v, segment, c) else Object(v.members[segment := c])
  }

  lemma EditThroughChild(v: Json, a: Step)
    requires IsContainer(v) && !SplicesHere(v, a)
    ensures var r := EditChild(Child(v, a.route[0]), v.Array?, a);
            match Edit(v, a)
            case Success(w) => r.Success? && CanSet(v, a.route[0], r.value) && w == SetChild(v, a.route[0], r.value)
            case Failure(e) => r == Failure(e)
  {}

  lemma SetChildReads(v: Json, segment: string, child: Option<Json>, other: string)
    requires CanSet(v, segment, child)
    ensures Child(SetChild(v, segment, child), segment) == child
    ensures other != segment ==> Child(SetChild(v, segment, child), other) == Child(v, other)
    ensures SetChild(v, segment, child).Array? == v.Array? && IsContainer(SetChild(v, segment, child))
  {
    if v.Array? && IsIndex(other) && other != segment {
      IndexIsDecimal(segment);
      IndexIsDecimal(other);
    }
  }

  lemma SetChildCommutes(v: Json, a: string, x: Option<Json>, b: string, y: Option<Json>)
    requires a != b && CanSet(v, a, x) && CanSet(v, b, y)
    ensures CanSet(SetChild(v, a, x), b, y) && CanSet(SetChild(v, b, y), a, x)
    ensures SetChild(SetChild(v, a, x), b, y) == SetChild(SetChild(v, b, y), a, x)
  {
    SetChildReads(v, a, x, b);
    SetChildReads(v, b, y, a);
    if v.Array? {
      IndexIsDecimal(a);
      IndexIsDecimal(b);
      var i, j := IndexValue(a), IndexValue(b);
      assert v.items[i := x.value][j := y.value] == v.items[j := y.value][i := x.value];
    } else {
      var p, q := SetChild(SetChild(v, a, x), b, y), SetChild(SetChild(v, b, y), a, x);
      assert p.members == q.members;
    }
  }

  lemma SetChildTwice(v: Json, segment: string, x: Json, y: Json)
    requires Child(v, segment).Some?
    ensures Child(WithChild(v, segment, x), segment) == Some(x)
    ensures WithChild(WithChild(v, segment, x), segment, y) == WithChild(v, segment, y)
    ensures y == Child(v, segment).value ==> WithChild(v, segment, y) == v
  {
    if v.Array? {
      var i := IndexValue(segment);
      assert v.items[i := x][i := y] == v.items[i := y];
      assert v.items[i := v.items[i]] == v.items;
    } else {
      assert v.members[segment := x][segment := y] == v.members[segment := y];
      assert v.members[segment := v.members[segment]] == v.members;
    }
  }

  /** A container stays a container of the same kind. */
  lemma EditKeepsContainer(v: Json, a: Step)
    requires Edit(v, a).Success?
    ensures IsContainer(v) && IsContainer(Edit(v, a).value)
    ensures Edit(v, a).value.Array? == v.Array?
  {}

  // ---- Framing ----

  /** `p` and `q` share their first `k` segments and part at the next. */
  predicate PartAt(p: seq<string>, q: seq<string>, k: nat) {
    k < |p| && k < |q| && p[..k] == q[..k] && p[k] != q[k]
  }

  /** At depth `k` of its route, the change inserts into or removes from an array. */
  predicate SplicesAt(v: Json, a: Step, k: nat)
    requires k < |a.route|
  {
    k == |a.route| - 1 && !a.op.Replace? && Lookup(v, a.route[..k]).Some? && Lookup(v, a.route[..k]).value.Array?
  }

  lemma PartLater(p: seq<string>, q: seq<string>, k: nat)
    requires PartAt(p, q, k) && k > 0
    ensures p[0] == q[0] && PartAt(p[1..], q[1..], k - 1)
  {
    assert p[0] == p[..k][0] == q[..k][0] == q[0];
    assert p[1..][..k - 1] == p[..k][1..] && q[1..][..k - 1] == q[..k][1..];
  }

  lemma SplicesLater(v: Json, a: Step, k: nat, child: Json)
    requires 0 < k < |a.route| && Child(v, a.route[0]) == Some(child)
    ensures SplicesAt(v, a, k) == SplicesAt(child, Tail(a), k - 1)
  {
    assert a.route[..k][1..] == a.route[1..][..k - 1];
  }

  /** A location that parts from the target, where nothing is spliced, keeps its value. */
  lemma {:induction false} Framing(v: Json, a: Step, q: seq<string>, k: nat)
    requires Edit(v, a).Success?
    requires PartAt(a.route, q, k) && !SplicesAt(v, a, k)
    ensures Lookup(Edit(v, a).value, q) == Lookup(v, q)
    decreases k
  {
    EditKeepsContainer(v, a);
    var segment := a.route[0];
    if k == 0 {
      assert Lookup(v, a.route[..0]) == Some(v);
      EditThroughChild(v, a);
      SetChildReads(v, segment, EditChild(Child(v, segment), v.Array?, a).value, q[0]);
    } else {
      PartLater(a.route, q, k);
      var child := Child(v, segment).value;
      SplicesLater(v, a, k, child);
      Framing(child, Tail(a), q[1..], k - 1);
      SetChildReads(v, segment, Some(Edit(child, Tail(a)).value), q[0]);
    }
  }

  /** The container that holds the target becomes exactly what the operation makes of it. */
  lemma {:induction false} Effect(v: Json, a: Step)
    requires IsContainer(v)
    ensures var front, last := a.route[..|a.route| - 1], a.route[|a.route| - 1];
            match Edit(v, a)
            case Success(w) =>
              Lookup(v, front).Some? && Lookup(w, front).Some? &&
              EditHere(Lookup(v, front).value, a.op, last, a.value) == Success(Lookup(w, front).value)
            case Failure(e) =>
              if Lookup(v, front).Some? && IsContainer(Lookup(v, front).value)
              then EditHere(Lookup(v, front).value, a.op, last, a.value) == Failure(e)
              else e == NoContainer
    decreases |a.route|
  {
    if |a.route| > 1 && Child(v, a.route[0]).Some? {
      var child := Child(v, a.route[0]).value;
      var front := a.route[..|a.route| - 1];
      assert front[1..] == a.route[1..][..|a.route| - 2];
      if IsContainer(child) {
        Effect(child, Tail(a));
        if Edit(child, Tail(a)).Success? {
          SetChildTwice(v, a.route[0], Edit(child, Tail(a)).value, child);
        }
      } else {
        NothingBelow(child, front[1..]);
      }
    }
  }

  // ---- Commutation ----

  /** Two edits, one after the other. */
  function EditTwice(v: Json, a: Step, b: Step): Option<Json> {
    match Edit(v, a)
    case Failure(_) => None
    case Success(w) => match Edit(w, b) case Failure(_) => None case Success(x) => Some(x)
  }

  /** The second of two edits at different children finds its child unchanged. */
  lemma SecondEdit(v: Json, a: Step, b: Step)
    requires a.route[0] != b.route[0] && IsContainer(v)
    requires !SplicesHere(v, a) && !SplicesHere(v, b)
    ensures var x := EditChild(Child(v, a.route[0]), v.Array?, a);
            var y := EditChild(Child(v, b.route[0]), v.Array?, b);
            if x.Failure? || y.Failure? then EditTwice(v, a, b) == None
            else
              CanSet(v, a.route[0], x.value) && CanSet(SetChild(v, a.route[0], x.value), b.route[0], y.value) &&
              EditTwice(v, a, b) == Some(SetChild(SetChild(v, a.route[0], x.value), b.route[0], y.value))
  {
    hide Edit, EditChild, SetChild;
    EditThroughChild(v, a);
    var x := EditChild(Child(v, a.route[0]), v.Array?, a);
    if x.Success? {
      SetChildReads(v, a.route[0], x.value, b.route[0]);
      EditThroughChild(SetChild(v, a.route[0], x.value), b);
    }
  }

  lemma EditsOfChildrenCommute(v: Json, a: Step, b: Step)
    requires a.route[0] != b.route[0] && IsContainer(v)
    requires !SplicesHere(v, a) && !SplicesHere(v, b)
    ensures EditTwice(v, a, b) == EditTwice(v, b, a)
  {
    hide EditTwice, EditChild, SetChild;
    SecondEdit(v, a, b);
    SecondEdit(v, b, a);
    var x := EditChild(Child(v, a.route[0]), v.Array?, a);
    var y := EditChild(Child(v, b.route[0]), v.Array?, b);
    if x.Success? && y.Success? {
      SetChildCommutes(v, a.route[0], x.value, b.route[0], y.value);
    }
  }

  lemma EditTwiceThroughChild(v: Json, child: Json, a: Step, b: Step)
    requires |a.route| > 1 && |b.route| > 1 && a.route[0] == b.route[0] && Child(v, a.route[0]) == Some(child)
    ensures EditTwice(v, a, b) ==
            if !IsContainer(child) then None else
            match EditTwice(child, Tail(a), Tail(b))
            case None => None
            case Some(x) => Some(WithChild(v, a.route[0], x))
  {
    if IsContainer(child) && Edit(child, Tail(a)).Success? {
      var w := Edit(child, Tail(a)).value;
      EditKeepsContainer(child, Tail(a));
      SetChildTwice(v, a.route[0], w, w);
      if Edit(w, Tail(b)).Success? {
        SetChildTwice(v, a.route[0], w, Edit(w, Tail(b)).value);
      }
    }
  }

  /**
   * Two changes whose targets part at depth `k`, neither splicing the array they share
   * there, give the same document in either order, or fail in either order.
   */
  lemma {:induction false} EditsCommute(v: Json, a: Step, b: Step, k: nat)
    requires PartAt(a.route, b.route, k)
    requires !SplicesAt(v, a, k) && !SplicesAt(v, b, k)
    ensures EditTwice(v, a, b) == EditTwice(v, b, a)
    decreases k
  {
    if IsContainer(v) {
      if k == 0 {
        assert Lookup(v, a.route[..0]) == Some(v) && Lookup(v, b.route[..0]) == Some(v);
        EditsOfChildrenCommute(v, a, b);
      } else {
        PartLater(a.route, b.route, k);
        if Child(v, a.route[0]).Some? {
          var child := Child(v, a.route[0]).value;
          SplicesLater(v, a, k, child);
          SplicesLater(v, b, k, child);
          EditsCommute(child, Tail(a), Tail(b), k - 1);
          EditTwiceThroughChild(v, child, a, b);
          EditTwiceThroughChild(v, child, b, a);
        }
      }
    }
  }

  /** Changes that part without splicing a shared array can be listed in either order. */
  lemma ChangesCommute(v: Json, a: Change, b: Change, k: nat)
    requires PartAt(Route(a.path), Route(b.path), k)
    requires !SplicesAt(v, StepOf(a), k) && !SplicesAt(v, StepOf(b), k)
    ensures ApplyAll(v, [a, b]).Success? <==> ApplyAll(v, [b, a]).Success?
    ensures ApplyAll(v, [a, b]).Success? ==> ApplyAll(v, [a, b]) == ApplyAll(v, [b, a])
  {
    EditsCommute(v, StepOf(a), StepOf(b), k);
    ApplyTwo(v, a, b);
    ApplyTwo(v, b, a);
  }

  lemma ApplyTwo(v: Json, a: Change, b: Change)
    ensures match EditTwice(v, StepOf(a), StepOf(b))
            case None => ApplyAll(v, [a, b]).Failure?
            case Some(x) => ApplyAll(v, [a, b]) == Success(x)
  {
    hide Edit;
    assert [a, b][1..] == [b] && [b][1..] == [];
    if ApplyOne(v, a).Success? {
      var w := ApplyOne(v, a).value;
      if ApplyOne(w, b).Success? {
        assert ApplyAll(ApplyOne(w, b).value, []) == Success(ApplyOne(w, b).value);
      }
      assert ApplyAll(w, [b]).Success? == ApplyOne(w, b).Success?;
    }
  }

  /** A spliced array shared by both routes makes the order matter. */
  lemma SplicesDoNotCommute()
    ensures var v := Array([Null, Null]);
            var a, b := Step(Remove, ["0"], Null), Step(Replace, ["1"], Bool(true));
            EditTwice(v, a, b) != EditTwice(v, b, a)
  {
    var v := Array([Null, Null]);
    assert IsIndex("0") && IndexValue("0") == 0 by { assert "0"[..0] == ""; }
    assert IsIndex("1") && IndexValue("1") == 1 by { assert "1"[..0] == ""; }
    assert v.items[..0] + v.items[1..] == [Null];
  }

  // ---- Undo ----

  /** The edit that takes a successful edit back, with the array index it really used. */
  function Invert(v: Json, a: Step): (r: Step)
    requires Edit(v, a).Success?
    ensures |r.route| == |a.route|
    decreases |a.route|
  {
    if |a.route| == 1 then InvertHere(v, a) else
    var r := Invert(Child(v, a.route[0]).value, Tail(a));
    Step(r.op, [a.route[0]] + r.route, r.value)
  }

  function InvertHere(v: Json, a: Step): (r: Step)
    requires |a.route| == 1 && Edit(v, a).Success?
    ensures |r.route| == 1
  {
    var last := a.route[0];
    var segment := if v.Array? then Decimal(Position(|v.items|, a.op, last).value) else last;
    var before := if a.op.Add? then Null else if v.Array? then v.items[Position(|v.items|, a.op, last).value] else v.members[last];
    Step(match a.op { case Add => Remove case Replace => Replace case Remove => Add }, [segment], before)
  }

  lemma UndoInArray(items: seq<Json>, op: Op, last: string, value: Json)
    requires EditItems(items, op, last, value).Success?
    ensures var p := Position(|items|, op, last).value;
            var after := EditItems(items, op, last, value).value;
            EditItems(after, match op { case Add => Remove case Replace => Replace case Remove => Add }, Decimal(p),
                      if op.Add? then Null else items[p]) == Success(items)
  {
    var p := Position(|items|, op, last).value;
    var after := EditItems(items, op, last, value).value;
    IndexTextsAgree(Decimal(p), p);
    match op
    case Add => assert after[..p] + after[p + 1..] == items;
    case Replace => assert after[p := items[p]] == items;
    case Remove => assert after[..p] + [items[p]] + after[p..] == items;
  }

  lemma UndoHere(v: Json, a: Step)
    requires |a.route| == 1 && Edit(v, a).Success?
    ensures Edit(Edit(v, a).value, InvertHere(v, a)) == Success(v)
  {
    if v.Array? {
      hide EditItems;
      UndoInArray(v.items, a.op, a.route[0], a.value);
    } else {
      var m, last := v.members, a.route[0];
      match a.op
      case Add => assert m[last := a.value] - {last} == m;
      case Replace => assert m[last := a.value][last := m[last]] == m;
      case Remove => assert (m - {last})[last := m[last]] == m;
    }
  }

  lemma {:induction false} UndoEdit(v: Json, a: Step)
    requires Edit(v, a).Success?
    ensures Edit(Edit(v, a).value, Invert(v, a)) == Success(v)
    decreases |a.route|
  {
    if |a.route| == 1 {
      UndoHere(v, a);
    } else {
      var child := Child(v, a.route[0]).value;
      UndoEdit(child, Tail(a));
      EditKeepsContainer(child, Tail(a));
      SetChildTwice(v, a.route[0], Edit(child, Tail(a)).value, child);
      assert Tail(Invert(v, a)) == Invert(child, Tail(a));
    }
  }

  /** The change that undoes `change` on the document it was applied to. */
  function InverseChange(v: Json, change: Change): Change
    requires ApplyOne(v, change).Success?
  {
    var r := Invert(v, StepOf(change));
    Change(r.op, Encode(r.route), r.value)
  }

  /** The inverse changes, last change first. */
  function InverseChanges(v: Json, changes: seq<Change>): seq<Change>
    requires ApplyAll(v, changes).Success?
    decreases |changes|
  {
    if |changes| == 0 then [] else
    InverseChanges(ApplyOne(v, changes[0]).value, changes[1..]) + [InverseChange(v, changes[0])]
  }

  lemma UndoOne(v: Json, change: Change)
    requires ApplyOne(v, change).Success?
    ensures ApplyOne(ApplyOne(v, change).value, InverseChange(v, change)) == Success(v)
  {
    UndoEdit(v, StepOf(change));
    DecodeEncode(Invert(v, StepOf(change)).route);
  }

  lemma {:induction false} ApplyConcat(v: Json, a: seq<Change>, b: seq<Change>)
    requires ApplyAll(v, a).Success?
    ensures ApplyAll(v, a + b).Success? <==> ApplyAll(ApplyAll(v, a).value, b).Success?
    ensures ApplyAll(v, a + b).Success? ==> ApplyAll(v, a + b) == ApplyAll(ApplyAll(v, a).value, b)
    decreases |a|
  {
    hide ApplyOne;
    if |a| == 0 {
      assert a + b == b;
    } else {
      assert (a + b)[1..] == a[1..] + b;
      ApplyConcat(ApplyOne(v, a[0]).value, a[1..], b);
    }
  }

  /** The changes fail at the first change that does not apply to what the ones before it give. */
  lemma {:induction false} FirstFailure(v: Json, changes: seq<Change>, i: nat, reason: Reason)
    ensures ApplyAll(v, changes) == Failure(ApplyError(i, reason)) <==>
            i < |changes| && ApplyAll(v, changes[..i]).Success? && ApplyOne(ApplyAll(v, changes[..i]).value, changes[i]) == Failure(reason)
    decreases |changes|
  {
    hide ApplyOne;
    if |changes| > 0 {
      if i == 0 {
        assert changes[..0] == [];
      } else if i <= |changes| && ApplyOne(v, changes[0]).Success? {
        assert changes[..i][1..] == changes[1..][..i - 1];
        FirstFailure(ApplyOne(v, changes[0]).value, changes[1..], i - 1, reason);
      } else if ApplyOne(v, changes[0]).Success? {
        FirstFailure(ApplyOne(v, changes[0]).value, changes[1..], i - 1, reason);
      }
    }
  }

  /** One more change after those that applied. */
  lemma OneMoreChange(v: Json, changes: seq<Change>, i: nat)
    requires i < |changes| && ApplyAll(v, changes[..i]).Success?
    ensures match ApplyOne(ApplyAll(v, changes[..i]).value, changes[i])
            case Success(w) => ApplyAll(v, changes[..i + 1]) == Success(w)
            case Failure(reason) => ApplyAll(v, changes) == Failure(ApplyError(i, reason))
  {
    hide ApplyOne;
    var w := ApplyAll(v, changes[..i]).value;
    assert changes[..i + 1] == changes[..i] + [changes[i]];
    ApplyConcat(v, changes[..i], [changes[i]]);
    assert [changes[i]][1..] == [];
    if ApplyOne(w, changes[i]).Failure? {
      FirstFailure(v, changes, i, ApplyOne(w, changes[i]).error);
    } else {
      assert ApplyAll(ApplyOne(w, changes[i]).value, []) == Success(ApplyOne(w, changes[i]).value);
      assert ApplyAll(w, [changes[i]]) == Success(ApplyOne(w, changes[i]).value);
    }
  }

  /** Applying the inverse changes, last first, restores the original document exactly. */
  lemma {:induction false} Undo(v: Json, changes: seq<Change>)
    requires ApplyAll(v, changes).Success?
    ensures ApplyAll(ApplyAll(v, changes).value, InverseChanges(v, changes)) == Success(v)
    decreases |changes|
  {
    if |changes| > 0 {
      var w := ApplyOne(v, changes[0]).value;
      Undo(w, changes[1..]);
      UndoOne(v, changes[0]);
      var inverse := InverseChange(v, changes[0]);
      assert [inverse][1..] == [];
      ApplyConcat(ApplyAll(v, changes).value, InverseChanges(w, changes[1..]), [inverse]);
    }
  }

  // ---- Consistency of a Change Request with the revision it proposes ----

  datatype Inconsistency = CannotApply(error: ApplyError) | OtherSpec

  /** The member every change of a Change Request is under. */
  function SpecOf(v: Json): Option<Json> {
    Child(v, "spec")
  }

  /** The declared changes turn the base into a document with the proposed spec, compared by digest. */
  function VerifyChangeConsistency(changes: seq<Change>, base: Document, proposed: Document): Option<Inconsistency> {
    match ApplyAll(ToJson(base), changes)
    case Failure(e) => Some(CannotApply(e))
    case Success(v) =>
      match SpecOf(v)
      case None => Some(OtherSpec)
      case Some(spec) => if DigestOf(spec) == DigestOf(proposed.spec) then None else Some(OtherSpec)
  }

  /** Comparing digests accepts exactly the changes that produce the proposed spec. */
  lemma ConsistencyIsExact(changes: seq<Change>, base: Document, proposed: Document)
    ensures VerifyChangeConsistency(changes, base, proposed) == None <==>
            var r := ApplyAll(ToJson(base), changes);
            r.Success? && Lookup(r.value, ["spec"]) == Some(proposed.spec)
  {
    var r := ApplyAll(ToJson(base), changes);
    assert r.Success? ==> Lookup(r.value, ["spec"]) == SpecOf(r.value);
    if r.Success? && SpecOf(r.value).Some? {
      DigestOfInjective(SpecOf(r.value).value, proposed.spec);
    }
  }
}
