/**
 * What a change does to the place its pointer names, read back through pointers only:
 * which positions of an array and which members of an object it accepts, and what is
 * there afterwards.
 */
module ChangeLaws {
  import opened Wrappers
  import opened Text
  import opened Json
  import opened JsonPointer
  import opened ChangeRequest

  /** The change at `last` of the container that `front` leads to, as it is written. */
  function ChangeAt(op: Op, front: seq<string>, last: string, value: Json): Change {
    Change(op, Encode(front + [last]), value)
  }

  lemma ReadsRoute(op: Op, front: seq<string>, last: string, value: Json)
    ensures StepOf(ChangeAt(op, front, last, value)) == Step(op, front + [last], value)
  {
    DecodeEncode(front + [last]);
  }

  lemma ContainerAbove(v: Json, front: seq<string>)
    requires Lookup(v, front).Some? && IsContainer(Lookup(v, front).value)
    ensures IsContainer(v)
  {}

  /** The change succeeds exactly when it does in its container, which becomes what it makes of it there. */
  lemma SeenAt(v: Json, op: Op, front: seq<string>, last: string, value: Json)
    requires Lookup(v, front).Some? && IsContainer(Lookup(v, front).value)
    ensures var r, here := ApplyOne(v, ChangeAt(op, front, last, value)), EditHere(Lookup(v, front).value, op, last, value);
            match here
            case Success(c) => r.Success? && Lookup(r.value, front) == Some(c)
            case Failure(e) => r == Failure(e)
  {
    hide Edit, EditHere, Lookup, Encode, Decode;
    var a: Step := Step(op, front + [last], value);
    ReadsRoute(op, front, last, value);
    ContainerAbove(v, front);
    Effect(v, a);
    assert a.route[..|a.route| - 1] == front && a.route[|a.route| - 1] == last;
  }

  // ---- Arrays ----

  /** One more element: the value at `n`, those before it kept, those from `n` on moved up by one. */
  ghost predicate IsInserted(before: seq<Json>, n: nat, value: Json, after: seq<Json>) {
    && |after| == |before| + 1 && n <= |before| && after[n] == value
    && (forall k | 0 <= k < n :: after[k] == before[k])
    && forall k | n <= k < |before| :: after[k + 1] == before[k]
  }

  /** The element at `n` replaced, the others kept. */
  ghost predicate IsReplaced(before: seq<Json>, n: nat, value: Json, after: seq<Json>) {
    |after| == |before| && n < |before| && after[n] == value && forall k | 0 <= k < |before| && k != n :: after[k] == before[k]
  }

  /** One element less: those before `n` kept, those after it moved down by one. */
  ghost predicate IsRemoved(before: seq<Json>, n: nat, after: seq<Json>) {
    && |after| + 1 == |before| && n < |before|
    && (forall k | 0 <= k < n :: after[k] == before[k])
    && forall k | n < k < |before| :: after[k - 1] == before[k]
  }

  ghost predicate IsChanged(op: Op, before: seq<Json>, n: nat, value: Json, after: seq<Json>) {
    match op
    case Add => IsInserted(before, n, value, after)
    case Replace => IsReplaced(before, n, value, after)
    case Remove => IsRemoved(before, n, after)
  }

  /** The last segment names position `n`: its decimal text, or the dash for what an ADD appends. */
  ghost predicate NamesPosition(op: Op, length: nat, last: string, n: nat) {
    match op
    case Add => n <= length && (last == Decimal(n) || (last == "-" && n == length))
    case _ => n < length && last == Decimal(n)
  }

  lemma DashIsNoIndex(n: nat)
    ensures Decimal(n) != "-"
  {
    DecimalIsIndex(n);
  }

  /** In an array, a change at a position it names makes the change there. */
  lemma ArrayChange(v: Json, op: Op, front: seq<string>, last: string, value: Json, n: nat)
    requires Lookup(v, front).Some? && Lookup(v, front).value.Array?
    requires NamesPosition(op, |Lookup(v, front).value.items|, last, n)
    ensures var r := ApplyOne(v, ChangeAt(op, front, last, value));
            r.Success? && Lookup(r.value, front).Some? && Lookup(r.value, front).value.Array? &&
            IsChanged(op, Lookup(v, front).value.items, n, value, Lookup(r.value, front).value.items)
  {
    hide ApplyOne, Lookup;
    SeenAt(v, op, front, last, value);
    DecimalIsIndex(n);
    DashIsNoIndex(n);
  }

  /** Every other last segment fails with an invalid index. */
  lemma OtherPositionsFail(v: Json, op: Op, front: seq<string>, last: string, value: Json)
    requires Lookup(v, front).Some? && Lookup(v, front).value.Array?
    requires forall n: nat :: !NamesPosition(op, |Lookup(v, front).value.items|, last, n)
    ensures ApplyOne(v, ChangeAt(op, front, last, value)) == Failure(InvalidIndex)
  {
    hide ApplyOne, Lookup;
    SeenAt(v, op, front, last, value);
    var length := |Lookup(v, front).value.items|;
    assert !NamesPosition(op, length, last, length);
    if IsIndex(last) {
      IndexIsDecimal(last);
      assert !NamesPosition(op, length, last, IndexValue(last));
    }
  }

  // ---- Objects ----

  /**
   * In an object, ADD makes a member that was not there, REPLACE and REMOVE change one that
   * was; the others keep their values, and any other case is the error of the operation.
   */
  lemma ObjectChange(v: Json, op: Op, front: seq<string>, last: string, value: Json)
    requires Lookup(v, front).Some? && Lookup(v, front).value.Object?
    ensures var r, before := ApplyOne(v, ChangeAt(op, front, last, value)), Lookup(v, front).value.members;
            if op.Add? && last in before then r == Failure(AddOnExisting)
            else if !op.Add? && last !in before then r == Failure(MissingMember)
            else r.Success? && Lookup(r.value, front).Some? && Lookup(r.value, front).value.Object? &&
                 var after := Lookup(r.value, front).value.members;
                 (forall k | k != last :: (k in after <==> k in before) && (k in after ==> after[k] == before[k])) &&
                 (last in after <==> !op.Remove?) && (last in after ==> after[last] == value)
  {
    hide ApplyOne, Lookup;
    SeenAt(v, op, front, last, value);
  }

  // ---- Anything else ----

  /** A pointer whose container is not there, or is none, fails for want of a container. */
  lemma NoContainerThere(v: Json, op: Op, front: seq<string>, last: string, value: Json)
    requires Lookup(v, front).Some? ==> !IsContainer(Lookup(v, front).value)
    ensures ApplyOne(v, ChangeAt(op, front, last, value)) == Failure(NoContainer)
  {
    hide Edit, Lookup, Encode, Decode;
    var a: Step := Step(op, front + [last], value);
    ReadsRoute(op, front, last, value);
    assert a.route[..|a.route| - 1] == front;
    if IsContainer(v) {
      Effect(v, a);
    } else {
      NothingToEdit(v, a);
    }
  }

  lemma NothingToEdit(v: Json, a: Step)
    requires !IsContainer(v)
    ensures Edit(v, a) == Failure(NoContainer)
  {}
}
