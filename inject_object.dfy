/**
 * The nodes of the object graph (injectObject): a provided value with the
 * injected fields scanned from its struct, the count of those still
 * unsatisfied and the complete and scheduled flags, and how a node changes.
 */
module InjectObjects {
  import opened Types

  /**
   * An injected field of a node: its declared type, the tag's name ("" for an
   * unnamed tag), whether it is satisfied, and the value injected to it (the
   * write through the settable field, recorded as a value).
   */
  datatype InjectField = InjectField(fieldType: Type, tagName: string, isSatisfied: bool, injected: Option<Value>)

  /** The injected fields scanning records for fs: one per tagged declaration, in order, unsatisfied. */
  function ScannedFields(fs: seq<FieldDecl>): seq<InjectField>
  {
    if fs == [] then []
    else (if fs[0].tag.Some? then [InjectField(fs[0].ty, fs[0].tag.value, false, None)] else []) + ScannedFields(fs[1..])
  }

  /**
   * Scanned fields start unsatisfied with nothing injected, and when no tagged
   * field has a wrong kind each is an interface or a pointer.
   */
  lemma {:induction false} ScannedFresh(fs: seq<FieldDecl>)
    decreases |fs|
    ensures forall k :: 0 <= k < |ScannedFields(fs)| ==>
      !ScannedFields(fs)[k].isSatisfied && ScannedFields(fs)[k].injected.None?
    ensures (forall j :: 0 <= j < |fs| ==> !WrongTaggedField(fs[j])) ==>
      forall k :: 0 <= k < |ScannedFields(fs)| ==>
        ScannedFields(fs)[k].fieldType.Interface? || ScannedFields(fs)[k].fieldType.Ptr?
  {
    if fs != [] {
      ScannedFresh(fs[1..]);
      if forall j :: 0 <= j < |fs| ==> !WrongTaggedField(fs[j]) {
        assert forall j :: 0 <= j < |fs[1..]| ==> !WrongTaggedField(fs[1..][j]) by {
          forall j | 0 <= j < |fs[1..]|
            ensures !WrongTaggedField(fs[1..][j])
          {
            assert fs[1..][j] == fs[j + 1];
          }
        }
        assert !WrongTaggedField(fs[0]);
      }
    }
  }

  lemma {:induction false} ScannedAppend(fs: seq<FieldDecl>, f: FieldDecl)
    decreases |fs|
    ensures ScannedFields(fs + [f]) ==
      ScannedFields(fs) + (if f.tag.Some? then [InjectField(f.ty, f.tag.value, false, None)] else [])
  {
    if fs != [] {
      assert (fs + [f])[1..] == fs[1..] + [f];
      ScannedAppend(fs[1..], f);
    } else {
      assert [f][1..] == [];
    }
  }

  /** The index of the first tagged field that is neither an interface nor a pointer, or |fs|. */
  function FirstWrongTagged(fs: seq<FieldDecl>): (k: nat)
    ensures k <= |fs|
    ensures forall j :: 0 <= j < k ==> !WrongTaggedField(fs[j])
    ensures k < |fs| ==> WrongTaggedField(fs[k])
  {
    if fs == [] then 0 else if WrongTaggedField(fs[0]) then 0 else 1 + FirstWrongTagged(fs[1..])
  }

  /**
   * scanInjectFields(v): the tagged fields of v's pointee struct in declaration
   * order, as unsatisfied injected fields. The first tagged field that is neither
   * an interface nor a pointer is an error, and so is a pointee that is not a
   * struct; a nil pointer has no pointee to ask for its type.
   */
  function Scan(u: Universe, v: Value): Result<seq<InjectField>>
  {
    var t := Indirect(v.ty);
    if IsNilPointer(v) then Failure(ZeroValue(v))
    else if !t.Struct? then Failure(NotStruct(v))
    else
      var fs := FieldsOf(u, t);
      var k := FirstWrongTagged(fs);
      if k < |fs| then Failure(FieldWrongType(fs[k]))
      else Success(ScannedFields(fs))
  }

  /** The number of unsatisfied fields. */
  function Unsatisfied(fs: seq<InjectField>): nat
  {
    if fs == [] then 0 else (if fs[0].isSatisfied then 0 else 1) + Unsatisfied(fs[1..])
  }

  /** Satisfying one unsatisfied field lowers the count by exactly one. */
  lemma {:induction false} UnsatisfiedAfterSet(fs: seq<InjectField>, i: nat, f: InjectField)
    requires i < |fs| && !fs[i].isSatisfied && f.isSatisfied
    decreases |fs|
    ensures Unsatisfied(fs[i := f]) == Unsatisfied(fs) - 1
  {
    if i > 0 {
      assert fs[i := f][1..] == fs[1..][i - 1 := f];
      UnsatisfiedAfterSet(fs[1..], i - 1, f);
    }
  }

  /** No field is unsatisfied exactly when the count is zero. */
  lemma {:induction false} UnsatisfiedZero(fs: seq<InjectField>)
    decreases |fs|
    ensures Unsatisfied(fs) == 0 <==> forall k :: 0 <= k < |fs| ==> fs[k].isSatisfied
  {
    if fs != [] {
      UnsatisfiedZero(fs[1..]);
      if Unsatisfied(fs) == 0 {
        forall k | 0 <= k < |fs|
          ensures fs[k].isSatisfied
        {
          if k > 0 {
            assert fs[k] == fs[1..][k - 1];
          }
        }
      }
      if forall k :: 0 <= k < |fs| ==> fs[k].isSatisfied {
        assert fs[0].isSatisfied;
        forall k | 0 <= k < |fs[1..]|
          ensures fs[1..][k].isSatisfied
        {
          assert fs[1..][k] == fs[k + 1];
        }
      }
    }
  }

  /** Freshly scanned fields are all unsatisfied, so the count is their number. */
  lemma {:induction false} UnsatisfiedAllFresh(fs: seq<InjectField>)
    requires forall k :: 0 <= k < |fs| ==> !fs[k].isSatisfied
    decreases |fs|
    ensures Unsatisfied(fs) == |fs|
  {
    if fs != [] {
      assert forall k :: 0 <= k < |fs[1..]| ==> !fs[1..][k].isSatisfied by {
        forall k | 0 <= k < |fs[1..]|
          ensures !fs[1..][k].isSatisfied
        {
          assert fs[1..][k] == fs[k + 1];
        }
      }
      UnsatisfiedAllFresh(fs[1..]);
    }
  }

  /**
   * A node of the graph (injectObject): the provided value, its injected
   * fields, the number of them still unsatisfied, whether it is complete and
   * whether its Init and Close calls were scheduled. The graph keeps its nodes
   * in a table under their identities and updates a node by storing the
   * changed record back under the same identity.
   */
  datatype InjectObject = InjectObject(
    value: Value,
    fields: seq<InjectField>,
    unfulfilledNum: int,
    isComplete: bool,
    isMethodCallAdded: bool)

  /**
   * The counter is the number of unsatisfied fields, the node is complete when
   * it is zero, a field is satisfied exactly when a value was injected to it,
   * and only a complete node is scheduled.
   */
  ghost predicate ObjectValid(o: InjectObject)
  {
    && o.unfulfilledNum == Unsatisfied(o.fields)
    && (o.isComplete <==> o.unfulfilledNum == 0)
    && (forall k :: 0 <= k < |o.fields| ==> (o.fields[k].isSatisfied <==> o.fields[k].injected.Some?))
    && (o.isMethodCallAdded ==> o.isComplete)
  }

  /** Every value injected into a field of o is among vs. */
  ghost predicate InjectedAmong(o: InjectObject, vs: seq<Value>)
  {
    forall k | 0 <= k < |o.fields| && o.fields[k].injected.Some? :: o.fields[k].injected.value in vs
  }

  /** Every field of o is satisfied with a value among vs. */
  ghost predicate SatisfiedFrom(o: InjectObject, vs: seq<Value>)
  {
    forall k | 0 <= k < |o.fields| :: o.fields[k].injected.Some? && o.fields[k].injected.value in vs
  }

  /** A complete node has every field satisfied, so its injected values are its dependencies. */
  lemma CompleteSatisfied(o: InjectObject, vs: seq<Value>)
    requires ObjectValid(o) && o.isComplete && InjectedAmong(o, vs)
    ensures SatisfiedFrom(o, vs)
  {
    UnsatisfiedZero(o.fields);
  }

  /**
   * newInjectObject(v): a node with the scanned fields, all unsatisfied,
   * complete exactly when there are none. A scanning failure is returned.
   */
  method NewInjectObject(u: Universe, v: Value) returns (obj: InjectObject, err: Option<Error>)
    ensures err.None? <==> Scan(u, v).Success?
    ensures err.Some? ==> err.value == Scan(u, v).error
    ensures err.None? ==> obj.value == v && obj.fields == Scan(u, v).value && !obj.isMethodCallAdded
    ensures err.None? ==> obj.unfulfilledNum == |obj.fields| && (obj.isComplete <==> obj.fields == [])
    ensures err.None? ==> ObjectValid(obj) && InjectedAmong(obj, [])
  {
    var r := ScanInjectFields(u, v);
    if r.Failure? {
      return InjectObject(v, [], 0, false, false), Some(r.error);
    }
    ScannedFresh(FieldsOf(u, Indirect(v.ty)));
    UnsatisfiedAllFresh(r.value);
    var n := |r.value|;
    obj := InjectObject(v, r.value, n, n == 0, false);
    return obj, None;
  }

  /**
   * UnfulfilledFields(): no field once the node is complete, otherwise all of
   * its fields, satisfied or not; for a valid node it is empty exactly when
   * every field is satisfied.
   */
  function UnfulfilledFields(o: InjectObject): (r: seq<InjectField>)
    ensures r == [] || r == o.fields
    ensures ObjectValid(o) ==> (r == [] <==> forall k :: 0 <= k < |o.fields| ==> o.fields[k].isSatisfied)
  {
    UnsatisfiedZero(o.fields);
    if o.isComplete then [] else o.fields
  }

  /**
   * SetField(v, field) for the field at index i: a satisfied field panics,
   * and so does reflection's write of a value whose type is not assignable to
   * the field's; otherwise exactly that field becomes satisfied with v, the
   * counter drops by one and the node is complete once it reaches zero or below.
   */
  function SetField(u: Universe, o: InjectObject, v: Value, i: nat): (r: Result<InjectObject>)
    requires i < |o.fields|
    ensures r.Failure? <==> o.fields[i].isSatisfied || !AssignableTo(u, v.ty, o.fields[i].fieldType)
    ensures r.Failure? && o.fields[i].isSatisfied ==> r.error == FieldSatisfied(o.fields[i].fieldType, o.value)
    ensures r.Failure? && !o.fields[i].isSatisfied ==> r.error == NotAssignable(v.ty, o.fields[i].fieldType)
    ensures r.Success? ==>
      && |r.value.fields| == |o.fields|
      && r.value.fields[i] == o.fields[i].(isSatisfied := true, injected := Some(v))
      && (forall k :: 0 <= k < |o.fields| && k != i ==> r.value.fields[k] == o.fields[k])
      && r.value.value == o.value && r.value.isMethodCallAdded == o.isMethodCallAdded
      && r.value.unfulfilledNum == o.unfulfilledNum - 1
      && r.value.isComplete == (o.isComplete || r.value.unfulfilledNum <= 0)
    ensures r.Success? && ObjectValid(o) ==>
      ObjectValid(r.value) && Unsatisfied(r.value.fields) == Unsatisfied(o.fields) - 1
  {
    if o.fields[i].isSatisfied then Failure(FieldSatisfied(o.fields[i].fieldType, o.value))
    else if !AssignableTo(u, v.ty, o.fields[i].fieldType) then Failure(NotAssignable(v.ty, o.fields[i].fieldType))
    else
      var f := o.fields[i].(isSatisfied := true, injected := Some(v));
      UnsatisfiedAfterSet(o.fields, i, f);
      var n := o.unfulfilledNum - 1;
      Success(o.(fields := o.fields[i := f], unfulfilledNum := n, isComplete := o.isComplete || n <= 0))
  }

  /**
   * Node p is node o at a later time: the same value and the same fields by
   * type and tag, a satisfied field unchanged, and neither flag lost.
   */
  ghost predicate NodeGrows(o: InjectObject, p: InjectObject)
  {
    && p.value == o.value && |p.fields| == |o.fields|
    && (forall k :: 0 <= k < |o.fields| ==>
          && p.fields[k].fieldType == o.fields[k].fieldType && p.fields[k].tagName == o.fields[k].tagName
          && (o.fields[k].isSatisfied ==> p.fields[k] == o.fields[k]))
    && (o.isComplete ==> p.isComplete) && (o.isMethodCallAdded ==> p.isMethodCallAdded)
  }

  /** Table b is table a at a later time: the same identities, every node grown. */
  ghost predicate Grows(a: map<nat, InjectObject>, b: map<nat, InjectObject>)
  {
    a.Keys == b.Keys && forall x | x in a :: NodeGrows(a[x], b[x])
  }

  /** scanInjectFields(v), field by field. */
  method ScanInjectFields(u: Universe, v: Value) returns (r: Result<seq<InjectField>>)
    ensures r == Scan(u, v)
  {
    if IsNilPointer(v) {
      return Failure(ZeroValue(v));
    }
    var t := Indirect(v.ty);
    if !t.Struct? {
      return Failure(NotStruct(v));
    }
    var fs := FieldsOf(u, t);
    var ret: seq<InjectField> := [];
    var i := 0;
    while i < |fs|
      invariant 0 <= i <= |fs|
      invariant forall j :: 0 <= j < i ==> !WrongTaggedField(fs[j])
      invariant ret == ScannedFields(fs[..i])
    {
      var field := fs[i];
      ScannedAppend(fs[..i], field);
      assert fs[..i + 1] == fs[..i] + [field];
      if field.tag.Some? {
        if field.ty.Interface? || field.ty.Ptr? {
          ret := ret + [InjectField(field.ty, field.tag.value, false, None)];
        } else {
          assert FirstWrongTagged(fs) == i;
          return Failure(FieldWrongType(field));
        }
      }
      i := i + 1;
    }
    assert fs[..i] == fs;
    assert FirstWrongTagged(fs) == |fs|;
    return Success(ret);
  }

  /** Replacing a node by a grown one grows the table. */
  lemma GrowsUpdate(a: map<nat, InjectObject>, x: nat, p: InjectObject)
    requires x in a && NodeGrows(a[x], p)
    ensures Grows(a, a[x := p])
  {
  }

  /** The first i fields of o are satisfied. */
  ghost predicate SatisfiedUpTo(o: InjectObject, i: nat)
  {
    i <= |o.fields| && forall j :: 0 <= j < i ==> o.fields[j].isSatisfied
  }

  /** A node whose every field is satisfied is complete. */
  lemma CompleteWhenSatisfied(o: InjectObject)
    requires ObjectValid(o) && SatisfiedUpTo(o, |o.fields|)
    ensures o.isComplete
  {
    UnsatisfiedZero(o.fields);
  }

  /** A grown node keeps its satisfied prefix, and one more satisfied field extends it. */
  lemma SatisfiedNext(o: InjectObject, p: InjectObject, i: nat)
    requires NodeGrows(o, p) && SatisfiedUpTo(o, i) && i < |p.fields| && p.fields[i].isSatisfied
    ensures SatisfiedUpTo(p, i + 1)
  {
    forall j | 0 <= j < i
      ensures p.fields[j].isSatisfied
    {
      assert o.fields[j].isSatisfied;
    }
  }

  /** A node of a table that grows, grows. */
  lemma GrowsNode(a: map<nat, InjectObject>, b: map<nat, InjectObject>, x: nat)
    requires Grows(a, b) && x in a
    ensures x in b && NodeGrows(a[x], b[x])
  {
  }

  /** A successful SetField grows the node. */
  lemma SetFieldGrows(u: Universe, o: InjectObject, v: Value, i: nat)
    requires i < |o.fields| && SetField(u, o, v, i).Success?
    ensures NodeGrows(o, SetField(u, o, v, i).value)
  {
  }

  /** Growth is transitive. */
  lemma GrowsTrans(a: map<nat, InjectObject>, b: map<nat, InjectObject>, c: map<nat, InjectObject>)
    requires Grows(a, b) && Grows(b, c)
    ensures Grows(a, c)
  {
  }

  /** A flagged node stays flagged in a grown table. */
  lemma GrowsFlagged(a: map<nat, InjectObject>, b: map<nat, InjectObject>, x: nat)
    requires Grows(a, b) && x in a && a[x].isMethodCallAdded
    ensures x in b && b[x].isMethodCallAdded
  {
  }

  /**
   * The node of TestInjectObject: a struct with an unnamed `error` field and
   * a `*bytes.Buffer` field tagged "buf", and the values injected into them.
   */
  const SCENARIO_UNIVERSE: Universe := Universe(
    map["testStruct" := [FieldDecl("Err", ERROR_TYPE, Some("")), FieldDecl("Buf", Ptr(Struct("bytes.Buffer")), Some("buf"))]],
    {(Ptr(Struct("errors.errorString")), ERROR_TYPE)}, {}, {})
  const SCENARIO_OBJECT: Value := Value(1, Ptr(Struct("testStruct")))
  const SCENARIO_ERROR: Value := Value(2, Ptr(Struct("errors.errorString")))
  const SCENARIO_BUFFER: Value := Value(3, Ptr(Struct("bytes.Buffer")))

  /**
   * Scanning finds both fields, unsatisfied; setting them in order leaves no
   * field unfulfilled and completes the node; setting a satisfied field again
   * is an error.
   */
  lemma InjectObjectScenario()
    ensures Scan(SCENARIO_UNIVERSE, SCENARIO_OBJECT).Success?
    ensures var fs := Scan(SCENARIO_UNIVERSE, SCENARIO_OBJECT).value;
      var o := InjectObject(SCENARIO_OBJECT, fs, |fs|, fs == [], false);
      && |fs| == 2 && !o.isComplete
      && SetField(SCENARIO_UNIVERSE, o, SCENARIO_ERROR, 0).Success?
      && var o1 := SetField(SCENARIO_UNIVERSE, o, SCENARIO_ERROR, 0).value;
      && SetField(SCENARIO_UNIVERSE, o1, SCENARIO_BUFFER, 1).Success?
      && var o2 := SetField(SCENARIO_UNIVERSE, o1, SCENARIO_BUFFER, 1).value;
      && o2.unfulfilledNum == 0 && o2.isComplete && UnfulfilledFields(o2) == []
      && SetField(SCENARIO_UNIVERSE, o2, SCENARIO_ERROR, 0) == Failure(FieldSatisfied(ERROR_TYPE, SCENARIO_OBJECT))
  {
    var fds := SCENARIO_UNIVERSE.structs["testStruct"];
    assert FieldsOf(SCENARIO_UNIVERSE, Struct("testStruct")) == fds;
    assert fds[1..][1..] == [];
    assert FirstWrongTagged(fds) == 2;
    assert ScannedFields(fds[1..][1..]) == [];
    assert ScannedFields(fds[1..]) == [InjectField(Ptr(Struct("bytes.Buffer")), "buf", false, None)];
    assert ScannedFields(fds) == [InjectField(ERROR_TYPE, "", false, None), InjectField(Ptr(Struct("bytes.Buffer")), "buf", false, None)];
  }
}
