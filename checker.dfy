/**
 * The fulfillment checker (injectChecker): which declared requirements are
 * still outstanding and which bindings are known. The value-level State and
 * its transition functions specify the class InjectChecker, whose methods
 * update the five maps in place.
 */
module Checker {
  import opened Types

  /** The checker's five maps, as a value. */
  datatype State = State(
    unfulfilledUnnamedValues: map<Type, Value>,
    unfulfilledUnnamedInterfaces: map<Type, Value>,
    unfulfilledNamedValues: map<string, Value>,
    namedValues: map<string, Value>,
    unnamedValues: map<Type, Value>)

  const EMPTY: State := State(map[], map[], map[], map[], map[])

  /** Every unnamed binding is stored under its own dynamic type. */
  predicate Keyed(s: State)
  {
    forall t :: t in s.unnamedValues ==> s.unnamedValues[t].ty == t
  }

  /** Insert unless the key is present: every map of the checker keeps its first entry. */
  function PutIfAbsent<K, V>(m: map<K, V>, k: K, v: V): map<K, V>
  {
    if k in m then m else m[k := v]
  }

  /** An unnamed tagged field that is neither an interface nor a pointer: pushInjectedFields panics on it. */
  predicate WrongUnnamedField(f: FieldDecl)
  {
    f.tag == Some("") && !f.ty.Interface? && !f.ty.Ptr?
  }

  /** The index of the first field pushInjectedFields panics on, or |fs| if there is none. */
  function FirstWrongUnnamed(fs: seq<FieldDecl>): (k: nat)
    ensures k <= |fs|
    ensures forall j :: 0 <= j < k ==> !WrongUnnamedField(fs[j])
    ensures k < |fs| ==> WrongUnnamedField(fs[k])
  {
    if fs == [] then 0
    else if WrongUnnamedField(fs[0]) then 0
    else 1 + FirstWrongUnnamed(fs[1..])
  }

  /** The fields pushInjectedFields scans: those of the pointee struct, none for any other type. */
  function DeclaredFields(u: Universe, obj: Value): seq<FieldDecl>
  {
    var t := Indirect(obj.ty);
    if t.Struct? then FieldsOf(u, t) else []
  }

  /** The effect of one scanned field declared by obj. */
  function RecordField(s: State, f: FieldDecl, obj: Value): State
  {
    match f.tag
    case None => s
    case Some(inj) =>
      if inj != "" then
        s.(unfulfilledNamedValues := PutIfAbsent(s.unfulfilledNamedValues, inj, obj))
      else if f.ty.Interface? then
        s.(unfulfilledUnnamedInterfaces := PutIfAbsent(s.unfulfilledUnnamedInterfaces, f.ty, obj))
      else if f.ty.Ptr? then
        s.(unfulfilledUnnamedValues := PutIfAbsent(s.unfulfilledUnnamedValues, f.ty, obj))
      else s
  }

  /** The effect of scanning fs in declaration order. */
  function RecordFields(s: State, fs: seq<FieldDecl>, obj: Value): State
    decreases |fs|
  {
    if fs == [] then s else RecordFields(RecordField(s, fs[0], obj), fs[1..], obj)
  }

  /** The names required by named tags. */
  function NamedTags(fs: seq<FieldDecl>): set<string>
  {
    if fs == [] then {}
    else (if fs[0].tag.Some? && fs[0].tag.value != "" then {fs[0].tag.value} else {}) + NamedTags(fs[1..])
  }

  /** The types required by unnamed tags of interface type. */
  function UnnamedInterfaces(fs: seq<FieldDecl>): set<Type>
  {
    if fs == [] then {}
    else (if fs[0].tag == Some("") && fs[0].ty.Interface? then {fs[0].ty} else {}) + UnnamedInterfaces(fs[1..])
  }

  /** The types required by unnamed tags of pointer type. */
  function UnnamedPointers(fs: seq<FieldDecl>): set<Type>
  {
    if fs == [] then {}
    else (if fs[0].tag == Some("") && fs[0].ty.Ptr? then {fs[0].ty} else {}) + UnnamedPointers(fs[1..])
  }

  /**
   * pushInjectedFields succeeds exactly when obj is not a nil pointer (whose
   * type it cannot ask for) and no unnamed tagged field has a wrong kind.
   */
  predicate PushOk(u: Universe, obj: Value)
  {
    var fs := DeclaredFields(u, obj);
    !IsNilPointer(obj) && FirstWrongUnnamed(fs) == |fs|
  }

  /**
   * The fields pushInjectedFields records before it returns or panics: none
   * for a nil pointer, otherwise those before the first wrong one.
   */
  function Scanned(u: Universe, obj: Value): (prefix: seq<FieldDecl>)
    ensures prefix <= DeclaredFields(u, obj)
    ensures PushOk(u, obj) <==> !IsNilPointer(obj) && prefix == DeclaredFields(u, obj)
  {
    var fs := DeclaredFields(u, obj);
    if IsNilPointer(obj) then [] else fs[..FirstWrongUnnamed(fs)]
  }

  /** pushInjectedFields(obj): the fields before the first wrong one are recorded; a nil pointer records nothing. */
  function Push(u: Universe, s: State, obj: Value): (r: State)
    ensures IsNilPointer(obj) || !Indirect(obj.ty).Struct? ==> r == s
    ensures r.namedValues == s.namedValues && r.unnamedValues == s.unnamedValues
  {
    var prefix := Scanned(u, obj);
    RecordFieldsKeepsBindings(s, prefix, obj);
    assert !Indirect(obj.ty).Struct? ==> prefix == [];
    RecordFields(s, prefix, obj)
  }

  /**
   * The panic pushInjectedFields raises: the zero Value's for a nil pointer,
   * otherwise the first unnamed tagged field of a wrong kind.
   */
  function PushFailure(u: Universe, obj: Value): (e: Error)
    requires !PushOk(u, obj)
    ensures e.ZeroValue? <==> IsNilPointer(obj)
    ensures e.FieldWrongType? ==> WrongUnnamedField(e.field) && e.field in DeclaredFields(u, obj)
    ensures e.ZeroValue? || e.FieldWrongType?
  {
    if IsNilPointer(obj) then ZeroValue(obj)
    else
      var fs := DeclaredFields(u, obj);
      FieldWrongType(fs[FirstWrongUnnamed(fs)])
  }

  /** Scanning never touches the bindings. */
  lemma {:induction false} RecordFieldsKeepsBindings(s: State, fs: seq<FieldDecl>, obj: Value)
    decreases |fs|
    ensures RecordFields(s, fs, obj).namedValues == s.namedValues
    ensures RecordFields(s, fs, obj).unnamedValues == s.unnamedValues
  {
    if fs != [] {
      RecordFieldsKeepsBindings(RecordField(s, fs[0], obj), fs[1..], obj);
    }
  }

  /** The declarer recorded under k after inserting obj if absent. */
  lemma PutIfAbsentAt<K>(m: map<K, Value>, k: K, obj: Value, x: K)
    requires x in PutIfAbsent(m, k, obj)
    ensures PutIfAbsent(m, k, obj)[x] == if x in m then m[x] else obj
  {
  }

  /** Scanning adds exactly the names of the named tags to unfulfilled-named. */
  lemma {:induction false} RecordFieldsNamedKeys(s: State, fs: seq<FieldDecl>, obj: Value)
    decreases |fs|
    ensures RecordFields(s, fs, obj).unfulfilledNamedValues.Keys == s.unfulfilledNamedValues.Keys + NamedTags(fs)
  {
    if fs != [] {
      var s1 := RecordField(s, fs[0], obj);
      RecordFieldsNamedKeys(s1, fs[1..], obj);
      assert s1.unfulfilledNamedValues.Keys == s.unfulfilledNamedValues.Keys + (if fs[0].tag.Some? && fs[0].tag.value != "" then {fs[0].tag.value} else {});
    }
  }

  /** One scanned field keeps every key; a key it leaves keeps its first declarer, a new one gets obj. */
  lemma RecordFieldNamedAt(s: State, f: FieldDecl, obj: Value, x: string)
    ensures var s1 := RecordField(s, f, obj);
      s.unfulfilledNamedValues.Keys <= s1.unfulfilledNamedValues.Keys &&
      (x in s1.unfulfilledNamedValues ==> s1.unfulfilledNamedValues[x] == if x in s.unfulfilledNamedValues then s.unfulfilledNamedValues[x] else obj)
  {
    if f.tag.Some? && f.tag.value != "" && x in PutIfAbsent(s.unfulfilledNamedValues, f.tag.value, obj) {
      PutIfAbsentAt(s.unfulfilledNamedValues, f.tag.value, obj, x);
    }
  }

  /** A key that scanning leaves in the map keeps its first declarer; a new key gets obj. */
  lemma {:induction false} RecordFieldsNamedAt(s: State, fs: seq<FieldDecl>, obj: Value, x: string)
    decreases |fs|
    requires x in RecordFields(s, fs, obj).unfulfilledNamedValues
    ensures RecordFields(s, fs, obj).unfulfilledNamedValues[x] == if x in s.unfulfilledNamedValues then s.unfulfilledNamedValues[x] else obj
  {
    if fs != [] {
      var s1 := RecordField(s, fs[0], obj);
      RecordFieldsNamedAt(s1, fs[1..], obj, x);
      RecordFieldNamedAt(s, fs[0], obj, x);
    }
  }

  /** Scanning adds exactly the types of the unnamed interface-typed tags to unfulfilled-interfaces. */
  lemma {:induction false} RecordFieldsInterfacesKeys(s: State, fs: seq<FieldDecl>, obj: Value)
    decreases |fs|
    ensures RecordFields(s, fs, obj).unfulfilledUnnamedInterfaces.Keys == s.unfulfilledUnnamedInterfaces.Keys + UnnamedInterfaces(fs)
  {
    if fs != [] {
      var s1 := RecordField(s, fs[0], obj);
      RecordFieldsInterfacesKeys(s1, fs[1..], obj);
      assert s1.unfulfilledUnnamedInterfaces.Keys == s.unfulfilledUnnamedInterfaces.Keys + (if fs[0].tag == Some("") && fs[0].ty.Interface? then {fs[0].ty} else {});
    }
  }

  /** One scanned field keeps every key; a key it leaves keeps its first declarer, a new one gets obj. */
  lemma RecordFieldInterfacesAt(s: State, f: FieldDecl, obj: Value, x: Type)
    ensures var s1 := RecordField(s, f, obj);
      s.unfulfilledUnnamedInterfaces.Keys <= s1.unfulfilledUnnamedInterfaces.Keys &&
      (x in s1.unfulfilledUnnamedInterfaces ==> s1.unfulfilledUnnamedInterfaces[x] == if x in s.unfulfilledUnnamedInterfaces then s.unfulfilledUnnamedInterfaces[x] else obj)
  {
    if f.tag == Some("") && f.ty.Interface? && x in PutIfAbsent(s.unfulfilledUnnamedInterfaces, f.ty, obj) {
      PutIfAbsentAt(s.unfulfilledUnnamedInterfaces, f.ty, obj, x);
    }
  }

  /** A key that scanning leaves in the map keeps its first declarer; a new key gets obj. */
  lemma {:induction false} RecordFieldsInterfacesAt(s: State, fs: seq<FieldDecl>, obj: Value, x: Type)
    decreases |fs|
    requires x in RecordFields(s, fs, obj).unfulfilledUnnamedInterfaces
    ensures RecordFields(s, fs, obj).unfulfilledUnnamedInterfaces[x] == if x in s.unfulfilledUnnamedInterfaces then s.unfulfilledUnnamedInterfaces[x] else obj
  {
    if fs != [] {
      var s1 := RecordField(s, fs[0], obj);
      RecordFieldsInterfacesAt(s1, fs[1..], obj, x);
      RecordFieldInterfacesAt(s, fs[0], obj, x);
    }
  }

  /** Scanning adds exactly the types of the unnamed pointer-typed tags to unfulfilled-values. */
  lemma {:induction false} RecordFieldsPointersKeys(s: State, fs: seq<FieldDecl>, obj: Value)
    decreases |fs|
    ensures RecordFields(s, fs, obj).unfulfilledUnnamedValues.Keys == s.unfulfilledUnnamedValues.Keys + UnnamedPointers(fs)
  {
    if fs != [] {
      var s1 := RecordField(s, fs[0], obj);
      RecordFieldsPointersKeys(s1, fs[1..], obj);
      assert s1.unfulfilledUnnamedValues.Keys == s.unfulfilledUnnamedValues.Keys + (if fs[0].tag == Some("") && fs[0].ty.Ptr? then {fs[0].ty} else {});
    }
  }

  /** One scanned field keeps every key; a key it leaves keeps its first declarer, a new one gets obj. */
  lemma RecordFieldPointersAt(s: State, f: FieldDecl, obj: Value, x: Type)
    ensures var s1 := RecordField(s, f, obj);
      s.unfulfilledUnnamedValues.Keys <= s1.unfulfilledUnnamedValues.Keys &&
      (x in s1.unfulfilledUnnamedValues ==> s1.unfulfilledUnnamedValues[x] == if x in s.unfulfilledUnnamedValues then s.unfulfilledUnnamedValues[x] else obj)
  {
    if f.tag == Some("") && f.ty.Ptr? && x in PutIfAbsent(s.unfulfilledUnnamedValues, f.ty, obj) {
      PutIfAbsentAt(s.unfulfilledUnnamedValues, f.ty, obj, x);
    }
  }

  /** A key that scanning leaves in the map keeps its first declarer; a new key gets obj. */
  lemma {:induction false} RecordFieldsPointersAt(s: State, fs: seq<FieldDecl>, obj: Value, x: Type)
    decreases |fs|
    requires x in RecordFields(s, fs, obj).unfulfilledUnnamedValues
    ensures RecordFields(s, fs, obj).unfulfilledUnnamedValues[x] == if x in s.unfulfilledUnnamedValues then s.unfulfilledUnnamedValues[x] else obj
  {
    if fs != [] {
      var s1 := RecordField(s, fs[0], obj);
      RecordFieldsPointersAt(s1, fs[1..], obj, x);
      RecordFieldPointersAt(s, fs[0], obj, x);
    }
  }

  /**
   * What pushInjectedFields records: over the fields before the first wrong one
   * (all fields when it succeeds), every named tag, unnamed interface and unnamed
   * pointer becomes outstanding; requirements already outstanding keep their
   * first declarer and new ones are declared by obj.
   */
  lemma PushRecords(u: Universe, s: State, obj: Value)
    ensures var fs := DeclaredFields(u, obj);
      var prefix := Scanned(u, obj);
      var r := Push(u, s, obj);
      && (PushOk(u, obj) ==> prefix == fs)
      && r.unfulfilledNamedValues.Keys == s.unfulfilledNamedValues.Keys + NamedTags(prefix)
      && r.unfulfilledUnnamedInterfaces.Keys == s.unfulfilledUnnamedInterfaces.Keys + UnnamedInterfaces(prefix)
      && r.unfulfilledUnnamedValues.Keys == s.unfulfilledUnnamedValues.Keys + UnnamedPointers(prefix)
      && (forall n :: n in r.unfulfilledNamedValues ==>
            r.unfulfilledNamedValues[n] == if n in s.unfulfilledNamedValues then s.unfulfilledNamedValues[n] else obj)
      && (forall t :: t in r.unfulfilledUnnamedInterfaces ==>
            r.unfulfilledUnnamedInterfaces[t] == if t in s.unfulfilledUnnamedInterfaces then s.unfulfilledUnnamedInterfaces[t] else obj)
      && (forall t :: t in r.unfulfilledUnnamedValues ==>
            r.unfulfilledUnnamedValues[t] == if t in s.unfulfilledUnnamedValues then s.unfulfilledUnnamedValues[t] else obj)
  {
    var prefix := Scanned(u, obj);
    assert Push(u, s, obj) == RecordFields(s, prefix, obj);
    RecordFieldsNamedKeys(s, prefix, obj);
    RecordFieldsInterfacesKeys(s, prefix, obj);
    RecordFieldsPointersKeys(s, prefix, obj);
    forall n | n in RecordFields(s, prefix, obj).unfulfilledNamedValues
      ensures RecordFields(s, prefix, obj).unfulfilledNamedValues[n] ==
        if n in s.unfulfilledNamedValues then s.unfulfilledNamedValues[n] else obj
    {
      RecordFieldsNamedAt(s, prefix, obj, n);
    }
    forall t | t in RecordFields(s, prefix, obj).unfulfilledUnnamedInterfaces
      ensures RecordFields(s, prefix, obj).unfulfilledUnnamedInterfaces[t] ==
        if t in s.unfulfilledUnnamedInterfaces then s.unfulfilledUnnamedInterfaces[t] else obj
    {
      RecordFieldsInterfacesAt(s, prefix, obj, t);
    }
    forall t | t in RecordFields(s, prefix, obj).unfulfilledUnnamedValues
      ensures RecordFields(s, prefix, obj).unfulfilledUnnamedValues[t] ==
        if t in s.unfulfilledUnnamedValues then s.unfulfilledUnnamedValues[t] else obj
    {
      RecordFieldsPointersAt(s, prefix, obj, t);
    }
  }

  /** Whether some type of ts can be assigned to k. */
  predicate Satisfiable(u: Universe, ts: set<Type>, k: Type)
  {
    exists t :: t in ts && AssignableTo(u, t, k)
  }

  /** The entries of m whose key no type of ts can be assigned to. */
  function Unsatisfiable(u: Universe, m: map<Type, Value>, ts: set<Type>): map<Type, Value>
  {
    map k | k in m && !Satisfiable(u, ts, k) :: m[k]
  }

  /** The unnamed requirements that some type of ts can satisfy, dropped. */
  function DropUnnamed(u: Universe, s: State, ts: set<Type>): State
  {
    s.(unfulfilledUnnamedValues := s.unfulfilledUnnamedValues - ts,
       unfulfilledUnnamedInterfaces := Unsatisfiable(u, s.unfulfilledUnnamedInterfaces, ts))
  }

  /** The named requirements of ns, dropped. */
  function DropNamed(s: State, ns: set<string>): State
  {
    s.(unfulfilledNamedValues := s.unfulfilledNamedValues - ns)
  }

  /** popFulfilledUnnamedValues(obj). */
  function PopUnnamed(u: Universe, s: State, obj: Value): (r: State)
    ensures r.unnamedValues.Keys == s.unnamedValues.Keys + {obj.ty}
    ensures forall t :: t in s.unnamedValues ==> r.unnamedValues[t] == s.unnamedValues[t]
    ensures obj.ty !in s.unnamedValues ==> r.unnamedValues[obj.ty] == obj
    ensures r.unfulfilledUnnamedValues.Keys == s.unfulfilledUnnamedValues.Keys - {obj.ty}
    ensures forall t :: t in r.unfulfilledUnnamedValues ==> r.unfulfilledUnnamedValues[t] == s.unfulfilledUnnamedValues[t]
    ensures forall k :: k in s.unfulfilledUnnamedInterfaces ==>
      (k in r.unfulfilledUnnamedInterfaces <==> !AssignableTo(u, obj.ty, k))
    ensures forall k :: k in r.unfulfilledUnnamedInterfaces ==>
      k in s.unfulfilledUnnamedInterfaces && r.unfulfilledUnnamedInterfaces[k] == s.unfulfilledUnnamedInterfaces[k]
    ensures r.unfulfilledNamedValues == s.unfulfilledNamedValues && r.namedValues == s.namedValues
  {
    s.(unnamedValues := PutIfAbsent(s.unnamedValues, obj.ty, obj),
       unfulfilledUnnamedValues := s.unfulfilledUnnamedValues - {obj.ty},
       unfulfilledUnnamedInterfaces := Unsatisfiable(u, s.unfulfilledUnnamedInterfaces, {obj.ty}))
  }

  /** Deleting the keys of ks one at a time: one more key deleted. */
  lemma DeleteNext(m: map<Type, Value>, ks: seq<Type>, i: nat)
    requires i < |ks|
    ensures (map k | k in m && k !in ks[..i + 1] :: m[k]) == (map k | k in m && k !in ks[..i] :: m[k]) - {ks[i]}
  {
    assert ks[..i + 1] == ks[..i] + [ks[i]];
  }

  /** Deleting exactly the keys t is assignable to leaves the entries no type of {t} satisfies. */
  lemma DeletedAssignable(u: Universe, m: map<Type, Value>, ks: seq<Type>, t: Type)
    requires forall k :: k in ks <==> k in m.Keys && AssignableTo(u, t, k)
    ensures (map k | k in m && k !in ks[..|ks|] :: m[k]) == Unsatisfiable(u, m, {t})
  {
    assert ks[..|ks|] == ks;
    forall k | k in m
      ensures Satisfiable(u, {t}, k) <==> AssignableTo(u, t, k)
    {
      if AssignableTo(u, t, k) {
        assert t in {t};
      }
    }
  }

  /** popFulfilledNamedValues(name, obj). */
  function PopNamed(s: State, name: string, obj: Value): (r: State)
    ensures r.namedValues.Keys == s.namedValues.Keys + {name}
    ensures forall n :: n in s.namedValues ==> r.namedValues[n] == s.namedValues[n]
    ensures name !in s.namedValues ==> r.namedValues[name] == obj
    ensures r.unfulfilledNamedValues.Keys == s.unfulfilledNamedValues.Keys - {name}
    ensures forall n :: n in r.unfulfilledNamedValues ==> r.unfulfilledNamedValues[n] == s.unfulfilledNamedValues[n]
    ensures r.unfulfilledUnnamedValues == s.unfulfilledUnnamedValues
    ensures r.unfulfilledUnnamedInterfaces == s.unfulfilledUnnamedInterfaces
    ensures r.unnamedValues == s.unnamedValues
  {
    s.(namedValues := PutIfAbsent(s.namedValues, name, obj),
       unfulfilledNamedValues := s.unfulfilledNamedValues - {name})
  }

  /**
   * popRemainedValues: every outstanding requirement that a known binding can
   * satisfy is dropped. What remains is satisfiable by no binding, and nothing
   * that no binding satisfies is dropped.
   */
  function Reconcile(u: Universe, s: State): (r: State)
    ensures r.namedValues == s.namedValues && r.unnamedValues == s.unnamedValues
    ensures forall t :: t in r.unfulfilledUnnamedValues ==>
      t in s.unfulfilledUnnamedValues && r.unfulfilledUnnamedValues[t] == s.unfulfilledUnnamedValues[t]
    ensures forall k :: k in r.unfulfilledUnnamedInterfaces ==>
      k in s.unfulfilledUnnamedInterfaces && r.unfulfilledUnnamedInterfaces[k] == s.unfulfilledUnnamedInterfaces[k]
    ensures forall n :: n in r.unfulfilledNamedValues ==>
      n in s.unfulfilledNamedValues && r.unfulfilledNamedValues[n] == s.unfulfilledNamedValues[n]
    ensures forall t :: t in s.unfulfilledUnnamedValues ==> (t in r.unfulfilledUnnamedValues <==> t !in s.unnamedValues)
    ensures forall k :: k in s.unfulfilledUnnamedInterfaces ==>
      (k in r.unfulfilledUnnamedInterfaces <==> forall t :: t in s.unnamedValues ==> !AssignableTo(u, t, k))
    ensures forall n :: n in s.unfulfilledNamedValues ==> (n in r.unfulfilledNamedValues <==> n !in s.namedValues)
  {
    DropNamed(DropUnnamed(u, s, s.unnamedValues.Keys), s.namedValues.Keys)
  }

  /** After reconciliation no outstanding requirement is satisfiable by a known binding, so a second one changes nothing. */
  lemma ReconcileSettles(u: Universe, s: State)
    ensures var r := Reconcile(u, s);
      && (forall t :: t in r.unfulfilledUnnamedValues ==> t !in r.unnamedValues)
      && (forall k, t :: k in r.unfulfilledUnnamedInterfaces && t in r.unnamedValues ==> !AssignableTo(u, t, k))
      && (forall n :: n in r.unfulfilledNamedValues ==> n !in r.namedValues)
      && Reconcile(u, r) == r
  {
    var r := Reconcile(u, s);
    assert Reconcile(u, r).unfulfilledUnnamedInterfaces == r.unfulfilledUnnamedInterfaces;
    assert Reconcile(u, r).unfulfilledUnnamedValues == r.unfulfilledUnnamedValues;
    assert Reconcile(u, r).unfulfilledNamedValues == r.unfulfilledNamedValues;
  }

  /** isAllFulfilled. */
  predicate AllFulfilled(s: State)
  {
    |s.unfulfilledNamedValues| == 0 && |s.unfulfilledUnnamedValues| == 0 && |s.unfulfilledUnnamedInterfaces| == 0
  }

  /** getUnfulfilledUnnamedValues: the interface requirements merged with the pointer ones. */
  function UnfulfilledUnnamed(s: State): map<Type, Value>
  {
    s.unfulfilledUnnamedInterfaces + s.unfulfilledUnnamedValues
  }

  /** Everything is fulfilled exactly when neither getter reports anything. */
  lemma AllFulfilledIffNothingReported(s: State)
    ensures AllFulfilled(s) <==> UnfulfilledUnnamed(s) == map[] && s.unfulfilledNamedValues == map[]
  {
    if UnfulfilledUnnamed(s) == map[] {
      assert s.unfulfilledUnnamedInterfaces.Keys <= UnfulfilledUnnamed(s).Keys;
      assert s.unfulfilledUnnamedValues.Keys <= UnfulfilledUnnamed(s).Keys;
    }
  }

  /** Popping a binding the checker already holds extends the set of types dropped so far by its type. */
  lemma PopBoundStep(u: Universe, s0: State, done: set<Type>, t: Type)
    requires Keyed(s0) && t in s0.unnamedValues
    ensures Keyed(DropUnnamed(u, s0, done))
    ensures PopUnnamed(u, DropUnnamed(u, s0, done), s0.unnamedValues[t]) == DropUnnamed(u, s0, done + {t})
  {
    var s := DropUnnamed(u, s0, done);
    var r := PopUnnamed(u, s, s0.unnamedValues[t]);
    var e := DropUnnamed(u, s0, done + {t});
    assert r.unnamedValues == e.unnamedValues;
    assert r.unfulfilledUnnamedValues == e.unfulfilledUnnamedValues;
    forall k | k in s0.unfulfilledUnnamedInterfaces
      ensures Satisfiable(u, done + {t}, k) <==> Satisfiable(u, done, k) || AssignableTo(u, t, k)
    {
      if AssignableTo(u, t, k) {
        assert t in done + {t};
      }
    }
    assert r.unfulfilledUnnamedInterfaces == e.unfulfilledUnnamedInterfaces;
  }

  /** Dropping for more types keeps fewer requirements. */
  lemma DropMoreKeepsLess(u: Universe, s0: State, done: set<Type>, t: Type)
    ensures DropUnnamed(u, s0, done + {t}).unfulfilledUnnamedInterfaces.Keys
      <= DropUnnamed(u, s0, done).unfulfilledUnnamedInterfaces.Keys
    ensures DropUnnamed(u, s0, done + {t}).unfulfilledUnnamedValues.Keys
      <= DropUnnamed(u, s0, done).unfulfilledUnnamedValues.Keys
  {
    forall k | k in s0.unfulfilledUnnamedInterfaces && Satisfiable(u, done, k)
      ensures Satisfiable(u, done + {t}, k)
    {
      var w :| w in done && AssignableTo(u, w, k);
      assert w in done + {t};
    }
  }

  /** With nothing outstanding, skipping a binding drops what popping it would. */
  lemma SkipWhenNothingOutstanding(u: Universe, s0: State, done: set<Type>, t: Type)
    requires DropUnnamed(u, s0, done).unfulfilledUnnamedInterfaces == map[]
    requires DropUnnamed(u, s0, done).unfulfilledUnnamedValues == map[]
    ensures DropUnnamed(u, s0, done) == DropUnnamed(u, s0, done + {t})
  {
    DropMoreKeepsLess(u, s0, done, t);
  }

  /** Popping a named binding the checker already holds extends the set of names dropped so far. */
  lemma PopNamedBoundStep(s1: State, done: set<string>, n: string)
    requires n in s1.namedValues
    ensures PopNamed(DropNamed(s1, done), n, s1.namedValues[n]) == DropNamed(s1, done + {n})
  {
    assert PutIfAbsent(s1.namedValues, n, s1.namedValues[n]) == s1.namedValues;
  }

  /** With no name outstanding, skipping a binding drops what popping it would. */
  lemma SkipWhenNoNameOutstanding(s1: State, done: set<string>, n: string)
    requires DropNamed(s1, done).unfulfilledNamedValues == map[]
    ensures DropNamed(s1, done) == DropNamed(s1, done + {n})
  {
    assert DropNamed(s1, done + {n}).unfulfilledNamedValues == map[];
  }

  class InjectChecker {
    const u: Universe
    var unfulfilledUnnamedValues: map<Type, Value>
    var unfulfilledUnnamedInterfaces: map<Type, Value>
    var unfulfilledNamedValues: map<string, Value>
    var namedValues: map<string, Value>
    var unnamedValues: map<Type, Value>

    function Snapshot(): State
      reads this
    {
      State(unfulfilledUnnamedValues, unfulfilledUnnamedInterfaces, unfulfilledNamedValues,
            namedValues, unnamedValues)
    }

    ghost predicate Valid()
      reads this
    {
      Keyed(Snapshot())
    }

    /** newInjectChecker. */
    constructor (u: Universe)
      ensures this.u == u && Valid() && Snapshot() == EMPTY
    {
      this.u := u;
      unfulfilledUnnamedValues := map[];
      unfulfilledUnnamedInterfaces := map[];
      unfulfilledNamedValues := map[];
      namedValues := map[];
      unnamedValues := map[];
    }

    method PushInjectedFields(obj: Value) returns (ok: bool)
      requires Valid()
      modifies this
      ensures Valid()
      ensures ok == PushOk(u, obj)
      ensures Snapshot() == Push(u, old(Snapshot()), obj)
    {
      if IsNilPointer(obj) {
        return false;
      }
      var t := Indirect(obj.ty);
      if !t.Struct? {
        return true;
      }
      var fs := FieldsOf(u, t);
      ghost var k := FirstWrongUnnamed(fs);
      var i := 0;
      while i < |fs|
        invariant 0 <= i <= k
        invariant Keyed(Snapshot())
        invariant RecordFields(Snapshot(), fs[i..k], obj) == RecordFields(old(Snapshot()), fs[..k], obj)
      {
        var field := fs[i];
        if field.tag.Some? {
          var inj := field.tag.value;
          if inj != "" {
            if inj !in unfulfilledNamedValues {
              unfulfilledNamedValues := unfulfilledNamedValues[inj := obj];
            }
          } else if field.ty.Interface? {
            if field.ty !in unfulfilledUnnamedInterfaces {
              unfulfilledUnnamedInterfaces := unfulfilledUnnamedInterfaces[field.ty := obj];
            }
          } else if field.ty.Ptr? {
            if field.ty !in unfulfilledUnnamedValues {
              unfulfilledUnnamedValues := unfulfilledUnnamedValues[field.ty := obj];
            }
          } else {
            assert i == k;
            return false;
          }
        }
        assert fs[i..k] == [fs[i]] + fs[i + 1..k];
        i := i + 1;
      }
      return true;
    }

    method PopFulfilledUnnamedValues(obj: Value)
      requires Valid()
      modifies this
      ensures Valid()
      ensures Snapshot() == PopUnnamed(u, old(Snapshot()), obj)
    {
      var t := obj.ty;
      if t !in unnamedValues {
        unnamedValues := unnamedValues[t := obj];
      }
      if t in unfulfilledUnnamedValues {
        unfulfilledUnnamedValues := unfulfilledUnnamedValues - {t};
      }
      assert unnamedValues == PutIfAbsent(old(unnamedValues), t, obj);
      assert unfulfilledUnnamedValues == old(unfulfilledUnnamedValues) - {t};
      var toDel: seq<Type> := [];
      var keys := unfulfilledUnnamedInterfaces.Keys;
      while keys != {}
        invariant keys <= unfulfilledUnnamedInterfaces.Keys
        invariant forall k :: k in toDel <==> k in unfulfilledUnnamedInterfaces.Keys - keys && AssignableTo(u, t, k)
        decreases keys
      {
        var k :| k in keys;
        if AssignableTo(u, t, k) {
          toDel := toDel + [k];
        }
        keys := keys - {k};
      }
      ghost var before := unfulfilledUnnamedInterfaces;
      ghost var mid := Snapshot();
      var i := 0;
      while i < |toDel|
        invariant 0 <= i <= |toDel|
        invariant Snapshot() == mid.(unfulfilledUnnamedInterfaces := unfulfilledUnnamedInterfaces)
        invariant unfulfilledUnnamedInterfaces == map k | k in before && k !in toDel[..i] :: before[k]
      {
        DeleteNext(before, toDel, i);
        unfulfilledUnnamedInterfaces := unfulfilledUnnamedInterfaces - {toDel[i]};
        i := i + 1;
      }
      DeletedAssignable(u, before, toDel, t);
    }

    method PopFulfilledNamedValues(name: string, obj: Value)
      requires Valid()
      modifies this
      ensures Valid()
      ensures Snapshot() == PopNamed(old(Snapshot()), name, obj)
    {
      if name !in namedValues {
        namedValues := namedValues[name := obj];
      }
      if name in unfulfilledNamedValues {
        unfulfilledNamedValues := unfulfilledNamedValues - {name};
      }
    }

    /**
     * popRemainedValues, to be called after all push and pop calls: every binding
     * is popped while a requirement of its kind is outstanding (a non-zero map
     * length is tested as a non-empty map). The map order of both loops is arbitrary.
     */
    method PopRemainedValues()
      requires Valid()
      modifies this
      ensures Valid()
      ensures Snapshot() == Reconcile(u, old(Snapshot()))
    {
      ghost var s0 := Snapshot();
      var keys := unnamedValues.Keys;
      ghost var done: set<Type> := {};
      while keys != {}
        invariant keys !! done && keys + done == s0.unnamedValues.Keys
        invariant Snapshot() == DropUnnamed(u, s0, done)
        decreases keys
      {
        var t :| t in keys;
        if unfulfilledUnnamedInterfaces != map[] || unfulfilledUnnamedValues != map[] {
          PopBoundStep(u, s0, done, t);
          PopFulfilledUnnamedValues(unnamedValues[t]);
        } else {
          SkipWhenNothingOutstanding(u, s0, done, t);
        }
        keys := keys - {t};
        done := done + {t};
      }
      ghost var s1 := Snapshot();
      var names := namedValues.Keys;
      ghost var named: set<string> := {};
      while names != {}
        invariant names !! named && names + named == s1.namedValues.Keys
        invariant Snapshot() == DropNamed(s1, named)
        decreases names
      {
        var n :| n in names;
        if unfulfilledNamedValues != map[] {
          PopNamedBoundStep(s1, named, n);
          PopFulfilledNamedValues(n, namedValues[n]);
        } else {
          SkipWhenNoNameOutstanding(s1, named, n);
        }
        names := names - {n};
        named := named + {n};
      }
    }

    /** getUnfulfilledUnnamedValues: copies the interface requirements, then the pointer ones. */
    method GetUnfulfilledUnnamedValues() returns (ret: map<Type, Value>)
      ensures ret.Keys == unfulfilledUnnamedInterfaces.Keys + unfulfilledUnnamedValues.Keys
      ensures forall k :: k in ret ==>
        ret[k] == if k in unfulfilledUnnamedValues then unfulfilledUnnamedValues[k] else unfulfilledUnnamedInterfaces[k]
    {
      ret := map[];
      var keys := unfulfilledUnnamedInterfaces.Keys;
      while keys != {}
        invariant keys <= unfulfilledUnnamedInterfaces.Keys
        invariant ret.Keys == unfulfilledUnnamedInterfaces.Keys - keys
        invariant forall k :: k in ret ==> ret[k] == unfulfilledUnnamedInterfaces[k]
        decreases keys
      {
        var k :| k in keys;
        ret := ret[k := unfulfilledUnnamedInterfaces[k]];
        keys := keys - {k};
      }
      keys := unfulfilledUnnamedValues.Keys;
      while keys != {}
        invariant keys <= unfulfilledUnnamedValues.Keys
        invariant ret.Keys == unfulfilledUnnamedInterfaces.Keys + (unfulfilledUnnamedValues.Keys - keys)
        invariant forall k :: k in ret ==>
          ret[k] == if k in unfulfilledUnnamedValues.Keys - keys then unfulfilledUnnamedValues[k] else unfulfilledUnnamedInterfaces[k]
        decreases keys
      {
        var k :| k in keys;
        ret := ret[k := unfulfilledUnnamedValues[k]];
        keys := keys - {k};
      }
    }

    /** getUnfulfilledNamedValues. */
    function GetUnfulfilledNamedValues(): (r: map<string, Value>)
      reads this
      ensures r.Keys == Snapshot().unfulfilledNamedValues.Keys
    {
      unfulfilledNamedValues
    }

    /**
     * isAllFulfilled: no named, unnamed-pointer or unnamed-interface
     * requirement is outstanding, which is AllFulfilled of the snapshot;
     * AllFulfilledIffNothingReported ties that to the two reports Populate
     * prints when the gate fails.
     */
    predicate IsAllFulfilled()
      reads this
      ensures IsAllFulfilled() <==> AllFulfilled(Snapshot())
    {
      |unfulfilledNamedValues| == 0 && |unfulfilledUnnamedValues| == 0 && |unfulfilledUnnamedInterfaces| == 0
    }
  }

  /** A struct A with an unnamed *Info field and a Stringer field named "desc"; *ADesc implements Stringer. */
  const SAMPLE: Universe := Universe(
    map["A" := [FieldDecl("Info", Ptr(Struct("Info")), Some("")),
                FieldDecl("Desc", Interface("Stringer"), Some("desc"))],
        "Info" := [FieldDecl("Name", Basic("string"), None)],
        "ADesc" := []],
    {(Ptr(Struct("ADesc")), Interface("Stringer"))}, {}, {})

  /** One round for an unnamed object: pop it, push its fields, reconcile. */
  function RoundUnnamed(u: Universe, s: State, obj: Value): State
  {
    Reconcile(u, Push(u, PopUnnamed(u, s, obj), obj))
  }

  /** One round for a named object. */
  function RoundNamed(u: Universe, s: State, name: string, obj: Value): State
  {
    Reconcile(u, Push(u, PopNamed(s, name, obj), obj))
  }

  const SAMPLE_A := Value(1, Ptr(Struct("A")))
  const SAMPLE_INFO := Value(2, Ptr(Struct("Info")))
  const SAMPLE_DESC := Value(3, Ptr(Struct("ADesc")))

  /** The state after the round for A. */
  const SAMPLE_AFTER_A := State(map[Ptr(Struct("Info")) := SAMPLE_A], map[], map["desc" := SAMPLE_A], map[],
                                map[SAMPLE_A.ty := SAMPLE_A])

  /** The state after the round for *Info. */
  const SAMPLE_AFTER_INFO := State(map[], map[], map["desc" := SAMPLE_A], map[],
                                   map[SAMPLE_A.ty := SAMPLE_A, SAMPLE_INFO.ty := SAMPLE_INFO])

  /** Popping A from the empty state only binds it under its own type. */
  lemma SamplePopA()
    ensures PopUnnamed(SAMPLE, EMPTY, SAMPLE_A) == State(map[], map[], map[], map[], map[SAMPLE_A.ty := SAMPLE_A])
  {
    var p := PopUnnamed(SAMPLE, EMPTY, SAMPLE_A);
    assert p.unfulfilledUnnamedInterfaces == map[];
    assert p.unnamedValues == map[SAMPLE_A.ty := SAMPLE_A];
  }

  /** Pushing A records its unnamed *Info field and its "desc" field, both in full. */
  lemma SamplePushA()
    ensures Push(SAMPLE, State(map[], map[], map[], map[], map[SAMPLE_A.ty := SAMPLE_A]), SAMPLE_A) == SAMPLE_AFTER_A
  {
    var fs := DeclaredFields(SAMPLE, SAMPLE_A);
    assert !IsNilPointer(SAMPLE_A);
    assert FirstWrongUnnamed(fs[1..]) == 1;
    assert Scanned(SAMPLE, SAMPLE_A) == fs;
  }

  /** Neither requirement of A is satisfiable by A itself, so reconciling keeps both. */
  lemma SampleReconcileA()
    ensures Reconcile(SAMPLE, SAMPLE_AFTER_A) == SAMPLE_AFTER_A
  {
    var r := Reconcile(SAMPLE, SAMPLE_AFTER_A);
    assert r.unfulfilledNamedValues == SAMPLE_AFTER_A.unfulfilledNamedValues;
    assert r.unfulfilledUnnamedValues == SAMPLE_AFTER_A.unfulfilledUnnamedValues;
  }

  /** The checker's test, first round: after A alone both its *Info and its "desc" requirement are reported. */
  lemma SampleRoundA()
    ensures RoundUnnamed(SAMPLE, EMPTY, SAMPLE_A) == SAMPLE_AFTER_A
    ensures !AllFulfilled(SAMPLE_AFTER_A)
    ensures SAMPLE_AFTER_A.unfulfilledNamedValues != map[] && UnfulfilledUnnamed(SAMPLE_AFTER_A) != map[]
  {
    assert Ptr(Struct("Info")) in UnfulfilledUnnamed(SAMPLE_AFTER_A);
    SamplePopA();
    SamplePushA();
    SampleReconcileA();
  }

  /** Popping *Info after round A drops the unnamed requirement it fulfils. */
  lemma SamplePopInfo()
    ensures PopUnnamed(SAMPLE, SAMPLE_AFTER_A, SAMPLE_INFO) == SAMPLE_AFTER_INFO
  {
    var p := PopUnnamed(SAMPLE, SAMPLE_AFTER_A, SAMPLE_INFO);
    assert p.unfulfilledUnnamedValues == map[];
    assert p.unfulfilledUnnamedInterfaces == map[];
    assert p.unnamedValues == SAMPLE_AFTER_INFO.unnamedValues;
  }

  /** *Info declares no injected field, so pushing it changes nothing. */
  lemma SamplePushInfo()
    ensures Push(SAMPLE, SAMPLE_AFTER_INFO, SAMPLE_INFO) == SAMPLE_AFTER_INFO
  {
    var fs := DeclaredFields(SAMPLE, SAMPLE_INFO);
    assert !IsNilPointer(SAMPLE_INFO);
    assert FirstWrongUnnamed(fs) == 1;
    assert Scanned(SAMPLE, SAMPLE_INFO) == fs;
    assert RecordFields(SAMPLE_AFTER_INFO, fs, SAMPLE_INFO) == RecordFields(SAMPLE_AFTER_INFO, fs[1..], SAMPLE_INFO);
  }

  /** No binding is named "desc" yet, so reconciling keeps that requirement. */
  lemma SampleReconcileInfo()
    ensures Reconcile(SAMPLE, SAMPLE_AFTER_INFO) == SAMPLE_AFTER_INFO
  {
    var r := Reconcile(SAMPLE, SAMPLE_AFTER_INFO);
    assert r.unfulfilledNamedValues == SAMPLE_AFTER_INFO.unfulfilledNamedValues;
  }

  /** Second round: *Info fulfils the unnamed requirement, and only "desc" is reported. */
  lemma SampleRoundInfo()
    ensures RoundUnnamed(SAMPLE, SAMPLE_AFTER_A, SAMPLE_INFO) == SAMPLE_AFTER_INFO
    ensures !AllFulfilled(SAMPLE_AFTER_INFO)
    ensures SAMPLE_AFTER_INFO.unfulfilledNamedValues != map[] && UnfulfilledUnnamed(SAMPLE_AFTER_INFO) == map[]
  {
    assert "desc" in SAMPLE_AFTER_INFO.unfulfilledNamedValues;
    SamplePopInfo();
    SamplePushInfo();
    SampleReconcileInfo();
  }

  /** Third round: *ADesc provided as "desc" fulfils everything. */
  lemma SampleRoundDesc()
    ensures AllFulfilled(RoundNamed(SAMPLE, SAMPLE_AFTER_INFO, "desc", SAMPLE_DESC))
  {
    var p := PopNamed(SAMPLE_AFTER_INFO, "desc", SAMPLE_DESC);
    assert p.unfulfilledNamedValues == map[];
    assert DeclaredFields(SAMPLE, SAMPLE_DESC) == [];
    assert Push(SAMPLE, p, SAMPLE_DESC) == p;
  }
}
