/**
 * The object graph (objectGraph): one node per provided value, kept in
 * pending or fulfilled maps, named or unnamed, populated depth-first, each
 * completed node scheduled once for its Init and Close calls.
 */
module Graph {
  import opened Types
  import opened InjectObjects
  import opened Schedule
  import opened GraphInvariants

  const MAX_CALL_DEPTH: int := 1048576

  /** What remains of the depth budget: populateObject recurses only while depth is at most MAX_CALL_DEPTH. */
  function Fuel(depth: int): nat
  {
    if depth <= MAX_CALL_DEPTH then MAX_CALL_DEPTH + 1 - depth else 0
  }

  /** The error kinds populateObject reports. */
  predicate PopulateFailure(e: Error)
  {
    e.CallStackOverflow? || e.NoMatchingObject? || e.FieldSatisfied? || e.NotAssignable?
  }

  class ObjectGraph {
    const u: Universe
    /** The node table: every node created so far, under its identity (the injectObject pointer). */
    var objects: map<nat, InjectObject>
    /** The identity the next node receives. */
    var nextObject: nat
    var unnamedObjects: map<Type, nat>
    var namedObjects: map<string, nat>
    var fulfilledUnnamedObjects: map<Type, nat>
    var fulfilledNamedObjects: map<string, nat>
    var addedObjectsPtr: set<nat>
    var initObjects: seq<Value>
    var closeObjects: seq<Value>
    /** The nodes addObjectCall flagged, in the order it flagged them. */
    ghost var order: seq<nat>
    /** The values of the nodes of order. */
    ghost var scheduled: seq<Value>

    /** addedObjectsPtr and the Init and Close lists are what addObjectCall made of the scheduled values. */
    ghost predicate CallsValid()
      reads this`scheduled, this`addedObjectsPtr, this`initObjects, this`closeObjects
    {
      CallsOk(u, scheduled, addedObjectsPtr, initObjects, closeObjects)
    }

    ghost predicate Valid()
      reads this`objects, this`nextObject, this`unnamedObjects, this`namedObjects,
        this`fulfilledUnnamedObjects, this`fulfilledNamedObjects, this`order, this`scheduled,
        this`addedObjectsPtr, this`initObjects, this`closeObjects
    {
      GraphOk(u, objects, nextObject, unnamedObjects, namedObjects, fulfilledUnnamedObjects, fulfilledNamedObjects,
        order, scheduled, addedObjectsPtr, initObjects, closeObjects)
    }

    /** Every node filed in a map is scheduled, hence complete. */
    ghost predicate AllScheduled()
      reads this`objects, this`unnamedObjects, this`namedObjects, this`fulfilledUnnamedObjects, this`fulfilledNamedObjects
    {
      && ScheduledExcept(objects, unnamedObjects, {}) && ScheduledExcept(objects, namedObjects, {})
      && ScheduledExcept(objects, fulfilledUnnamedObjects, {}) && ScheduledExcept(objects, fulfilledNamedObjects, {})
    }

    /** newObjectGraph(): every map, set and list empty. */
    constructor (u: Universe)
      ensures Valid() && this.u == u
      ensures objects == map[] && unnamedObjects == map[] && namedObjects == map[]
      ensures fulfilledUnnamedObjects == map[] && fulfilledNamedObjects == map[]
      ensures addedObjectsPtr == {} && initObjects == [] && closeObjects == [] && order == []
    {
      this.u := u;
      objects := map[];
      nextObject := 0;
      unnamedObjects := map[];
      namedObjects := map[];
      fulfilledUnnamedObjects := map[];
      fulfilledNamedObjects := map[];
      addedObjectsPtr := {};
      initObjects := [];
      closeObjects := [];
      order := [];
      scheduled := [];
    }

    /**
     * The second half of addObjectCall, for the value v of the node just
     * flagged: v joins the schedule; a pointer whose identity was added before
     * stops there; otherwise the identity is recorded and v joins the Init and
     * Close lists it implements.
     */
    method AppendCalls(v: Value)
      requires CallsValid()
      modifies this`scheduled, this`addedObjectsPtr, this`initObjects, this`closeObjects
      ensures CallsValid() && scheduled == old(scheduled) + [v]
    {
      CallsAppend(scheduled, v, addedObjectsPtr, initObjects, closeObjects, u);
      scheduled := scheduled + [v];
      if v.ty.Ptr? {
        if v.id in addedObjectsPtr {
          return;
        }
        addedObjectsPtr := addedObjectsPtr + {v.id};
      }
      if v.ty in u.initTypes {
        initObjects := initObjects + [v];
      }
      if v.ty in u.closeTypes {
        closeObjects := closeObjects + [v];
      }
    }

    /** Flags and schedules a complete, unflagged node and appends its value to the calls it implements. */
    method ScheduleNode(x: nat)
      requires Valid() && x in objects && objects[x].isComplete && !objects[x].isMethodCallAdded
      modifies this`objects, this`order, this`scheduled, this`addedObjectsPtr, this`initObjects, this`closeObjects
      ensures Valid()
      ensures objects == old(objects)[x := old(objects)[x].(isMethodCallAdded := true)]
      ensures order == old(order) + [x] && scheduled == old(scheduled) + [old(objects)[x].value]
    {
      var o := objects[x];
      ScheduleStep(objects, order, scheduled, x);
      MapsUpdate(objects, nextObject, unnamedObjects, namedObjects, fulfilledUnnamedObjects, fulfilledNamedObjects,
        x, o.(isMethodCallAdded := true));
      AppendCalls(o.value);
      objects := objects[x := o.(isMethodCallAdded := true)];
      order := order + [x];
    }

    /**
     * addObjectCall(x) for a complete node: a flagged node is left alone;
     * otherwise it is flagged and scheduled, and its value is appended to the
     * Init and Close lists it implements unless the value is a pointer whose
     * identity was added before.
     */
    method AddObjectCall(x: nat)
      requires Valid() && x in objects && objects[x].isComplete
      modifies this`objects, this`order, this`scheduled, this`addedObjectsPtr, this`initObjects, this`closeObjects
      ensures Valid()
      ensures objects == old(objects)[x := old(objects)[x].(isMethodCallAdded := true)]
      ensures order == if old(objects)[x].isMethodCallAdded then old(order) else old(order) + [x]
      ensures scheduled == if old(objects)[x].isMethodCallAdded then old(scheduled) else old(scheduled) + [old(objects)[x].value]
    {
      if objects[x].isMethodCallAdded {
        assert objects[x].(isMethodCallAdded := true) == objects[x];
      } else {
        ScheduleNode(x);
      }
    }

    /** Enters a new node into the table under a fresh identity. */
    method AddNode(o: InjectObject) returns (x: nat)
      requires Valid() && ObjectValid(o) && !o.isMethodCallAdded && InjectedAmong(o, [])
      modifies this`objects, this`nextObject
      ensures Valid()
      ensures x == old(nextObject) && x !in old(objects)
      ensures objects == old(objects)[x := o] && nextObject == x + 1
    {
      x := nextObject;
      MapsAddFresh(objects, nextObject, unnamedObjects, namedObjects, fulfilledUnnamedObjects, fulfilledNamedObjects, o);
      AddFresh(objects, order, scheduled, x, o);
      objects := objects[x := o];
      nextObject := nextObject + 1;
    }

    /** unnamedObjects[t] := x, for a node whose value has type t. */
    method FileUnnamed(t: Type, x: nat)
      requires Valid() && x in objects && objects[x].value.ty == t
      modifies this`unnamedObjects
      ensures Valid() && unnamedObjects == old(unnamedObjects)[t := x]
    {
      unnamedObjects := unnamedObjects[t := x];
    }

    /** fulfilledUnnamedObjects[t] := x, for a flagged node whose value has type t. */
    method FileFulfilledUnnamed(t: Type, x: nat)
      requires Valid() && x in objects && objects[x].value.ty == t && objects[x].isMethodCallAdded
      modifies this`fulfilledUnnamedObjects
      ensures Valid() && fulfilledUnnamedObjects == old(fulfilledUnnamedObjects)[t := x]
    {
      fulfilledUnnamedObjects := fulfilledUnnamedObjects[t := x];
    }

    /** namedObjects[name] := x. */
    method FileNamed(name: string, x: nat)
      requires Valid() && x in objects
      modifies this`namedObjects
      ensures Valid() && namedObjects == old(namedObjects)[name := x]
    {
      namedObjects := namedObjects[name := x];
    }

    /** fulfilledNamedObjects[name] := x, for a flagged node. */
    method FileFulfilledNamed(name: string, x: nat)
      requires Valid() && x in objects && objects[x].isMethodCallAdded
      modifies this`fulfilledNamedObjects
      ensures Valid() && fulfilledNamedObjects == old(fulfilledNamedObjects)[name := x]
    {
      fulfilledNamedObjects := fulfilledNamedObjects[name := x];
    }

    /**
     * The filing step of ProvideObj for a new node o: entered under a fresh
     * identity x and filed under its value's type t, in the fulfilled map and
     * scheduled when it is complete, in the pending map otherwise.
     */
    method AdmitUnnamed(o: InjectObject) returns (x: nat)
      requires Valid() && ObjectValid(o) && !o.isMethodCallAdded && InjectedAmong(o, [])
      modifies this`objects, this`nextObject, this`order, this`scheduled, this`addedObjectsPtr,
        this`initObjects, this`closeObjects, this`unnamedObjects, this`fulfilledUnnamedObjects
      ensures Valid()
      ensures x == old(nextObject) && x !in old(objects) && nextObject == x + 1
      ensures objects == old(objects)[x := o.(isMethodCallAdded := o.isComplete)]
      ensures o.isComplete ==>
        && fulfilledUnnamedObjects == old(fulfilledUnnamedObjects)[o.value.ty := x]
        && unnamedObjects == old(unnamedObjects) && order == old(order) + [x]
      ensures !o.isComplete ==>
        && unnamedObjects == old(unnamedObjects)[o.value.ty := x]
        && fulfilledUnnamedObjects == old(fulfilledUnnamedObjects) && order == old(order)
    {
      x := AddNode(o);
      if o.isComplete {
        // addObjectCall reads no map, so scheduling before the insertion is the same step
        AddObjectCall(x);
        UpdateTwice(old(objects), x, o, o.(isMethodCallAdded := true));
        FileFulfilledUnnamed(o.value.ty, x);
      } else {
        assert o.(isMethodCallAdded := o.isComplete) == o;
        FileUnnamed(o.value.ty, x);
      }
    }

    /** The filing step of ProvideNamedObj for a new node o: as AdmitUnnamed, filed under name. */
    method AdmitNamed(name: string, o: InjectObject) returns (x: nat)
      requires Valid() && ObjectValid(o) && !o.isMethodCallAdded && InjectedAmong(o, [])
      modifies this`objects, this`nextObject, this`order, this`scheduled, this`addedObjectsPtr,
        this`initObjects, this`closeObjects, this`namedObjects, this`fulfilledNamedObjects
      ensures Valid()
      ensures x == old(nextObject) && x !in old(objects) && nextObject == x + 1
      ensures objects == old(objects)[x := o.(isMethodCallAdded := o.isComplete)]
      ensures o.isComplete ==>
        && fulfilledNamedObjects == old(fulfilledNamedObjects)[name := x]
        && namedObjects == old(namedObjects) && order == old(order) + [x]
      ensures !o.isComplete ==>
        && namedObjects == old(namedObjects)[name := x]
        && fulfilledNamedObjects == old(fulfilledNamedObjects) && order == old(order)
    {
      x := AddNode(o);
      if o.isComplete {
        AddObjectCall(x);
        UpdateTwice(old(objects), x, o, o.(isMethodCallAdded := true));
        FileFulfilledNamed(name, x);
      } else {
        assert o.(isMethodCallAdded := o.isComplete) == o;
        FileNamed(name, x);
      }
    }

    /**
     * ProvideObj(v): a node for v, filed under v's type: a complete node in the
     * fulfilled map and scheduled at once, a pending one in the pending map. A
     * later node replaces an earlier one of the same type. A scanning failure is
     * returned and changes nothing.
     */
    method ProvideObj(v: Value) returns (err: Option<Error>)
      requires Valid()
      modifies this`objects, this`nextObject, this`order, this`scheduled, this`addedObjectsPtr,
        this`initObjects, this`closeObjects, this`unnamedObjects, this`fulfilledUnnamedObjects
      ensures Valid()
      ensures err.None? <==> Scan(u, v).Success?
      ensures err.Some? ==> err.value == Scan(u, v).error && objects == old(objects) && order == old(order)
      ensures err.Some? ==> unnamedObjects == old(unnamedObjects) && fulfilledUnnamedObjects == old(fulfilledUnnamedObjects)
      ensures err.None? ==> ProvidedNode(v, old(nextObject), old(objects), old(order))
      ensures err.None? && Scan(u, v).value == [] ==>
        && fulfilledUnnamedObjects == old(fulfilledUnnamedObjects)[v.ty := old(nextObject)]
        && unnamedObjects == old(unnamedObjects)
      ensures err.None? && Scan(u, v).value != [] ==>
        && unnamedObjects == old(unnamedObjects)[v.ty := old(nextObject)]
        && fulfilledUnnamedObjects == old(fulfilledUnnamedObjects)
    {
      var o, e := NewInjectObject(u, v);
      if e.Some? {
        return e;
      }
      var x := AdmitUnnamed(o);
      return None;
    }

    /** ProvideNamedObj(name, v): as ProvideObj, filed under name in the named maps. */
    method ProvideNamedObj(name: string, v: Value) returns (err: Option<Error>)
      requires Valid()
      modifies this`objects, this`nextObject, this`order, this`scheduled, this`addedObjectsPtr,
        this`initObjects, this`closeObjects, this`namedObjects, this`fulfilledNamedObjects
      ensures Valid()
      ensures err.None? <==> Scan(u, v).Success?
      ensures err.Some? ==> err.value == Scan(u, v).error && objects == old(objects) && order == old(order)
      ensures err.Some? ==> namedObjects == old(namedObjects) && fulfilledNamedObjects == old(fulfilledNamedObjects)
      ensures err.None? ==> ProvidedNode(v, old(nextObject), old(objects), old(order))
      ensures err.None? && Scan(u, v).value == [] ==>
        && fulfilledNamedObjects == old(fulfilledNamedObjects)[name := old(nextObject)]
        && namedObjects == old(namedObjects)
      ensures err.None? && Scan(u, v).value != [] ==>
        && namedObjects == old(namedObjects)[name := old(nextObject)]
        && fulfilledNamedObjects == old(fulfilledNamedObjects)
    {
      var o, e := NewInjectObject(u, v);
      if e.Some? {
        return e;
      }
      var x := AdmitNamed(name, o);
      return None;
    }

    /**
     * The table after providing v as node x: x holds v with its scanned
     * fields, flagged and scheduled exactly when it has none, every other node
     * unchanged.
     */
    ghost predicate ProvidedNode(v: Value, x: nat, was: map<nat, InjectObject>, wasOrder: seq<nat>)
      reads this`objects, this`nextObject, this`order
      requires Scan(u, v).Success?
    {
      var fs := Scan(u, v).value;
      && nextObject == x + 1 && x !in was
      && objects == was[x := InjectObject(v, fs, |fs|, fs == [], fs == [])]
      && order == if fs == [] then wasOrder + [x] else wasOrder
    }

    /** The four maps nodes are filed in. */
    ghost function Filed(): Files
      reads this`unnamedObjects, this`namedObjects, this`fulfilledUnnamedObjects, this`fulfilledNamedObjects
    {
      Files(unnamedObjects, namedObjects, fulfilledUnnamedObjects, fulfilledNamedObjects)
    }

    /**
     * findUnnamedObjectByType(tp): the exact type in the fulfilled map, then
     * in the pending map, then the first assignable type met walking the
     * fulfilled map, then the pending map. The node found holds a value
     * assignable to tp.
     */
    method FindUnnamedObjectByType(tp: Type) returns (r: Option<nat>)
      requires Valid()
      ensures UnnamedChoice(u, Filed(), tp, r)
      ensures r.Some? ==> r.value in objects && AssignableTo(u, objects[r.value].value.ty, tp)
    {
      if tp in fulfilledUnnamedObjects {
        return Some(fulfilledUnnamedObjects[tp]);
      }
      if tp in unnamedObjects {
        return Some(unnamedObjects[tp]);
      }
      var keys := fulfilledUnnamedObjects.Keys;
      while keys != {}
        invariant keys <= fulfilledUnnamedObjects.Keys
        invariant forall t | t in fulfilledUnnamedObjects && t !in keys :: !AssignableTo(u, t, tp)
        decreases keys
      {
        var t :| t in keys;
        if AssignableTo(u, t, tp) {
          return Some(fulfilledUnnamedObjects[t]);
        }
        keys := keys - {t};
      }
      keys := unnamedObjects.Keys;
      while keys != {}
        invariant keys <= unnamedObjects.Keys
        invariant forall t | t in unnamedObjects && t !in keys :: !AssignableTo(u, t, tp)
        decreases keys
      {
        var t :| t in keys;
        if AssignableTo(u, t, tp) {
          return Some(unnamedObjects[t]);
        }
        keys := keys - {t};
      }
      return None;
    }

    /**
     * findMatchingObject(f): nothing for a satisfied field; for a named tag
     * the fulfilled node of that name, else the pending one, else nothing;
     * for an unnamed tag the choice of findUnnamedObjectByType, whose node
     * holds a value assignable to the field.
     */
    method FindMatchingObject(f: InjectField) returns (r: Option<nat>)
      requires Valid()
      ensures f.isSatisfied ==> r.None?
      ensures !f.isSatisfied ==> Chosen(u, Filed(), f, r)
      ensures r.Some? ==> r.value in objects
      ensures r.Some? && f.tagName == "" ==> AssignableTo(u, objects[r.value].value.ty, f.fieldType)
    {
      if f.isSatisfied {
        return None;
      }
      if f.tagName != "" {
        if f.tagName in fulfilledNamedObjects {
          return Some(fulfilledNamedObjects[f.tagName]);
        }
        if f.tagName in namedObjects {
          return Some(namedObjects[f.tagName]);
        }
        return None;
      }
      r := FindUnnamedObjectByType(f.fieldType);
    }

    /**
     * SetField on field i of node x with the value of the scheduled node y,
     * the changed node stored back under x.
     */
    method FillField(x: nat, i: nat, y: nat) returns (err: Option<Error>)
      requires Valid() && x in objects && y in objects && objects[y].isMethodCallAdded && i < |objects[x].fields|
      modifies this`objects
      ensures Valid() && Grows(old(objects), objects)
      ensures err.None? <==> SetField(u, old(objects)[x], old(objects)[y].value, i).Success?
      ensures err.Some? ==> err.value == SetField(u, old(objects)[x], old(objects)[y].value, i).error && objects == old(objects)
      ensures err.None? ==> objects == old(objects)[x := SetField(u, old(objects)[x], old(objects)[y].value, i).value]
      ensures Chosen(u, Filed(), old(objects)[x].fields[i], Some(y)) ==> WiredSince(u, Filed(), old(objects), objects)
    {
      var r := SetField(u, objects[x], objects[y].value, i);
      if r.Failure? {
        WiredSinceRefl(u, Filed(), objects);
        return Some(r.error);
      }
      if Chosen(u, Filed(), objects[x].fields[i], Some(y)) {
        WiredFill(u, Filed(), objects, x, i, y);
      }
      FillStep(u, objects, order, scheduled, x, i, y);
      MapsUpdate(objects, nextObject, unnamedObjects, namedObjects, fulfilledUnnamedObjects, fulfilledNamedObjects, x, r.value);
      SetFieldGrows(u, objects[x], objects[y].value, i);
      GrowsUpdate(objects, x, r.value);
      objects := objects[x := r.value];
      return None;
    }

    /**
     * populateObject(x, depth): past the depth limit the call stack overflows;
     * otherwise each field of an incomplete node is populated in turn, one
     * level deeper per field, after which the node is complete and scheduled.
     * Nodes only grow, and a failure is one of the panics population raises.
     */
    method PopulateObject(x: nat, depth: int) returns (err: Option<Error>)
      requires Valid() && x in objects
      modifies this`objects, this`order, this`scheduled, this`addedObjectsPtr, this`initObjects, this`closeObjects
      decreases Fuel(depth), 0
      ensures Valid() && WiredSince(u, Filed(), old(objects), objects)
      ensures err.None? ==> objects[x].isComplete && objects[x].isMethodCallAdded
      ensures err.None? ==> forall k | 0 <= k < |old(objects)[x].fields| && !old(objects)[x].fields[k].isSatisfied ::
                              Wired(u, Filed(), objects, objects[x].fields[k])
      ensures err.Some? ==> PopulateFailure(err.value)
      ensures depth > MAX_CALL_DEPTH ==> err == Some(CallStackOverflow(old(objects)[x].value, depth))
      ensures depth <= MAX_CALL_DEPTH && old(objects)[x].isComplete ==> err.None?
    {
      WiredSinceRefl(u, Filed(), objects);
      if depth > MAX_CALL_DEPTH {
        return Some(CallStackOverflow(objects[x].value, depth));
      }
      assert NodeOk(objects, order, scheduled, x);
      var fields := UnfulfilledFields(objects[x]);
      ghost var start := objects;
      var d := depth;
      var i := 0;
      while i < |fields|
        invariant 0 <= i <= |fields| && depth <= d
        invariant Valid() && x in objects && WiredSince(u, Filed(), start, objects)
        invariant fields == [] || |fields| == |objects[x].fields|
        invariant SatisfiedUpTo(objects[x], if fields == [] then |objects[x].fields| else i)
      {
        ghost var before := objects;
        d := d + 1;
        ghost var m;
        err, m := PopulateField(x, i, d);
        WiredSinceTrans(u, Filed(), start, before, objects);
        if err.Some? {
          return;
        }
        GrowsNode(before, objects, x);
        SatisfiedNext(before[x], objects[x], i);
        i := i + 1;
      }
      CompleteObject(x, start);
      return None;
    }

    /**
     * The end of populateObject: with every field of node x satisfied the
     * node is complete, so the "not complete" panic is out of reach, and it
     * is scheduled; each field unsatisfied in start is then wired.
     */
    method CompleteObject(x: nat, ghost start: map<nat, InjectObject>)
      requires Valid() && x in start && x in objects && WiredSince(u, Filed(), start, objects)
      requires SatisfiedUpTo(objects[x], |objects[x].fields|)
      modifies this`objects, this`order, this`scheduled, this`addedObjectsPtr, this`initObjects, this`closeObjects
      ensures Valid() && WiredSince(u, Filed(), start, objects)
      ensures objects[x].isComplete && objects[x].isMethodCallAdded
      ensures forall k | 0 <= k < |start[x].fields| && !start[x].fields[k].isSatisfied ::
                Wired(u, Filed(), objects, objects[x].fields[k])
    {
      ghost var fl := Filed();
      ghost var before := objects;
      assert NodeOk(objects, order, scheduled, x);
      CompleteWhenSatisfied(objects[x]);
      AddObjectCall(x);
      WiredSinceFlag(u, fl, before, x);
      WiredSinceTrans(u, fl, start, before, objects);
      assert objects[x].fields == before[x].fields;
      WiredFields(u, fl, start, objects, x);
    }

    /**
     * One turn of populateObject's loop, for field i of node x at depth d:
     * findMatchingObject chooses the node m; no match is an error; otherwise
     * m is populated and, complete, its value is injected into the field.
     */
    method PopulateField(x: nat, i: nat, d: int) returns (err: Option<Error>, ghost m: Option<nat>)
      requires Valid() && x in objects && i < |objects[x].fields|
      modifies this`objects, this`order, this`scheduled, this`addedObjectsPtr, this`initObjects, this`closeObjects
      decreases Fuel(d), 1
      ensures Valid() && WiredSince(u, Filed(), old(objects), objects)
      ensures old(objects)[x].fields[i].isSatisfied ==> m.None?
      ensures !old(objects)[x].fields[i].isSatisfied ==> Chosen(u, Filed(), old(objects)[x].fields[i], m)
      ensures m.None? ==> err == Some(NoMatchingObject(old(objects)[x].fields[i].fieldType, old(objects)[x].value))
      ensures err.None? ==> m.Some? && m.value in objects && objects[x].fields[i].isSatisfied
                            && objects[x].fields[i].injected == Some(objects[m.value].value)
      ensures err.Some? ==> PopulateFailure(err.value)
    {
      ghost var fl := Filed();
      var field := objects[x].fields[i];
      var r := FindMatchingObject(field);
      m := r;
      if r.None? {
        WiredSinceRefl(u, fl, objects);
        return Some(NoMatchingObject(field.fieldType, objects[x].value)), m;
      }
      err := PopulateObject(r.value, d);
      if err.Some? {
        return;
      }
      if objects[r.value].isComplete {
        ghost var mid := objects;
        ChosenGrows(u, fl, old(objects), mid, x, i, m);
        err := FillField(x, i, r.value);
        WiredSinceTrans(u, fl, old(objects), mid, objects);
      }
    }

    /** populateNamedObjects(): populates every pending named node; afterwards each is scheduled. */
    method PopulateNamedObjects() returns (err: Option<Error>)
      requires Valid()
      modifies this`objects, this`order, this`scheduled, this`addedObjectsPtr, this`initObjects, this`closeObjects
      ensures Valid() && WiredSince(u, Filed(), old(objects), objects)
      ensures err.Some? ==> PopulateFailure(err.value)
      ensures err.None? ==> ScheduledExcept(objects, namedObjects, {})
    {
      ghost var fl := Filed();
      WiredSinceRefl(u, fl, objects);
      var names := namedObjects.Keys;
      while names != {}
        invariant Valid() && names <= namedObjects.Keys
        invariant WiredSince(u, fl, old(objects), objects)
        invariant ScheduledExcept(objects, namedObjects, names)
        decreases names
      {
        var s :| s in names;
        ghost var before := objects;
        err := PopulateObject(namedObjects[s], 0);
        WiredSinceTrans(u, fl, old(objects), before, objects);
        if err.Some? {
          return;
        }
        ScheduledStep(before, objects, namedObjects, names, s);
        names := names - {s};
      }
      return None;
    }

    /** populateUnnamedObjects(): populates every pending unnamed node; afterwards each is scheduled. */
    method PopulateUnnamedObjects() returns (err: Option<Error>)
      requires Valid()
      modifies this`objects, this`order, this`scheduled, this`addedObjectsPtr, this`initObjects, this`closeObjects
      ensures Valid() && WiredSince(u, Filed(), old(objects), objects)
      ensures err.Some? ==> PopulateFailure(err.value)
      ensures err.None? ==> ScheduledExcept(objects, unnamedObjects, {})
    {
      ghost var fl := Filed();
      WiredSinceRefl(u, fl, objects);
      var types := unnamedObjects.Keys;
      while types != {}
        invariant Valid() && types <= unnamedObjects.Keys
        invariant WiredSince(u, fl, old(objects), objects)
        invariant ScheduledExcept(objects, unnamedObjects, types)
        decreases types
      {
        var t :| t in types;
        ghost var before := objects;
        err := PopulateObject(unnamedObjects[t], 0);
        WiredSinceTrans(u, fl, old(objects), before, objects);
        if err.Some? {
          return;
        }
        ScheduledStep(before, objects, unnamedObjects, types, t);
        types := types - {t};
      }
      return None;
    }

    /**
     * Populate(): the named nodes, then the unnamed ones, then Init on the
     * Init list (failing: the values whose Init returns an error). Once both
     * population loops finish every filed node is scheduled; a population
     * panic calls no Init.
     */
    method Populate(failing: set<Value>) returns (called: seq<Value>, err: Option<Error>)
      requires Valid()
      modifies this`objects, this`order, this`scheduled, this`addedObjectsPtr, this`initObjects, this`closeObjects
      ensures Valid() && WiredSince(u, Filed(), old(objects), objects)
      ensures err.None? || err.value.InitFailed? ==>
        && AllScheduled()
        && called == CallEach(initObjects, failing).0
        && (err.None? <==> CallEach(initObjects, failing).1.None?)
        && (err.Some? ==> err.value == InitFailed(CallEach(initObjects, failing).1.value))
      ensures err.Some? && !err.value.InitFailed? ==> PopulateFailure(err.value) && called == []
    {
      err := PopulateNamedObjects();
      if err.Some? {
        return [], err;
      }
      ghost var mid := objects;
      err := PopulateUnnamedObjects();
      WiredSinceTrans(u, Filed(), old(objects), mid, objects);
      if err.Some? {
        return [], err;
      }
      ScheduledGrows(mid, objects, namedObjects, {});
      MapsScheduled(objects, nextObject, unnamedObjects, namedObjects, fulfilledUnnamedObjects, fulfilledNamedObjects);
      called, err := InitAllObjects(failing);
    }

    /**
     * initAllObjects(): Init on each value of the Init list in order, where
     * the values in failing return an error; the first error stops the walk.
     */
    method InitAllObjects(failing: set<Value>) returns (called: seq<Value>, err: Option<Error>)
      ensures called == CallEach(initObjects, failing).0
      ensures err.None? <==> CallEach(initObjects, failing).1.None?
      ensures err.Some? ==> err.value == InitFailed(CallEach(initObjects, failing).1.value)
    {
      called := [];
      var i := 0;
      while i < |initObjects|
        invariant 0 <= i <= |initObjects|
        invariant called == initObjects[..i]
        invariant forall k :: 0 <= k < i ==> initObjects[k] !in failing
      {
        called := called + [initObjects[i]];
        if initObjects[i] in failing {
          CallEachFirst(initObjects, failing, i);
          return called, Some(InitFailed(initObjects[i]));
        }
        i := i + 1;
      }
      assert initObjects[..i] == initObjects;
      return called, None;
    }

    /**
     * Close(): Close on each value of the Close list from the last to the
     * first, where the values in failing return an error; the first error
     * stops the walk.
     */
    method Close(failing: set<Value>) returns (called: seq<Value>, err: Option<Error>)
      ensures called == CallEach(Reverse(closeObjects), failing).0
      ensures err.None? <==> CallEach(Reverse(closeObjects), failing).1.None?
      ensures err.Some? ==> err.value == CloseFailed(CallEach(Reverse(closeObjects), failing).1.value)
    {
      ghost var rev := Reverse(closeObjects);
      called := [];
      var i := |closeObjects| - 1;
      while i >= 0
        invariant -1 <= i < |closeObjects|
        invariant called == rev[..|closeObjects| - 1 - i]
        invariant forall k :: 0 <= k < |closeObjects| - 1 - i ==> rev[k] !in failing
      {
        ghost var n := |closeObjects| - 1 - i;
        assert rev[n] == closeObjects[i];
        assert rev[..n + 1] == rev[..n] + [rev[n]];
        called := called + [closeObjects[i]];
        if closeObjects[i] in failing {
          CallEachFirst(rev, failing, n);
          return called, Some(CloseFailed(closeObjects[i]));
        }
        i := i - 1;
      }
      assert rev[..|closeObjects|] == rev;
      return called, None;
    }

    /** A scheduled node's value is on the schedule. */
    lemma ScheduledValue(x: nat)
      requires Valid() && x in objects && objects[x].isMethodCallAdded
      ensures objects[x].value in scheduled
    {
      assert NodeOk(objects, order, scheduled, x);
      var k :| 0 <= k < |order| && order[k] == x;
      assert EntryOk(objects, order, scheduled, k);
    }

    /**
     * Dependencies first: every field of the k-th scheduled node was
     * satisfied with the value of a node scheduled before it.
     */
    lemma DependenciesFirst(k: nat, j: nat)
      requires Valid() && k < |order| && order[k] in objects && j < |objects[order[k]].fields|
      ensures objects[order[k]].fields[j].injected.Some?
      ensures objects[order[k]].fields[j].injected.value in scheduled[..k]
    {
      assert EntryOk(objects, order, scheduled, k);
    }

    /**
     * A scheduled pointer value is in the Init list once if it is the first
     * value scheduled at its address and its type implements Init, and never
     * otherwise; Close, walking its list backwards, meets it likewise. No
     * address is in either list twice.
     */
    lemma CallsOnce(v: Value)
      requires Valid() && v.ty.Ptr?
      ensures Occurrences(initObjects, v) == if FirstOfIdentity(scheduled, v) && v.ty in u.initTypes then 1 else 0
      ensures Occurrences(Reverse(closeObjects), v) == if FirstOfIdentity(scheduled, v) && v.ty in u.closeTypes then 1 else 0
      ensures DistinctIds(initObjects) && DistinctIds(closeObjects)
    {
      CalledOnce(scheduled, u.initTypes, v);
      CalledOnce(scheduled, u.closeTypes, v);
      ReverseOccurrences(closeObjects, v);
    }
  }
}
