/**
 * The invariants of the object graph, stated on its fields as values, and
 * the steps that keep them: entering a node, scheduling a complete node and
 * satisfying a field.
 */
module GraphInvariants {
  import opened Types
  import opened InjectObjects
  import opened Schedule

  /** Node x is valid, every value injected into it was scheduled, and if flagged it is on the schedule. */
  ghost predicate NodeOk(objects: map<nat, InjectObject>, order: seq<nat>, scheduled: seq<Value>, x: nat)
    requires x in objects
  {
    ObjectValid(objects[x]) && InjectedAmong(objects[x], scheduled) && (objects[x].isMethodCallAdded ==> x in order)
  }

  /**
   * The k-th scheduled node is flagged, scheduled[k] is its value, and every
   * field of it holds a value scheduled before it: dependencies come first.
   */
  ghost predicate EntryOk(objects: map<nat, InjectObject>, order: seq<nat>, scheduled: seq<Value>, k: int)
    requires 0 <= k < |order| && |order| == |scheduled|
  {
    && order[k] in objects && objects[order[k]].isMethodCallAdded
    && objects[order[k]].value == scheduled[k] && SatisfiedFrom(objects[order[k]], scheduled[..k])
  }

  ghost predicate ScheduleOk(objects: map<nat, InjectObject>, order: seq<nat>, scheduled: seq<Value>)
  {
    && |order| == |scheduled|
    && (forall x {:trigger NodeOk(objects, order, scheduled, x)} | x in objects :: NodeOk(objects, order, scheduled, x))
    && (forall k {:trigger EntryOk(objects, order, scheduled, k)} | 0 <= k < |order| :: EntryOk(objects, order, scheduled, k))
  }

  /**
   * Identities below next; every map entry names a node of the table, an
   * unnamed entry one whose value has the entry's type, and a fulfilled
   * entry a flagged node.
   */
  ghost predicate MapsOk(objects: map<nat, InjectObject>, next: nat,
    unnamed: map<Type, nat>, named: map<string, nat>, fulfilledUnnamed: map<Type, nat>, fulfilledNamed: map<string, nat>)
  {
    && (forall x | x in objects :: x < next)
    && (forall t | t in unnamed :: unnamed[t] in objects && objects[unnamed[t]].value.ty == t)
    && (forall s | s in named :: named[s] in objects)
    && (forall t | t in fulfilledUnnamed ::
          fulfilledUnnamed[t] in objects && objects[fulfilledUnnamed[t]].isMethodCallAdded
          && objects[fulfilledUnnamed[t]].value.ty == t)
    && (forall s | s in fulfilledNamed :: fulfilledNamed[s] in objects && objects[fulfilledNamed[s]].isMethodCallAdded)
  }

  /** A fresh node: the schedule invariant holds of the larger table. */
  lemma AddFresh(objects: map<nat, InjectObject>, order: seq<nat>, scheduled: seq<Value>, x: nat, o: InjectObject)
    requires ScheduleOk(objects, order, scheduled) && x !in objects
    requires ObjectValid(o) && !o.isMethodCallAdded && InjectedAmong(o, [])
    ensures ScheduleOk(objects[x := o], order, scheduled)
  {
    var t := objects[x := o];
    forall y | y in t
      ensures NodeOk(t, order, scheduled, y)
    {
      if y != x {
        assert NodeOk(objects, order, scheduled, y);
      }
    }
    forall k | 0 <= k < |order|
      ensures EntryOk(t, order, scheduled, k)
    {
      assert EntryOk(objects, order, scheduled, k);
    }
  }

  /**
   * Scheduling a complete, unflagged node: flagged and appended with its
   * value, it keeps the schedule invariant, since its fields hold values
   * scheduled before it.
   */
  lemma ScheduleStep(objects: map<nat, InjectObject>, order: seq<nat>, scheduled: seq<Value>, x: nat)
    requires ScheduleOk(objects, order, scheduled) && x in objects
    requires objects[x].isComplete && !objects[x].isMethodCallAdded
    ensures ScheduleOk(objects[x := objects[x].(isMethodCallAdded := true)], order + [x], scheduled + [objects[x].value])
  {
    var o := objects[x];
    var t := objects[x := o.(isMethodCallAdded := true)];
    var ord := order + [x];
    var sch := scheduled + [o.value];
    assert NodeOk(objects, order, scheduled, x);
    CompleteSatisfied(o, scheduled);
    forall y | y in t
      ensures NodeOk(t, ord, sch, y)
    {
      if y != x {
        assert NodeOk(objects, order, scheduled, y);
      }
    }
    forall k | 0 <= k < |ord|
      ensures EntryOk(t, ord, sch, k)
    {
      if k < |order| {
        assert EntryOk(objects, order, scheduled, k);
        PrefixOfAppend(scheduled, o.value, k);
      } else {
        assert sch[..k] == scheduled;
      }
    }
  }

  /**
   * Satisfying field i of an unflagged node x with the value of a flagged
   * node y keeps the schedule invariant.
   */
  lemma FillStep(u: Universe, objects: map<nat, InjectObject>, order: seq<nat>, scheduled: seq<Value>, x: nat, i: nat, y: nat)
    requires ScheduleOk(objects, order, scheduled) && x in objects && y in objects
    requires objects[y].isMethodCallAdded && i < |objects[x].fields|
    requires SetField(u, objects[x], objects[y].value, i).Success?
    ensures ScheduleOk(objects[x := SetField(u, objects[x], objects[y].value, i).value], order, scheduled)
  {
    var o := objects[x];
    var p := SetField(u, o, objects[y].value, i).value;
    var t := objects[x := p];
    assert NodeOk(objects, order, scheduled, x);
    assert NodeOk(objects, order, scheduled, y);
    UnsatisfiedZero(o.fields);
    assert !o.isMethodCallAdded;
    var ky :| 0 <= ky < |order| && order[ky] == y;
    assert EntryOk(objects, order, scheduled, ky);
    forall z | z in t
      ensures NodeOk(t, order, scheduled, z)
    {
      if z != x {
        assert NodeOk(objects, order, scheduled, z);
      }
    }
    forall k | 0 <= k < |order|
      ensures EntryOk(t, order, scheduled, k)
    {
      assert EntryOk(objects, order, scheduled, k);
    }
  }

  /** A fresh node below the bound: the map invariant holds of the larger table with the bound raised. */
  lemma MapsAddFresh(objects: map<nat, InjectObject>, next: nat,
    unnamed: map<Type, nat>, named: map<string, nat>, fulfilledUnnamed: map<Type, nat>, fulfilledNamed: map<string, nat>,
    o: InjectObject)
    requires MapsOk(objects, next, unnamed, named, fulfilledUnnamed, fulfilledNamed)
    ensures next !in objects
    ensures MapsOk(objects[next := o], next + 1, unnamed, named, fulfilledUnnamed, fulfilledNamed)
  {
  }

  /** Replacing a node by one with the same value that keeps its flag keeps the map invariant. */
  lemma MapsUpdate(objects: map<nat, InjectObject>, next: nat,
    unnamed: map<Type, nat>, named: map<string, nat>, fulfilledUnnamed: map<Type, nat>, fulfilledNamed: map<string, nat>,
    x: nat, o: InjectObject)
    requires MapsOk(objects, next, unnamed, named, fulfilledUnnamed, fulfilledNamed) && x in objects
    requires o.value == objects[x].value && (objects[x].isMethodCallAdded ==> o.isMethodCallAdded)
    ensures MapsOk(objects[x := o], next, unnamed, named, fulfilledUnnamed, fulfilledNamed)
  {
  }

  /** A second update of the same identity overrides the first. */
  lemma UpdateTwice(m: map<nat, InjectObject>, x: nat, a: InjectObject, b: InjectObject)
    ensures m[x := a][x := b] == m[x := b]
  {
  }

  /** Every entry of m whose key is not pending names a scheduled node of the table. */
  ghost predicate ScheduledExcept<K>(objects: map<nat, InjectObject>, m: map<K, nat>, pending: set<K>)
  {
    forall k | k in m && k !in pending :: m[k] in objects && objects[m[k]].isMethodCallAdded
  }

  /** Scheduled entries stay scheduled as the table grows. */
  lemma ScheduledGrows<K>(a: map<nat, InjectObject>, b: map<nat, InjectObject>, m: map<K, nat>, pending: set<K>)
    requires ScheduledExcept(a, m, pending) && Grows(a, b)
    ensures ScheduledExcept(b, m, pending)
  {
    forall k | k in m && k !in pending
      ensures m[k] in b && b[m[k]].isMethodCallAdded
    {
      GrowsFlagged(a, b, m[k]);
    }
  }

  /** Scheduling the node of a pending key k, in a grown table, takes k off the pending keys. */
  lemma ScheduledStep<K>(a: map<nat, InjectObject>, b: map<nat, InjectObject>, m: map<K, nat>, pending: set<K>, k: K)
    requires ScheduledExcept(a, m, pending) && Grows(a, b)
    requires k in m && m[k] in b && b[m[k]].isMethodCallAdded
    ensures ScheduledExcept(b, m, pending - {k})
  {
    ScheduledGrows(a, b, m, pending);
  }

  /** The fulfilled maps name scheduled nodes only. */
  lemma MapsScheduled(objects: map<nat, InjectObject>, next: nat,
    unnamed: map<Type, nat>, named: map<string, nat>, fulfilledUnnamed: map<Type, nat>, fulfilledNamed: map<string, nat>)
    requires MapsOk(objects, next, unnamed, named, fulfilledUnnamed, fulfilledNamed)
    ensures ScheduledExcept(objects, fulfilledUnnamed, {}) && ScheduledExcept(objects, fulfilledNamed, {})
  {
  }

  /** The four maps nodes are filed in: pending and fulfilled, unnamed and named. */
  datatype Files = Files(
    unnamed: map<Type, nat>,
    named: map<string, nat>,
    fulfilledUnnamed: map<Type, nat>,
    fulfilledNamed: map<string, nat>)

  /**
   * findUnnamedObjectByType(tp)'s choice: the node filed under exactly tp,
   * fulfilled before pending; else a node filed under some type assignable
   * to tp, fulfilled before pending; else none. Which of several assignable
   * types wins depends on map iteration order and is left open.
   */
  ghost predicate UnnamedChoice(u: Universe, fl: Files, tp: Type, r: Option<nat>)
  {
    if tp in fl.fulfilledUnnamed then r == Some(fl.fulfilledUnnamed[tp])
    else if tp in fl.unnamed then r == Some(fl.unnamed[tp])
    else if exists t :: t in fl.fulfilledUnnamed && AssignableTo(u, t, tp) then
      exists t :: t in fl.fulfilledUnnamed && AssignableTo(u, t, tp) && r == Some(fl.fulfilledUnnamed[t])
    else if exists t :: t in fl.unnamed && AssignableTo(u, t, tp) then
      exists t :: t in fl.unnamed && AssignableTo(u, t, tp) && r == Some(fl.unnamed[t])
    else r == None
  }

  /**
   * findMatchingObject's choice for an unsatisfied field f: for a named tag
   * the fulfilled node of that name, else the pending one, else none; for an
   * unnamed tag the choice of findUnnamedObjectByType.
   */
  ghost predicate Chosen(u: Universe, fl: Files, f: InjectField, r: Option<nat>)
  {
    if f.tagName != "" then
      r == (if f.tagName in fl.fulfilledNamed then Some(fl.fulfilledNamed[f.tagName])
            else if f.tagName in fl.named then Some(fl.named[f.tagName]) else None)
    else UnnamedChoice(u, fl, f.fieldType, r)
  }

  /**
   * Field f is wired: it holds the value of a node findMatchingObject chooses
   * for it, and that value is assignable to the field's type.
   */
  ghost predicate Wired(u: Universe, fl: Files, objects: map<nat, InjectObject>, f: InjectField)
  {
    && f.injected.Some? && AssignableTo(u, f.injected.value.ty, f.fieldType)
    && exists y :: y in objects && Chosen(u, fl, f, Some(y)) && f.injected.value == objects[y].value
  }

  /** Field k of node x was unsatisfied in table a and is satisfied in table b. */
  ghost predicate NewlySatisfied(a: map<nat, InjectObject>, b: map<nat, InjectObject>, x: nat, k: int)
  {
    && x in a && x in b && 0 <= k < |a[x].fields| && k < |b[x].fields|
    && !a[x].fields[k].isSatisfied && b[x].fields[k].isSatisfied
  }

  /** Table b is table a at a later time, and every field satisfied since a is wired. */
  ghost predicate WiredSince(u: Universe, fl: Files, a: map<nat, InjectObject>, b: map<nat, InjectObject>)
  {
    && Grows(a, b)
    && forall x: nat, k: int {:trigger NewlySatisfied(a, b, x, k)} | NewlySatisfied(a, b, x, k) ::
         Wired(u, fl, b, b[x].fields[k])
  }

  /** A table satisfies no field since itself. */
  lemma WiredSinceRefl(u: Universe, fl: Files, a: map<nat, InjectObject>)
    ensures WiredSince(u, fl, a, a)
  {
    forall x | x in a
      ensures NodeGrows(a[x], a[x])
    {
    }
  }

  /** A wired field stays wired as the table grows: node values never change. */
  lemma WiredGrows(u: Universe, fl: Files, a: map<nat, InjectObject>, b: map<nat, InjectObject>, f: InjectField)
    requires Wired(u, fl, a, f) && Grows(a, b)
    ensures Wired(u, fl, b, f)
  {
    var y :| y in a && Chosen(u, fl, f, Some(y)) && f.injected.value == a[y].value;
    GrowsNode(a, b, y);
  }

  lemma WiredSinceTrans(u: Universe, fl: Files, a: map<nat, InjectObject>, b: map<nat, InjectObject>, c: map<nat, InjectObject>)
    requires WiredSince(u, fl, a, b) && WiredSince(u, fl, b, c)
    ensures WiredSince(u, fl, a, c)
  {
    GrowsTrans(a, b, c);
    forall x: nat, k: int | NewlySatisfied(a, c, x, k)
      ensures Wired(u, fl, c, c[x].fields[k])
    {
      GrowsNode(a, b, x);
      GrowsNode(b, c, x);
      if b[x].fields[k].isSatisfied {
        assert NewlySatisfied(a, b, x, k);
        assert c[x].fields[k] == b[x].fields[k];
        WiredGrows(u, fl, b, c, b[x].fields[k]);
      } else {
        assert NewlySatisfied(b, c, x, k);
      }
    }
  }

  /** Flagging node x satisfies no field. */
  lemma WiredSinceFlag(u: Universe, fl: Files, a: map<nat, InjectObject>, x: nat)
    requires x in a
    ensures WiredSince(u, fl, a, a[x := a[x].(isMethodCallAdded := true)])
  {
    var b := a[x := a[x].(isMethodCallAdded := true)];
    GrowsUpdate(a, x, a[x].(isMethodCallAdded := true));
    assert forall z | z in b :: b[z].fields == a[z].fields;
  }

  /**
   * Setting field i of node x to the value of node y, the node chosen for
   * that field, wires it.
   */
  lemma WiredFill(u: Universe, fl: Files, a: map<nat, InjectObject>, x: nat, i: nat, y: nat)
    requires x in a && y in a && i < |a[x].fields|
    requires Chosen(u, fl, a[x].fields[i], Some(y))
    requires SetField(u, a[x], a[y].value, i).Success?
    ensures WiredSince(u, fl, a, a[x := SetField(u, a[x], a[y].value, i).value])
  {
    var p := SetField(u, a[x], a[y].value, i).value;
    var b := a[x := p];
    SetFieldGrows(u, a[x], a[y].value, i);
    GrowsUpdate(a, x, p);
    forall z: nat, k: int | NewlySatisfied(a, b, z, k)
      ensures Wired(u, fl, b, b[z].fields[k])
    {
      assert z == x && k == i;
      assert Chosen(u, fl, p.fields[i], Some(y));
      assert b[y].value == a[y].value;
    }
  }

  /** A grown node keeps each field's type and tag, so the choice made for the field stands. */
  lemma ChosenGrows(u: Universe, fl: Files, a: map<nat, InjectObject>, b: map<nat, InjectObject>, x: nat, i: nat, r: Option<nat>)
    requires Grows(a, b) && x in a && i < |a[x].fields| && Chosen(u, fl, a[x].fields[i], r)
    ensures x in b && i < |b[x].fields| && Chosen(u, fl, b[x].fields[i], r)
  {
    GrowsNode(a, b, x);
    assert b[x].fields[i].fieldType == a[x].fields[i].fieldType && b[x].fields[i].tagName == a[x].fields[i].tagName;
  }

  /** Once every field of node x is satisfied, each field unsatisfied in a is wired. */
  lemma WiredFields(u: Universe, fl: Files, a: map<nat, InjectObject>, b: map<nat, InjectObject>, x: nat)
    requires WiredSince(u, fl, a, b) && x in a && x in b && SatisfiedUpTo(b[x], |b[x].fields|)
    ensures forall k | 0 <= k < |a[x].fields| && !a[x].fields[k].isSatisfied :: Wired(u, fl, b, b[x].fields[k])
  {
    GrowsNode(a, b, x);
    forall k | 0 <= k < |a[x].fields| && !a[x].fields[k].isSatisfied
      ensures Wired(u, fl, b, b[x].fields[k])
    {
      assert NewlySatisfied(a, b, x, k);
    }
  }

  /** addedObjectsPtr and the Init and Close lists are what addObjectCall made of the scheduled values. */
  ghost predicate CallsOk(u: Universe, scheduled: seq<Value>, added: set<nat>, inits: seq<Value>, closes: seq<Value>)
  {
    && added == PtrIds(scheduled)
    && inits == Implementing(Admitted(scheduled), u.initTypes)
    && closes == Implementing(Admitted(scheduled), u.closeTypes)
  }

  /** The invariant of the whole graph. */
  ghost predicate GraphOk(u: Universe, objects: map<nat, InjectObject>, next: nat,
    unnamed: map<Type, nat>, named: map<string, nat>, fulfilledUnnamed: map<Type, nat>, fulfilledNamed: map<string, nat>,
    order: seq<nat>, scheduled: seq<Value>, added: set<nat>, inits: seq<Value>, closes: seq<Value>)
  {
    && ScheduleOk(objects, order, scheduled)
    && MapsOk(objects, next, unnamed, named, fulfilledUnnamed, fulfilledNamed)
    && CallsOk(u, scheduled, added, inits, closes)
  }
}
