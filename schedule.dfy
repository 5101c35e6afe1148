/**
 * The bookkeeping addObjectCall keeps for Init and Close, as functions of
 * the sequence of values it was given: the pointer identities seen, the
 * values admitted once per identity, the Init and Close lists, and the calls
 * made walking a list.
 */
module Schedule {
  import opened Types

  /** The pointer identities among vs (addedObjectsPtr). */
  function PtrIds(vs: seq<Value>): set<nat>
  {
    if vs == [] then {}
    else PtrIds(vs[..|vs| - 1]) + (if vs[|vs| - 1].ty.Ptr? then {vs[|vs| - 1].id} else {})
  }

  /**
   * The values addObjectCall lets through, in scheduling order: a pointer value
   * whose identity was scheduled before is dropped, any other value is kept.
   */
  function Admitted(vs: seq<Value>): seq<Value>
  {
    if vs == [] then []
    else
      var p := vs[..|vs| - 1];
      var v := vs[|vs| - 1];
      Admitted(p) + (if v.ty.Ptr? && v.id in PtrIds(p) then [] else [v])
  }

  /** The values among vs whose dynamic type is in ts, in order (the Initializable / Closable assertions). */
  function Implementing(vs: seq<Value>, ts: set<Type>): seq<Value>
  {
    if vs == [] then []
    else Implementing(vs[..|vs| - 1], ts) + (if vs[|vs| - 1].ty in ts then [vs[|vs| - 1]] else [])
  }

  /** The number of occurrences of v in vs. */
  function Occurrences(vs: seq<Value>, v: Value): nat
  {
    if vs == [] then 0 else Occurrences(vs[..|vs| - 1], v) + (if vs[|vs| - 1] == v then 1 else 0)
  }

  /** A pointer identity denotes one value: two pointer values with the same identity are equal. */
  ghost predicate SingleTyped(vs: seq<Value>)
  {
    forall i, j :: 0 <= i < |vs| && 0 <= j < |vs| && vs[i].ty.Ptr? && vs[j].ty.Ptr? && vs[i].id == vs[j].id ==> vs[i] == vs[j]
  }

  lemma PrefixOfAppend(vs: seq<Value>, v: Value, k: nat)
    requires k <= |vs|
    ensures (vs + [v])[..k] == vs[..k]
  {
  }

  lemma AdmittedAppend(vs: seq<Value>, v: Value)
    ensures Admitted(vs + [v]) == Admitted(vs) + (if v.ty.Ptr? && v.id in PtrIds(vs) then [] else [v])
  {
    assert (vs + [v])[..|vs|] == vs;
  }

  lemma ImplementingAppend(vs: seq<Value>, w: seq<Value>, ts: set<Type>)
    requires |w| <= 1
    ensures Implementing(vs + w, ts) == Implementing(vs, ts) + (if w != [] && w[0].ty in ts then w else [])
  {
    if w == [] {
      assert vs + w == vs;
    } else {
      assert (vs + w)[..|vs|] == vs;
    }
  }

  /** Scheduling one more value v: how the identities and each call list grow. */
  lemma CallsStep(vs: seq<Value>, v: Value, ts: set<Type>)
    ensures PtrIds(vs + [v]) == PtrIds(vs) + (if v.ty.Ptr? then {v.id} else {})
    ensures Implementing(Admitted(vs + [v]), ts) ==
      Implementing(Admitted(vs), ts) + (if (v.ty.Ptr? && v.id in PtrIds(vs)) || v.ty !in ts then [] else [v])
  {
    PtrIdsAppend(vs, v);
    AdmittedAppend(vs, v);
    ImplementingAppend(Admitted(vs), if v.ty.Ptr? && v.id in PtrIds(vs) then [] else [v], ts);
  }

  /**
   * addObjectCall's bookkeeping is the scheduling functions stepped by one
   * value: a pointer whose identity was seen changes nothing, any other value
   * records its identity and joins the lists of the types it implements.
   */
  lemma CallsAppend(vs: seq<Value>, v: Value, added: set<nat>, inits: seq<Value>, closes: seq<Value>, u: Universe)
    requires added == PtrIds(vs)
    requires inits == Implementing(Admitted(vs), u.initTypes) && closes == Implementing(Admitted(vs), u.closeTypes)
    ensures var dup := v.ty.Ptr? && v.id in added;
      && PtrIds(vs + [v]) == (if v.ty.Ptr? && !dup then added + {v.id} else added)
      && Implementing(Admitted(vs + [v]), u.initTypes) == (if !dup && v.ty in u.initTypes then inits + [v] else inits)
      && Implementing(Admitted(vs + [v]), u.closeTypes) == (if !dup && v.ty in u.closeTypes then closes + [v] else closes)
  {
    CallsStep(vs, v, u.initTypes);
    CallsStep(vs, v, u.closeTypes);
  }

  lemma PtrIdsAppend(vs: seq<Value>, v: Value)
    ensures PtrIds(vs + [v]) == PtrIds(vs) + (if v.ty.Ptr? then {v.id} else {})
  {
    assert (vs + [v])[..|vs|] == vs;
  }

  lemma {:induction false} PtrIdsOf(vs: seq<Value>, i: nat)
    requires i < |vs| && vs[i].ty.Ptr?
    decreases |vs|
    ensures vs[i].id in PtrIds(vs)
  {
    if i < |vs| - 1 {
      PtrIdsOf(vs[..|vs| - 1], i);
    }
  }

  /** An identity that no pointer value of vs carries is not among PtrIds(vs). */
  lemma {:induction false} PtrIdsOnly(vs: seq<Value>, id: nat)
    requires forall i :: 0 <= i < |vs| && vs[i].ty.Ptr? ==> vs[i].id != id
    decreases |vs|
    ensures id !in PtrIds(vs)
  {
    if vs != [] {
      PtrIdsOnly(vs[..|vs| - 1], id);
    }
  }

  /**
   * v is the first value scheduled under its pointer identity: it occurs at a
   * position before which no pointer value carried its identity.
   */
  ghost predicate FirstOfIdentity(vs: seq<Value>, v: Value)
  {
    exists i :: 0 <= i < |vs| && vs[i] == v && v.id !in PtrIds(vs[..i])
  }

  /** No two pointer values of vs share an identity. */
  ghost predicate DistinctIds(vs: seq<Value>)
  {
    forall i, j :: 0 <= i < j < |vs| && vs[i].ty.Ptr? && vs[j].ty.Ptr? ==> vs[i].id != vs[j].id
  }

  /** Scheduling one more value w: v is first of its identity in the longer sequence exactly when it was already, or is w with a new identity. */
  lemma FirstOfIdentityStep(vs: seq<Value>, v: Value)
    requires vs != [] && v.ty.Ptr?
    ensures var p := vs[..|vs| - 1];
      && (FirstOfIdentity(vs, v) <==> FirstOfIdentity(p, v) || (vs[|vs| - 1] == v && v.id !in PtrIds(p)))
      && (FirstOfIdentity(p, v) ==> v.id in PtrIds(p))
  {
    var p := vs[..|vs| - 1];
    if FirstOfIdentity(vs, v) {
      var i :| 0 <= i < |vs| && vs[i] == v && v.id !in PtrIds(vs[..i]);
      if i < |p| {
        assert vs[..i] == p[..i] && p[i] == v;
      } else {
        assert vs[..i] == p;
      }
    }
    if FirstOfIdentity(p, v) {
      var i :| 0 <= i < |p| && p[i] == v && v.id !in PtrIds(p[..i]);
      assert vs[..i] == p[..i] && vs[i] == v;
      PtrIdsOf(p, i);
    }
    if vs[|vs| - 1] == v && v.id !in PtrIds(p) {
      assert vs[..|vs| - 1] == p;
    }
  }

  /**
   * addObjectCall's identity check: a pointer value passes it once when it is
   * the first value scheduled under its identity, and never otherwise, so a
   * later value at the same address is dropped whatever its type.
   */
  lemma {:induction false} AdmittedOnce(vs: seq<Value>, v: Value)
    requires v.ty.Ptr?
    decreases |vs|
    ensures Occurrences(Admitted(vs), v) == if FirstOfIdentity(vs, v) then 1 else 0
  {
    if vs != [] {
      var p := vs[..|vs| - 1];
      var w := vs[|vs| - 1];
      AdmittedOnce(p, v);
      OccurrencesAppend(Admitted(p), if w.ty.Ptr? && w.id in PtrIds(p) then [] else [w], v);
      FirstOfIdentityStep(vs, v);
    }
  }

  /** When every identity carries one dynamic type, the first value of v's identity is v itself whenever v is scheduled. */
  lemma {:induction false} SingleTypedFirst(vs: seq<Value>, v: Value)
    requires v.ty.Ptr? && SingleTyped(vs)
    decreases |vs|
    ensures FirstOfIdentity(vs, v) <==> v in vs
  {
    if vs != [] {
      var p := vs[..|vs| - 1];
      var w := vs[|vs| - 1];
      assert vs == p + [w];
      assert SingleTyped(p);
      SingleTypedFirst(p, v);
      FirstOfIdentityStep(vs, v);
      if v !in p && w == v {
        forall i | 0 <= i < |p| && p[i].ty.Ptr?
          ensures p[i].id != v.id
        {
          assert vs[i] == p[i] && vs[|vs| - 1] == v;
        }
        PtrIdsOnly(p, v.id);
      }
    }
  }

  /** A struct s and its first field s.T share an address: scheduling &s then &s.T lets only &s through. */
  lemma SharedAddressSample()
    ensures Admitted([Value(1, Ptr(Struct("S"))), Value(1, Ptr(Struct("T")))]) == [Value(1, Ptr(Struct("S")))]
    ensures !FirstOfIdentity([Value(1, Ptr(Struct("S"))), Value(1, Ptr(Struct("T")))], Value(1, Ptr(Struct("T"))))
  {
    var s, t := Value(1, Ptr(Struct("S"))), Value(1, Ptr(Struct("T")));
    var vs := [s, t];
    assert vs[..1] == [s] && [s][..0] == [];
    assert PtrIds([s]) == {1};
    assert Admitted([s]) == [s];
    assert Admitted(vs) == [s];
    assert Occurrences([s], t) == 0;
    AdmittedOnce(vs, t);
  }

  /** The values addObjectCall lets through are among those scheduled. */
  lemma {:induction false} AdmittedIn(vs: seq<Value>, x: Value)
    decreases |vs|
    ensures x in Admitted(vs) ==> exists k :: 0 <= k < |vs| && vs[k] == x
  {
    if vs != [] {
      var p := vs[..|vs| - 1];
      AdmittedIn(p, x);
      if x in Admitted(p) {
        var k :| 0 <= k < |p| && p[k] == x;
        assert vs[k] == x;
      }
    }
  }

  /** Appending a value whose identity no pointer value of vs carries keeps identities distinct. */
  lemma DistinctSnoc(vs: seq<Value>, w: seq<Value>)
    requires DistinctIds(vs) && |w| <= 1
    requires forall i :: 0 <= i < |vs| && vs[i].ty.Ptr? && w != [] && w[0].ty.Ptr? ==> vs[i].id != w[0].id
    ensures DistinctIds(vs + w)
  {
  }

  /** addObjectCall lets each pointer identity through at most once. */
  lemma {:induction false} AdmittedDistinct(vs: seq<Value>)
    decreases |vs|
    ensures DistinctIds(Admitted(vs))
  {
    if vs != [] {
      var p := vs[..|vs| - 1];
      var w := vs[|vs| - 1];
      var a := Admitted(p);
      AdmittedDistinct(p);
      forall i | 0 <= i < |a| && a[i].ty.Ptr? && w.ty.Ptr? && w.id !in PtrIds(p)
        ensures a[i].id != w.id
      {
        AdmittedIn(p, a[i]);
        var k :| 0 <= k < |p| && p[k] == a[i];
        PtrIdsOf(p, k);
      }
      DistinctSnoc(a, if w.ty.Ptr? && w.id in PtrIds(p) then [] else [w]);
    }
  }

  /** Filtering by type keeps only values of the sequence. */
  lemma {:induction false} ImplementingIn(vs: seq<Value>, ts: set<Type>, x: Value)
    decreases |vs|
    ensures x in Implementing(vs, ts) ==> exists k :: 0 <= k < |vs| && vs[k] == x
  {
    if vs != [] {
      var p := vs[..|vs| - 1];
      ImplementingIn(p, ts, x);
      if x in Implementing(p, ts) {
        var k :| 0 <= k < |p| && p[k] == x;
        assert vs[k] == x;
      }
    }
  }

  /** Filtering by type keeps identities distinct. */
  lemma {:induction false} ImplementingDistinct(vs: seq<Value>, ts: set<Type>)
    requires DistinctIds(vs)
    decreases |vs|
    ensures DistinctIds(Implementing(vs, ts))
  {
    if vs != [] {
      var p := vs[..|vs| - 1];
      var w := vs[|vs| - 1];
      var f := Implementing(p, ts);
      assert DistinctIds(p) by {
        forall i, j | 0 <= i < j < |p| && p[i].ty.Ptr? && p[j].ty.Ptr?
          ensures p[i].id != p[j].id
        {
          assert vs[i] == p[i] && vs[j] == p[j];
        }
      }
      ImplementingDistinct(p, ts);
      forall i | 0 <= i < |f| && f[i].ty.Ptr? && w.ty.Ptr?
        ensures f[i].id != w.id
      {
        ImplementingIn(p, ts, f[i]);
        var k :| 0 <= k < |p| && p[k] == f[i];
        assert vs[k] == f[i];
      }
      DistinctSnoc(f, if w.ty in ts then [w] else []);
    }
  }

  lemma {:induction false} OccurrencesAppend(a: seq<Value>, b: seq<Value>, v: Value)
    requires |b| <= 1
    ensures Occurrences(a + b, v) == Occurrences(a, v) + (if b == [v] then 1 else 0)
  {
    if b != [] {
      assert (a + b)[..|a + b| - 1] == a;
    } else {
      assert a + b == a;
    }
  }

  /** Filtering by type keeps every occurrence of a value of one of the types and no other. */
  lemma {:induction false} ImplementingOccurrences(vs: seq<Value>, ts: set<Type>, v: Value)
    decreases |vs|
    ensures Occurrences(Implementing(vs, ts), v) == if v.ty in ts then Occurrences(vs, v) else 0
  {
    if vs != [] {
      var p := vs[..|vs| - 1];
      ImplementingOccurrences(p, ts, v);
      OccurrencesAppend(Implementing(p, ts), if vs[|vs| - 1].ty in ts then [vs[|vs| - 1]] else [], v);
    }
  }

  /** The values in reverse order. */
  function Reverse(vs: seq<Value>): (r: seq<Value>)
    ensures |r| == |vs|
    ensures forall k :: 0 <= k < |vs| ==> r[k] == vs[|vs| - 1 - k]
  {
    if vs == [] then [] else [vs[|vs| - 1]] + Reverse(vs[..|vs| - 1])
  }

  lemma {:induction false} OccurrencesConcat(a: seq<Value>, b: seq<Value>, v: Value)
    decreases |b|
    ensures Occurrences(a + b, v) == Occurrences(a, v) + Occurrences(b, v)
  {
    if b != [] {
      var p := b[..|b| - 1];
      assert (a + b)[..|a + b| - 1] == a + p;
      OccurrencesConcat(a, p, v);
    } else {
      assert a + b == a;
    }
  }

  /** Reversing keeps the number of occurrences. */
  lemma {:induction false} ReverseOccurrences(vs: seq<Value>, v: Value)
    decreases |vs|
    ensures Occurrences(Reverse(vs), v) == Occurrences(vs, v)
  {
    if vs != [] {
      var p := vs[..|vs| - 1];
      ReverseOccurrences(p, v);
      OccurrencesConcat([vs[|vs| - 1]], Reverse(p), v);
      assert [vs[|vs| - 1]][..0] == [];
    }
  }

  /**
   * A call list built from the schedule holds a pointer value once when it is
   * the first value scheduled under its identity and its type implements the
   * call, and never otherwise; no pointer identity occurs in it twice.
   */
  lemma CalledOnce(vs: seq<Value>, ts: set<Type>, v: Value)
    requires v.ty.Ptr?
    ensures Occurrences(Implementing(Admitted(vs), ts), v) == if FirstOfIdentity(vs, v) && v.ty in ts then 1 else 0
    ensures DistinctIds(Implementing(Admitted(vs), ts))
  {
    AdmittedOnce(vs, v);
    ImplementingOccurrences(Admitted(vs), ts, v);
    AdmittedDistinct(vs);
    ImplementingDistinct(Admitted(vs), ts);
  }

  /**
   * Calling Init (or Close) on each of vs in turn, where calling a value in
   * failing returns an error: the values called, and the failing one at which
   * the loop stops. Without a failure every value is called, in order.
   */
  function CallEach(vs: seq<Value>, failing: set<Value>): (r: (seq<Value>, Option<Value>))
    ensures |r.0| <= |vs| && r.0 == vs[..|r.0|]
    ensures r.1.None? <==> forall k :: 0 <= k < |vs| ==> vs[k] !in failing
    ensures r.1.None? ==> r.0 == vs
    ensures r.1.Some? ==> r.0 != [] && r.0[|r.0| - 1] == r.1.value && r.1.value in failing
    ensures forall k :: 0 <= k < |r.0| - 1 ==> r.0[k] !in failing
  {
    if vs == [] then ([], None)
    else if vs[0] in failing then ([vs[0]], Some(vs[0]))
    else
      var rest := CallEach(vs[1..], failing);
      assert forall k :: 0 < k < |vs| ==> vs[k] == vs[1..][k - 1];
      ([vs[0]] + rest.0, rest.1)
  }

  /** The loop stops at the first failing value, having called it and everything before it. */
  lemma {:induction false} CallEachFirst(vs: seq<Value>, failing: set<Value>, i: nat)
    requires i < |vs| && vs[i] in failing
    requires forall k :: 0 <= k < i ==> vs[k] !in failing
    decreases i
    ensures CallEach(vs, failing) == (vs[..i + 1], Some(vs[i]))
  {
    if i > 0 {
      assert vs[0] !in failing;
      forall k | 0 <= k < i - 1
        ensures vs[1..][k] !in failing
      {
        assert vs[1..][k] == vs[k + 1];
      }
      CallEachFirst(vs[1..], failing, i - 1);
      assert [vs[0]] + vs[1..][..i] == vs[..i + 1];
    }
  }
}
