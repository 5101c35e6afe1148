/**
 * The dependency-cycle detector (cyclicDetector): a graph from struct types to
 * the pointee types of their pointer-typed injected fields, and a depth-first
 * search that carries the current path and reports the first type that recurs
 * on it, together with the cycle it closes.
 */
module CyclicDetect {
  import opened Types

  /** The dependency graph: a tracked struct type and the types its injected pointers point to. */
  type Deps = map<Type, set<Type>>

  /** The direct dependencies of a type; an untracked type has none. */
  function Succ(deps: Deps, t: Type): set<Type>
  {
    if t in deps then deps[t] else {}
  }

  predicate Edge(deps: Deps, a: Type, b: Type)
  {
    a in deps && b in deps[a]
  }

  /** Every consecutive pair of w is an edge. */
  predicate Walk(deps: Deps, w: seq<Type>)
  {
    forall j :: 0 <= j < |w| - 1 ==> Edge(deps, w[j], w[j + 1])
  }

  /** A closed walk: at least one edge, and it ends where it starts. */
  predicate IsCycle(deps: Deps, c: seq<Type>)
  {
    |c| >= 2 && c[0] == c[|c| - 1] && Walk(deps, c)
  }

  ghost predicate HasCycle(deps: Deps)
  {
    exists c :: IsCycle(deps, c)
  }

  function Elems(p: seq<Type>): set<Type>
  {
    set x | x in p
  }

  /** The pointee types of the pointer-typed tagged fields: the dependencies AddDetectObject records. */
  function DepsOf(fs: seq<FieldDecl>): set<Type>
  {
    if fs == [] then {}
    else (if fs[0].tag.Some? && fs[0].ty.Ptr? then {fs[0].ty.elem} else {}) + DepsOf(fs[1..])
  }

  /** A type is a recorded dependency exactly when some tagged pointer field points to it. */
  lemma {:induction false} DepsOfMeaning(fs: seq<FieldDecl>, d: Type)
    decreases |fs|
    ensures d in DepsOf(fs) <==> exists j :: 0 <= j < |fs| && fs[j].tag.Some? && fs[j].ty.Ptr? && fs[j].ty.elem == d
  {
    if fs != [] {
      DepsOfMeaning(fs[1..], d);
      if d in DepsOf(fs[1..]) {
        var j :| 0 <= j < |fs[1..]| && fs[1..][j].tag.Some? && fs[1..][j].ty.Ptr? && fs[1..][j].ty.elem == d;
        assert fs[j + 1] == fs[1..][j];
      }
      if exists j :: 0 <= j < |fs| && fs[j].tag.Some? && fs[j].ty.Ptr? && fs[j].ty.elem == d {
        var j :| 0 <= j < |fs| && fs[j].tag.Some? && fs[j].ty.Ptr? && fs[j].ty.elem == d;
        if j > 0 {
          assert fs[1..][j - 1] == fs[j];
        }
      }
    }
  }

  /** Whether some tagged field is neither an interface nor a pointer: AddDetectObject panics on it. */
  predicate HasWrongTagged(fs: seq<FieldDecl>)
  {
    exists j :: 0 <= j < |fs| && WrongTaggedField(fs[j])
  }

  /**
   * AddDetectObject(v) on the graph deps: None for the panic on a wrongly typed
   * tagged field; a non-struct pointee or an already tracked type leaves deps as it is.
   */
  function AddDetect(u: Universe, deps: Deps, v: Value): (r: Option<Deps>)
    ensures !IsNilPointer(v) && (!Indirect(v.ty).Struct? || Indirect(v.ty) in deps) ==> r == Some(deps)
    ensures r.Some? ==> r.value.Keys == deps.Keys + (if Indirect(v.ty).Struct? then {Indirect(v.ty)} else {})
    ensures r.Some? ==> forall t :: t in deps ==> r.value[t] == deps[t]
    ensures r.None? <==> IsNilPointer(v) ||
                         (Indirect(v.ty).Struct? && Indirect(v.ty) !in deps && HasWrongTagged(FieldsOf(u, Indirect(v.ty))))
  {
    var t := Indirect(v.ty);
    if IsNilPointer(v) then None
    else if !t.Struct? || t in deps then Some(deps)
    else if HasWrongTagged(FieldsOf(u, t)) then None
    else Some(deps[t := DepsOf(FieldsOf(u, t))])
  }

  /** AddDetectObjects: the objects in argument order, stopping at the first panic. */
  function AddDetectAll(u: Universe, deps: Deps, vs: seq<Value>): Option<Deps>
    decreases |vs|
  {
    if vs == [] then Some(deps)
    else match AddDetect(u, deps, vs[0])
      case None => None
      case Some(d) => AddDetectAll(u, d, vs[1..])
  }

  /** Adding the objects of vs and then v is adding v to what the objects of vs made. */
  lemma {:induction false} AddDetectAllSnoc(u: Universe, deps: Deps, vs: seq<Value>, v: Value)
    decreases |vs|
    requires AddDetectAll(u, deps, vs).Some?
    ensures AddDetectAll(u, deps, vs + [v]) == AddDetect(u, AddDetectAll(u, deps, vs).value, v)
  {
    if vs == [] {
      assert vs + [v] == [v];
    } else {
      assert (vs + [v])[1..] == vs[1..] + [v];
      AddDetectAllSnoc(u, AddDetect(u, deps, vs[0]).value, vs[1..], v);
    }
  }

  /** Adding objects never changes the entry of a type that is already tracked. */
  lemma {:induction false} AddDetectAllKeeps(u: Universe, deps: Deps, vs: seq<Value>, t: Type)
    decreases |vs|
    requires t in deps && AddDetectAll(u, deps, vs).Some?
    ensures t in AddDetectAll(u, deps, vs).value && AddDetectAll(u, deps, vs).value[t] == deps[t]
  {
    if vs != [] {
      AddDetectAllKeeps(u, AddDetect(u, deps, vs[0]).value, vs[1..], t);
    }
  }

  /** The index of the first occurrence of t in p, or |p| when t does not occur. */
  function FirstIndex(p: seq<Type>, t: Type): (i: nat)
    ensures i <= |p| && t !in p[..i]
    ensures i < |p| ==> p[i] == t
  {
    if p == [] then 0
    else if p[0] == t then 0
    else
      var k := FirstIndex(p[1..], t);
      assert p[..k + 1] == [p[0]] + p[1..][..k];
      k + 1
  }

  /**
   * cyclicPath: if t occurs in p, the suffix of p from its first occurrence with t
   * appended; otherwise None (for an empty path too).
   */
  function CyclicPath(p: seq<Type>, t: Type): (r: Option<seq<Type>>)
    ensures r.Some? <==> t in p
    ensures r.Some? ==> exists i :: 0 <= i < |p| && p[i] == t && t !in p[..i] && r.value == p[i..] + [t]
    ensures r.Some? ==> |r.value| >= 2 && r.value[0] == t && r.value[|r.value| - 1] == t
  {
    var i := FirstIndex(p, t);
    if i < |p| then Some(p[i..] + [t])
    else
      assert p[..i] == p;
      None
  }

  /**
   * The depth-first search from root, with path the types above it, finds nothing:
   * no dependency of root lies on path + [root], and every tracked dependency is
   * clean in turn. This is the reference definition traverseTypePath is proved against.
   */
  ghost predicate Clean(deps: Deps, root: Type, path: seq<Type>)
    decreases deps.Keys - Elems(path) - {root}
  {
    var p := path + [root];
    assert Elems(p) == Elems(path) + {root};
    forall d :: d in Succ(deps, root) ==> d !in p && (d in deps ==> Clean(deps, d, p))
  }

  /** Along a cycle c, the search from c[j] with the types before it as path is never clean. */
  lemma {:induction false} CycleNotClean(deps: Deps, c: seq<Type>, j: nat)
    requires IsCycle(deps, c) && j <= |c| - 2
    decreases |c| - j
    ensures !Clean(deps, c[j], c[..j])
  {
    assert Edge(deps, c[j], c[j + 1]);
    var p := c[..j] + [c[j]];
    assert p == c[..j + 1];
    if j + 1 == |c| - 1 {
      assert c[j + 1] == p[0];
    } else {
      assert Edge(deps, c[j + 1], c[j + 2]);
      CycleNotClean(deps, c, j + 1);
    }
  }

  /** A cycle makes the search from its first type unclean. */
  lemma CycleFoundFromItsStart(deps: Deps, c: seq<Type>)
    requires IsCycle(deps, c)
    ensures c[0] in deps && !Clean(deps, c[0], [])
  {
    assert Edge(deps, c[0], c[1]);
    CycleNotClean(deps, c, 0);
    assert c[..0] == [];
  }

  /** Closing the walk newPath at an earlier occurrence of t gives a cycle. */
  lemma WalkCloses(deps: Deps, newPath: seq<Type>, t: Type, c: seq<Type>)
    requires |newPath| > 0 && Walk(deps, newPath) && Edge(deps, newPath[|newPath| - 1], t)
    requires exists i :: 0 <= i < |newPath| && newPath[i] == t && c == newPath[i..] + [t]
    ensures IsCycle(deps, c)
  {
    var i :| 0 <= i < |newPath| && newPath[i] == t && c == newPath[i..] + [t];
    forall j | 0 <= j < |c| - 1
      ensures Edge(deps, c[j], c[j + 1])
    {
      if j < |c| - 2 {
        assert c[j] == newPath[i + j] && c[j + 1] == newPath[i + j + 1];
      }
    }
  }

  /** Extending the walk newPath along an edge keeps it a walk. */
  lemma WalkExtends(deps: Deps, newPath: seq<Type>, t: Type)
    requires |newPath| > 0 && Walk(deps, newPath) && Edge(deps, newPath[|newPath| - 1], t)
    ensures Walk(deps, newPath + [t])
  {
    var w := newPath + [t];
    forall j | 0 <= j < |w| - 1
      ensures Edge(deps, w[j], w[j + 1])
    {
      if j < |w| - 2 {
        assert w[j] == newPath[j] && w[j + 1] == newPath[j + 1];
      }
    }
  }

  class CyclicDetector {
    const u: Universe
    var typeDeps: Deps

    /** newCyclicDetector. */
    constructor (u: Universe)
      ensures this.u == u && typeDeps == map[]
    {
      this.u := u;
      typeDeps := map[];
    }

    /** AddDetectObject(v); ok is false for the panic, which leaves the graph as it was. */
    method AddDetectObject(v: Value) returns (ok: bool)
      modifies this
      ensures ok == AddDetect(u, old(typeDeps), v).Some?
      ensures typeDeps == if ok then AddDetect(u, old(typeDeps), v).value else old(typeDeps)
    {
      if IsNilPointer(v) {
        return false;
      }
      var t := Indirect(v.ty);
      if !t.Struct? {
        return true;
      }
      if t in typeDeps {
        return true;
      }
      var fs := FieldsOf(u, t);
      var ts: set<Type> := {};
      var i := 0;
      while i < |fs|
        invariant 0 <= i <= |fs|
        invariant !HasWrongTagged(fs[..i])
        invariant ts + DepsOf(fs[i..]) == DepsOf(fs)
      {
        var field := fs[i];
        if field.tag.Some? {
          if field.ty.Interface? {
          } else if field.ty.Ptr? {
            ts := ts + {field.ty.elem};
          } else {
            assert WrongTaggedField(fs[i]);
            return false;
          }
        }
        assert fs[..i + 1] == fs[..i] + [fs[i]];
        i := i + 1;
      }
      assert fs[..i] == fs;
      typeDeps := typeDeps[t := ts];
      return true;
    }

    /** AddDetectObjects(v...): each object in turn; ok is false at the first panic. */
    method AddDetectObjects(vs: seq<Value>) returns (ok: bool)
      modifies this
      ensures ok == AddDetectAll(u, old(typeDeps), vs).Some?
      ensures ok ==> typeDeps == AddDetectAll(u, old(typeDeps), vs).value
      ensures !ok ==> exists k :: 0 <= k < |vs| &&
                                  AddDetectAll(u, old(typeDeps), vs[..k]) == Some(typeDeps) &&
                                  AddDetect(u, typeDeps, vs[k]).None?
    {
      var i := 0;
      while i < |vs|
        invariant 0 <= i <= |vs|
        invariant AddDetectAll(u, old(typeDeps), vs) == AddDetectAll(u, typeDeps, vs[i..])
        invariant AddDetectAll(u, old(typeDeps), vs[..i]) == Some(typeDeps)
      {
        assert vs[i..][1..] == vs[i + 1..];
        assert vs[..i + 1] == vs[..i] + [vs[i]];
        AddDetectAllSnoc(u, old(typeDeps), vs[..i], vs[i]);
        ok := AddDetectObject(vs[i]);
        if !ok {
          return false;
        }
        i := i + 1;
      }
      assert vs[..i] == vs;
      return true;
    }

    /**
     * traverseTypePath(root, fieldTypes, path): the dependencies of root are visited
     * in an arbitrary order. It reports a cycle exactly when the search is not clean,
     * and a reported path is a cycle of the graph. Each recursive call extends the
     * path with a tracked type that is not on it, which bounds the recursion.
     */
    method TraverseTypePath(root: Type, fieldTypes: set<Type>, path: seq<Type>) returns (found: bool, cycle: seq<Type>)
      requires root in typeDeps && fieldTypes == typeDeps[root]
      requires Walk(typeDeps, path + [root])
      decreases typeDeps.Keys - Elems(path) - {root}
      ensures found == !Clean(typeDeps, root, path)
      ensures found ==> IsCycle(typeDeps, cycle)
      ensures !found ==> cycle == []
    {
      var newPath := path + [root];
      assert Elems(newPath) == Elems(path) + {root};
      var remaining := fieldTypes;
      while remaining != {}
        invariant remaining <= fieldTypes
        invariant forall d :: d in fieldTypes - remaining ==>
          d !in newPath && (d in typeDeps ==> Clean(typeDeps, d, newPath))
        decreases remaining
      {
        var fieldType :| fieldType in remaining;
        var cpath := CyclicPath(newPath, fieldType);
        if cpath.Some? {
          WalkCloses(typeDeps, newPath, fieldType, cpath.value);
          return true, cpath.value;
        }
        if fieldType in typeDeps {
          WalkExtends(typeDeps, newPath, fieldType);
          found, cycle := TraverseTypePath(fieldType, typeDeps[fieldType], newPath);
          if found {
            return;
          }
        }
        remaining := remaining - {fieldType};
      }
      return false, [];
    }

    /**
     * DetectCyclic: the tracked types are tried as roots in an arbitrary order. It
     * reports a cycle exactly when the graph has one, and the reported path is one.
     */
    method DetectCyclic() returns (found: bool, cycle: seq<Type>)
      ensures found <==> HasCycle(typeDeps)
      ensures found ==> IsCycle(typeDeps, cycle)
      ensures !found ==> cycle == []
    {
      var roots := typeDeps.Keys;
      while roots != {}
        invariant roots <= typeDeps.Keys
        invariant forall r :: r in typeDeps.Keys - roots ==> Clean(typeDeps, r, [])
        decreases roots
      {
        var root :| root in roots;
        found, cycle := TraverseTypePath(root, typeDeps[root], []);
        if found {
          return;
        }
        roots := roots - {root};
      }
      if HasCycle(typeDeps) {
        var c :| IsCycle(typeDeps, c);
        CycleFoundFromItsStart(typeDeps, c);
      }
      return false, [];
    }
  }

  const S1 := Struct("cyclicStruct1")
  const S2 := Struct("cyclicStruct2")
  const S3 := Struct("cyclicStruct3")
  const N1 := Struct("cyclicNormal1")
  const N2 := Struct("cyclicNormal2")

  /** The detector's test types: struct 1 -> 2 -> 3 -> 1 through injected pointers, and normal 2 -> 1. */
  const CYCLIC_SAMPLE: Universe := Universe(
    map["cyclicStruct1" := [FieldDecl("CS2", Ptr(S2), Some(""))],
        "cyclicStruct2" := [FieldDecl("CS3", Ptr(S3), Some(""))],
        "cyclicStruct3" := [FieldDecl("CS1", Ptr(S1), Some("")),
                            FieldDecl("Name", Basic("string"), None),
                            FieldDecl("Stringer", Interface("Stringer"), Some(""))],
        "cyclicNormal1" := [FieldDecl("Name", Basic("string"), None)],
        "cyclicNormal2" := [FieldDecl("Name", Basic("string"), None),
                            FieldDecl("Normal1", Ptr(N1), Some(""))]],
    {}, {}, {})

  /** The fields of cyclicStruct3 are well typed and give the single dependency cyclicStruct1. */
  lemma Struct3Deps()
    ensures !HasWrongTagged(FieldsOf(CYCLIC_SAMPLE, S3))
    ensures DepsOf(FieldsOf(CYCLIC_SAMPLE, S3)) == {S1}
  {
    var fs := FieldsOf(CYCLIC_SAMPLE, S3);
    assert |fs| == 3;
    forall j | 0 <= j < |fs|
      ensures !WrongTaggedField(fs[j])
    {
    }
    assert fs[1..][1..] == fs[2..] && fs[2..][1..] == [];
    assert DepsOf(fs[2..]) == {};
    assert DepsOf(fs[1..]) == {};
  }

  /** Tracking cyclicStruct3 alone records one type with one dependency; its interface field is skipped. */
  lemma SampleAddStruct3()
    ensures AddDetectAll(CYCLIC_SAMPLE, map[], [Value(3, Ptr(S3))]) == Some(map[S3 := {S1}])
  {
    Struct3Deps();
    var vs := [Value(3, Ptr(S3))];
    assert AddDetect(CYCLIC_SAMPLE, map[], vs[0]) == Some(map[S3 := {S1}]);
    assert vs[1..] == [];
  }

  /** The three cyclic structs give the 3-cycle, and the graph has a cycle. */
  lemma SampleThreeCycle()
    ensures AddDetectAll(CYCLIC_SAMPLE, map[], [Value(1, Ptr(S1)), Value(2, Ptr(S2)), Value(3, Ptr(S3))])
      == Some(map[S1 := {S2}, S2 := {S3}, S3 := {S1}])
    ensures HasCycle(map[S1 := {S2}, S2 := {S3}, S3 := {S1}])
  {
    var vs := [Value(1, Ptr(S1)), Value(2, Ptr(S2)), Value(3, Ptr(S3))];
    var f1 := FieldsOf(CYCLIC_SAMPLE, S1);
    var f2 := FieldsOf(CYCLIC_SAMPLE, S2);
    assert |f1| == 1 && !WrongTaggedField(f1[0]) && f1[1..] == [];
    assert |f2| == 1 && !WrongTaggedField(f2[0]) && f2[1..] == [];
    assert DepsOf(f1) == {S2};
    assert DepsOf(f2) == {S3};
    Struct3Deps();
    var d1 := map[S1 := {S2}];
    var d2 := map[S1 := {S2}, S2 := {S3}];
    var d3 := map[S1 := {S2}, S2 := {S3}, S3 := {S1}];
    assert AddDetect(CYCLIC_SAMPLE, map[], vs[0]) == Some(d1);
    assert AddDetect(CYCLIC_SAMPLE, d1, vs[1]) == Some(d2);
    assert AddDetect(CYCLIC_SAMPLE, d2, vs[2]) == Some(d3);
    assert vs[1..][0] == vs[1] && vs[1..][1..] == [vs[2]] && [vs[2]][1..] == [];
    assert AddDetectAll(CYCLIC_SAMPLE, d2, [vs[2]]) == Some(d3);
    assert AddDetectAll(CYCLIC_SAMPLE, d1, vs[1..]) == Some(d3);
    assert IsCycle(d3, [S1, S2, S3, S1]);
  }

  /** The two normal structs give the graph normal2 -> normal1, which has no cycle. */
  lemma SampleNoCycle()
    ensures AddDetectAll(CYCLIC_SAMPLE, map[], [Value(4, Ptr(N1)), Value(5, Ptr(N2))]) == Some(map[N1 := {}, N2 := {N1}])
    ensures !HasCycle(map[N1 := {}, N2 := {N1}])
  {
    var vs := [Value(4, Ptr(N1)), Value(5, Ptr(N2))];
    var f1 := FieldsOf(CYCLIC_SAMPLE, N1);
    var f2 := FieldsOf(CYCLIC_SAMPLE, N2);
    assert |f1| == 1 && !WrongTaggedField(f1[0]) && f1[1..] == [];
    assert |f2| == 2 && !WrongTaggedField(f2[0]) && !WrongTaggedField(f2[1]);
    assert f2[1..][1..] == [];
    forall j | 0 <= j < |f2|
      ensures !WrongTaggedField(f2[j])
    {
    }
    assert DepsOf(f1) == {};
    assert DepsOf(f2[1..]) == {N1};
    assert DepsOf(f2) == {N1};
    var d1 := map[N1 := {}];
    var deps := map[N1 := {}, N2 := {N1}];
    assert AddDetect(CYCLIC_SAMPLE, map[], vs[0]) == Some(d1);
    assert AddDetect(CYCLIC_SAMPLE, d1, vs[1]) == Some(deps);
    assert vs[1..][0] == vs[1] && vs[1..][1..] == [];
    assert AddDetectAll(CYCLIC_SAMPLE, d1, vs[1..]) == Some(deps);
    forall c | Walk(deps, c) && |c| >= 2
      ensures |c| == 2 && c[0] == N2 && c[1] == N1
    {
      assert Edge(deps, c[0], c[1]);
      assert |c| > 2 ==> Edge(deps, c[1], c[2]);
    }
  }

  /** cyclicPath on [*normal1, *normal2] for *normal1 closes the path at its start. */
  lemma SampleCyclicPath()
    ensures CyclicPath([Ptr(N1), Ptr(N2)], Ptr(N1)) == Some([Ptr(N1), Ptr(N2), Ptr(N1)])
  {
    var p := [Ptr(N1), Ptr(N2)];
    assert FirstIndex(p, Ptr(N1)) == 0;
    assert p[0..] + [Ptr(N1)] == [Ptr(N1), Ptr(N2), Ptr(N1)];
  }

  /**
   * The detection test: the three cyclic structs are reported with a cycle of the
   * graph, and the two normal structs are reported as acyclic with an empty path.
   */
  method SampleDetect() returns (cyclicFound: bool, cyclicPath: seq<Type>, normalFound: bool, normalPath: seq<Type>)
    ensures cyclicFound && IsCycle(map[S1 := {S2}, S2 := {S3}, S3 := {S1}], cyclicPath)
    ensures !normalFound && normalPath == []
  {
    SampleThreeCycle();
    SampleNoCycle();
    var detector := new CyclicDetector(CYCLIC_SAMPLE);
    var ok := detector.AddDetectObjects([Value(1, Ptr(S1)), Value(2, Ptr(S2)), Value(3, Ptr(S3))]);
    cyclicFound, cyclicPath := detector.DetectCyclic();
    detector := new CyclicDetector(CYCLIC_SAMPLE);
    ok := detector.AddDetectObjects([Value(4, Ptr(N1)), Value(5, Ptr(N2))]);
    normalFound, normalPath := detector.DetectCyclic();
  }
}
