/**
 * The Container: registration of objects and factory functions, the calls it
 * makes into the fulfillment checker, the label-selected run of the factories,
 * and the fulfillment gate that Populate passes before handing everything to
 * the external injection graph.
 */
module Inject {
  import opened Types
  import opened Checker
  import opened InjectFuncs

  /** funcValue: a registered factory with its label and receiver. */
  datatype FuncValue = FuncValue(fn: Func, fnLabel: string, receiver: Option<Value>)

  /** A FuncLabelSelector: None for a nil selector, otherwise the labels its IsLabelAllowed accepts. */
  type Selector = Option<set<string>>

  /** A factory is called when there is no selector, when it has no label, or when its label is allowed. */
  predicate Selected(sel: Selector, lbl: string)
  {
    sel.None? || lbl == "" || lbl in sel.value
  }

  /** The shape Provide and ProvideByName accept: an interface value, or a pointer whose pointee is a struct. */
  predicate IsStructPtrOrInterface(v: Value)
  {
    v.ty.Interface? || (v.ty.Ptr? && v.ty.elem.Struct?)
  }

  /** A value of that shape that is not a nil pointer. */
  predicate Shaped(v: Value)
  {
    IsStructPtrOrInterface(v) && !IsNilPointer(v)
  }

  /**
   * isStructPtrOrInterface(v): true for an interface value and for a pointer
   * to a struct, false for any other kind; a nil pointer panics, since the
   * zero Value Indirect makes of it has no type.
   */
  function StructPtrOrInterface(v: Value): (r: Result<bool>)
    ensures r.Failure? <==> IsNilPointer(v)
    ensures r.Failure? ==> r.error == ZeroValue(v)
    ensures r.Success? ==> (r.value <==> Shaped(v))
  {
    match v.ty
    case Interface(_) => Success(true)
    case Ptr(elem) => if IsNil(v) then Failure(ZeroValue(v)) else Success(elem.Struct?)
    case _ => Success(false)
  }

  /** The checker calls one registration makes: pop what v fulfils (by name or by type), then push v's fields. */
  function Register(u: Universe, s: State, name: Option<string>, v: Value): State
  {
    Push(u, if name.None? then PopUnnamed(u, s, v) else PopNamed(s, name.value, v), v)
  }

  /** The checker after the unnamed registrations of vs, in order. */
  function RegisterAll(u: Universe, s: State, vs: seq<Value>): State
    decreases |vs|
  {
    if vs == [] then s else Register(u, RegisterAll(u, s, vs[..|vs| - 1]), None, vs[|vs| - 1])
  }

  /** The prefix of s one element longer. */
  lemma TakeNext<T>(s: seq<T>, i: nat)
    requires i < |s|
    ensures s[..i + 1] == s[..i] + [s[i]]
  {
  }

  /** Registering one more value of vs extends the registrations of the prefix before it. */
  lemma RegisterAllNext(u: Universe, s: State, vs: seq<Value>, i: nat)
    requires i < |vs|
    ensures RegisterAll(u, s, vs[..i + 1]) == Register(u, RegisterAll(u, s, vs[..i]), None, vs[i])
  {
    assert vs[..i + 1][..i] == vs[..i];
  }

  /** The set of types of vs. */
  function TypesOf(vs: seq<Value>): set<Type>
    decreases |vs|
  {
    if vs == [] then {} else TypesOf(vs[..|vs| - 1]) + {vs[|vs| - 1].ty}
  }

  /** One unnamed registration binds v's type unless it is bound already, and touches no named binding. */
  lemma RegisterBinds(u: Universe, s: State, v: Value)
    ensures Register(u, s, None, v).unnamedValues.Keys == s.unnamedValues.Keys + {v.ty}
    ensures forall t :: t in s.unnamedValues ==> Register(u, s, None, v).unnamedValues[t] == s.unnamedValues[t]
    ensures Register(u, s, None, v).namedValues == s.namedValues
  {
  }

  /**
   * Registering values binds the type of each, and an already bound type keeps
   * its binding: the first object of a type wins, whatever comes after it.
   */
  lemma {:induction false} RegisterAllBindings(u: Universe, s: State, vs: seq<Value>)
    ensures RegisterAll(u, s, vs).unnamedValues.Keys == s.unnamedValues.Keys + TypesOf(vs)
    ensures forall t :: t in s.unnamedValues ==> RegisterAll(u, s, vs).unnamedValues[t] == s.unnamedValues[t]
    ensures RegisterAll(u, s, vs).namedValues == s.namedValues
    decreases |vs|
  {
    if vs != [] {
      var init := vs[..|vs| - 1];
      RegisterAllBindings(u, s, init);
      RegisterBinds(u, RegisterAll(u, s, init), vs[|vs| - 1]);
    }
  }

  /** Provide accepts a non-nil pointer to a struct or an interface whose unnamed tags are well typed. */
  predicate Accepted(u: Universe, v: Value)
  {
    Shaped(v) && PushOk(u, v)
  }

  /** The index of the first value Provide panics on, or |vs| if there is none. */
  function FirstRejected(u: Universe, vs: seq<Value>): (k: nat)
    ensures k <= |vs|
    ensures forall j :: 0 <= j < k ==> Accepted(u, vs[j])
    ensures k < |vs| ==> !Accepted(u, vs[k])
  {
    if vs == [] then 0
    else if !Accepted(u, vs[0]) then 0
    else 1 + FirstRejected(u, vs[1..])
  }

  /** A rejected value after accepted ones is the first rejected one. */
  lemma FirstRejectedAt(u: Universe, vs: seq<Value>, i: nat)
    requires i < |vs| && !Accepted(u, vs[i]) && forall j :: 0 <= j < i ==> Accepted(u, vs[j])
    ensures FirstRejected(u, vs) == i
  {
  }

  /** An accepted value at an index no later than the first rejection moves the first rejection past it. */
  lemma FirstRejectedAfter(u: Universe, vs: seq<Value>, i: nat)
    requires i < |vs| && i <= FirstRejected(u, vs) && Accepted(u, vs[i])
    ensures i + 1 <= FirstRejected(u, vs)
  {
  }

  /**
   * The step Provide takes at objs[i], once the values before it are
   * registered: it registers objs[i] too, or objs[i] is the first rejected value.
   */
  lemma ProvideStepNext(u: Universe, s0: State, objs: seq<Value>, i: nat)
    requires i < |objs| && i <= FirstRejected(u, objs)
    ensures var st := ProvideStep(u, RegisterAll(u, s0, objs[..i]), objs[i]);
      (st.1.None? ==> i + 1 <= FirstRejected(u, objs) && st.0 == RegisterAll(u, s0, objs[..i + 1])) &&
      (st.1.Some? ==> i == FirstRejected(u, objs))
  {
    if Accepted(u, objs[i]) {
      FirstRejectedAfter(u, objs, i);
      RegisterAllNext(u, s0, objs, i);
    } else {
      FirstRejectedAt(u, objs, i);
    }
  }

  /**
   * Provide's work on one value: the checker state after it, and the panic,
   * if any. A nil pointer, or a value that is not a struct pointer or an
   * interface, panics in the shape check before any checker call; one with a
   * wrongly typed unnamed field panics after its pop and its partial push.
   */
  function ProvideStep(u: Universe, s: State, v: Value): (r: (State, Option<Error>))
    ensures r.1.None? <==> Accepted(u, v)
    ensures IsNilPointer(v) ==> r == (s, Some(ZeroValue(v)))
    ensures Shaped(v) ==> r.0 == Register(u, s, None, v)
    ensures Shaped(v) && r.1.Some? ==> r.1.value.FieldWrongType?
    ensures !IsNilPointer(v) && !IsStructPtrOrInterface(v) ==> r == (s, Some(ValueNotPtrOrInterface))
  {
    match StructPtrOrInterface(v)
    case Failure(e) => (s, Some(e))
    case Success(ok) =>
      if !ok then (s, Some(ValueNotPtrOrInterface))
      else
        var s1 := Register(u, s, None, v);
        (s1, if PushOk(u, v) then None else Some(PushFailure(u, v)))
  }

  /** The index of the first factory ProvideFunc panics on, or |fs| if there is none. */
  function FirstInvalid(fs: seq<InjectFunc>): (k: nat)
    ensures k <= |fs|
    ensures forall j :: 0 <= j < k ==> Validate(fs[j]).None?
    ensures k < |fs| ==> Validate(fs[k]).Some?
  {
    if fs == [] then 0
    else if Validate(fs[0]).Some? then 0
    else 1 + FirstInvalid(fs[1..])
  }

  /** An invalid factory after valid ones is the first invalid one. */
  lemma FirstInvalidAt(fs: seq<InjectFunc>, i: nat)
    requires i < |fs| && Validate(fs[i]).Some? && forall j :: 0 <= j < i ==> Validate(fs[j]).None?
    ensures FirstInvalid(fs) == i
  {
  }

  /** A valid factory at an index no later than the first invalid one moves the first invalid one past it. */
  lemma FirstInvalidAfter(fs: seq<InjectFunc>, i: nat)
    requires i < |fs| && i <= FirstInvalid(fs) && Validate(fs[i]).None?
    ensures i + 1 <= FirstInvalid(fs)
  {
  }

  /** Registering one more valid factory appends its funcValue. */
  lemma RegisteredAllNext(fs: seq<InjectFunc>, i: nat)
    requires i < |fs| && forall j :: 0 <= j <= i ==> Validate(fs[j]).None?
    ensures RegisteredAll(fs[..i + 1]) == RegisteredAll(fs[..i]) + [Registered(fs[i])]
  {
    assert fs[..i + 1][..i] == fs[..i];
  }

  /** The funcValue stored for a validated factory. */
  function Registered(ifn: InjectFunc): FuncValue
    requires Validate(ifn).None?
  {
    FuncValue(ifn.fn.f, ifn.fnLabel, ifn.receiver)
  }

  /** The funcValues stored for validated factories, in order. */
  function RegisteredAll(fs: seq<InjectFunc>): (r: seq<FuncValue>)
    requires forall j :: 0 <= j < |fs| ==> Validate(fs[j]).None?
    ensures |r| == |fs|
    ensures forall j :: 0 <= j < |fs| ==> r[j] == Registered(fs[j])
    decreases |fs|
  {
    if fs == [] then [] else RegisteredAll(fs[..|fs| - 1]) + [Registered(fs[|fs| - 1])]
  }

  /** One factory for newObjectsByFunctions to run: its name (None for an unnamed one) and its funcValue. */
  datatype Job = Job(name: Option<string>, f: FuncValue)

  /** The unnamed factories, in slice order. */
  function UnnamedJobs(fs: seq<FuncValue>): (js: seq<Job>)
    ensures |js| == |fs|
    ensures forall j :: 0 <= j < |fs| ==> js[j] == Job(None, fs[j])
  {
    if fs == [] then [] else [Job(None, fs[0])] + UnnamedJobs(fs[1..])
  }

  /** The named factories, in the order the map iteration visits their names. */
  function NamedJobs(nf: map<string, FuncValue>, order: seq<string>): (js: seq<Job>)
    requires forall n :: n in order ==> n in nf
    ensures |js| == |order|
    ensures forall j :: 0 <= j < |order| ==> js[j] == Job(Some(order[j]), nf[order[j]])
  {
    if order == [] then [] else [Job(Some(order[0]), nf[order[0]])] + NamedJobs(nf, order[1..])
  }

  /**
   * The state newObjectsByFunctions works on: the checker, the container's
   * unnamed and named values, the cells receivers point to, the factories
   * called so far, and the panic that stopped the run, if any.
   */
  datatype Run = Run(
    s: State,
    unnamed: seq<Value>,
    named: map<string, Value>,
    cells: map<nat, Value>,
    calls: seq<Func>,
    err: Option<Error>)

  /** One factory: skip it unless selected; call it; store the object through the receiver; register it. */
  function Step(u: Universe, sel: Selector, call: Func -> seq<Value>, r: Run, job: Job): Run
  {
    if !Selected(sel, job.f.fnLabel) then r
    else
      var called := r.(calls := r.calls + [job.f.fn]);
      match Create(call(job.f.fn))
      case Failure(e) => called.(err := Some(e))
      case Success((v, failed)) =>
        if failed.Some? then called.(err := Some(FunctionFailed(job.name, failed.value)))
        else
          match SetReceiver(u, job.f.receiver, v, r.cells)
          case Failure(e) => called.(err := Some(e))
          case Success(cells) =>
            var s := Register(u, r.s, job.name, v);
            if !PushOk(u, v) then called.(s := s, cells := cells, err := Some(PushFailure(u, v)))
            else if job.name.None? then called.(s := s, cells := cells, unnamed := r.unnamed + [v])
            else called.(s := s, cells := cells, named := r.named[job.name.value := v])
  }

  /** The run of the jobs js, in order, from r, up to the first panic. */
  function RunAll(u: Universe, sel: Selector, call: Func -> seq<Value>, r: Run, js: seq<Job>): Run
    decreases |js|
  {
    if js == [] || r.err.Some? then r else RunAll(u, sel, call, Step(u, sel, call, r, js[0]), js[1..])
  }

  lemma AppendAssoc<T>(a: seq<T>, b: seq<T>, c: seq<T>)
    ensures (a + b) + c == a + (b + c)
  {
  }

  /** A run that has not panicked takes its first job, then runs the rest. */
  lemma RunAllCons(u: Universe, sel: Selector, call: Func -> seq<Value>, r: Run, js: seq<Job>)
    requires js != [] && r.err.None?
    ensures RunAll(u, sel, call, r, js) == RunAll(u, sel, call, Step(u, sel, call, r, js[0]), js[1..])
  {
  }

  /** A run that has panicked takes no further job. */
  lemma RunAllStopped(u: Universe, sel: Selector, call: Func -> seq<Value>, r: Run, js: seq<Job>)
    requires r.err.Some?
    ensures RunAll(u, sel, call, r, js) == r
  {
  }

  /** From job i on, a run that has not panicked takes job i, then runs the jobs after it. */
  lemma RunAllAt(u: Universe, sel: Selector, call: Func -> seq<Value>, r: Run, js: seq<Job>, i: nat)
    requires i < |js| && r.err.None?
    ensures RunAll(u, sel, call, r, js[i..]) == RunAll(u, sel, call, Step(u, sel, call, r, js[i]), js[i + 1..])
  {
    assert js[i..][1..] == js[i + 1..];
  }

  /** A run with no job left, or that has panicked, ends where it is. */
  lemma RunAllDone(u: Universe, sel: Selector, call: Func -> seq<Value>, r: Run, js: seq<Job>, i: nat)
    requires i <= |js| && (i == |js| || r.err.Some?)
    ensures RunAll(u, sel, call, r, js[i..]) == r
  {
  }

  /** Running a + b runs a, then b. */
  lemma {:induction false} RunAllConcat(u: Universe, sel: Selector, call: Func -> seq<Value>, r: Run, a: seq<Job>, b: seq<Job>)
    ensures RunAll(u, sel, call, r, a + b) == RunAll(u, sel, call, RunAll(u, sel, call, r, a), b)
    decreases |a|
  {
    if a == [] {
      assert a + b == b;
    } else if r.err.None? {
      assert (a + b)[1..] == a[1..] + b;
      RunAllConcat(u, sel, call, Step(u, sel, call, r, a[0]), a[1..], b);
    } else if b != [] {
      assert a + b != [];
    }
  }

  /** The factories among js that the selector lets run, in order. */
  function SelectedCalls(sel: Selector, js: seq<Job>): seq<Func>
    decreases |js|
  {
    if js == [] then [] else CalledBy(sel, js[0]) + SelectedCalls(sel, js[1..])
  }

  /** The factory of a job the selector lets run. */
  function CalledBy(sel: Selector, job: Job): seq<Func>
  {
    if Selected(sel, job.f.fnLabel) then [job.f.fn] else []
  }

  /** The objects the selected unnamed jobs among js return, in order. */
  function Created(sel: Selector, call: Func -> seq<Value>, js: seq<Job>): seq<Value>
    decreases |js|
  {
    if js == [] then [] else CreatedBy(sel, call, js[0]) + Created(sel, call, js[1..])
  }

  /** The object a selected unnamed job returns first, if any. */
  function CreatedBy(sel: Selector, call: Func -> seq<Value>, job: Job): seq<Value>
  {
    var ret := call(job.f.fn);
    if job.name.None? && Selected(sel, job.f.fnLabel) && ret != [] then [ret[0]] else []
  }

  /** One step that does not panic adds its call when the factory is selected. */
  lemma StepCalls(u: Universe, sel: Selector, call: Func -> seq<Value>, r: Run, job: Job)
    ensures var r1 := Step(u, sel, call, r, job);
      r1.err.None? ==>
        r1.calls == r.calls + CalledBy(sel, job)
  {
  }

  /** One step that does not panic adds, for a selected unnamed factory, the object it returns. */
  lemma StepUnnamed(u: Universe, sel: Selector, call: Func -> seq<Value>, r: Run, job: Job)
    ensures var r1 := Step(u, sel, call, r, job);
      r1.err.None? ==> r1.unnamed == r.unnamed + CreatedBy(sel, call, job)
  {
  }

  /** A run that completes calls exactly the selected factories, in order. */
  lemma {:induction false} RunCallsSelected(u: Universe, sel: Selector, call: Func -> seq<Value>, r: Run, js: seq<Job>)
    requires r.err.None?
    ensures var e := RunAll(u, sel, call, r, js);
      e.err.None? ==> e.calls == r.calls + SelectedCalls(sel, js)
    decreases |js|
  {
    if js != [] {
      var r1 := Step(u, sel, call, r, js[0]);
      StepCalls(u, sel, call, r, js[0]);
      RunAllCons(u, sel, call, r, js);
      if r1.err.None? {
        RunCallsSelected(u, sel, call, r1, js[1..]);
        AppendAssoc(r.calls, CalledBy(sel, js[0]), SelectedCalls(sel, js[1..]));
      } else {
        RunAllStopped(u, sel, call, r1, js[1..]);
      }
    }
  }

  /** A run that completes appends exactly the objects the selected unnamed factories return, in order. */
  lemma {:induction false} RunCreatesUnnamed(u: Universe, sel: Selector, call: Func -> seq<Value>, r: Run, js: seq<Job>)
    requires r.err.None?
    ensures var e := RunAll(u, sel, call, r, js);
      e.err.None? ==> e.unnamed == r.unnamed + Created(sel, call, js)
    decreases |js|
  {
    if js != [] {
      var r1 := Step(u, sel, call, r, js[0]);
      StepUnnamed(u, sel, call, r, js[0]);
      RunAllCons(u, sel, call, r, js);
      if r1.err.None? {
        RunCreatesUnnamed(u, sel, call, r1, js[1..]);
        AppendAssoc(r.unnamed, CreatedBy(sel, call, js[0]), Created(sel, call, js[1..]));
      } else {
        RunAllStopped(u, sel, call, r1, js[1..]);
      }
    }
  }

  /** A completed run got a result without error from every selected factory. */
  lemma {:induction false} RunSucceededEverywhere(u: Universe, sel: Selector, call: Func -> seq<Value>, r: Run, js: seq<Job>, k: nat)
    requires r.err.None? && k < |js| && Selected(sel, js[k].f.fnLabel)
    requires RunAll(u, sel, call, r, js).err.None?
    ensures Create(call(js[k].f.fn)).Success? && Create(call(js[k].f.fn)).value.1.None?
    decreases |js|
  {
    var r1 := Step(u, sel, call, r, js[0]);
    if k > 0 {
      assert js[1..][k - 1] == js[k];
      RunSucceededEverywhere(u, sel, call, r1, js[1..], k - 1);
    }
  }

  /**
   * A selected factory that returns an error aborts the run: the factories
   * after it are never called, and the run ends with that error.
   */
  lemma FailedFactoryAborts(u: Universe, sel: Selector, call: Func -> seq<Value>, r: Run, js: seq<Job>, k: nat, v: Value, e: Value)
    requires k < |js| && RunAll(u, sel, call, r, js[..k]).err.None?
    requires Selected(sel, js[k].f.fnLabel) && Create(call(js[k].f.fn)) == Success((v, Some(e)))
    ensures RunAll(u, sel, call, r, js).err == Some(FunctionFailed(js[k].name, e))
    ensures RunAll(u, sel, call, r, js).calls == RunAll(u, sel, call, r, js[..k]).calls + [js[k].f.fn]
  {
    assert js == js[..k] + js[k..];
    RunAllConcat(u, sel, call, r, js[..k], js[k..]);
  }

  /** The labelled factories of the label-selection test: with only "b2" allowed, "b1" is skipped and the rest run. */
  lemma LabelSelectionSample(f1: Func, f2: Func, fa: Func)
    ensures var js := [Job(None, FuncValue(f1, "b1", None)), Job(None, FuncValue(f2, "b2", None)), Job(None, FuncValue(fa, "", None))];
      SelectedCalls(Some({"b2"}), js) == [f2, fa] && SelectedCalls(None, js) == [f1, f2, fa]
  {
    var js := [Job(None, FuncValue(f1, "b1", None)), Job(None, FuncValue(f2, "b2", None)), Job(None, FuncValue(fa, "", None))];
    assert js[1..][1..][1..] == [];
    assert SelectedCalls(Some({"b2"}), js[1..][1..]) == [fa];
    assert SelectedCalls(None, js[1..][1..]) == [fa];
  }

  /** Container. */
  class Container {
    const checker: InjectChecker
    var namedValues: map<string, Value>
    var unnamedValues: seq<Value>
    var namedFunctions: map<string, FuncValue>
    var unnamedFunctions: seq<FuncValue>

    ghost predicate Valid()
      reads this, checker
    {
      checker.Valid()
    }

    /** The checker and the value collections are those of run r, which has reached err. */
    ghost predicate Reflects(r: Run, cells: map<nat, Value>, err: Option<Error>)
      reads this, checker
    {
      r.s == checker.Snapshot() && r.unnamed == unnamedValues && r.named == namedValues &&
      r.cells == cells && r.err == err
    }

    /** NewContainer. */
    constructor (u: Universe)
      ensures Valid() && fresh(checker) && checker.u == u && checker.Snapshot() == EMPTY
      ensures namedValues == map[] && unnamedValues == [] && namedFunctions == map[] && unnamedFunctions == []
    {
      checker := new InjectChecker(u);
      namedValues := map[];
      unnamedValues := [];
      namedFunctions := map[];
      unnamedFunctions := [];
    }

    /** The checker calls for one value: pop what it fulfils, by name or by type, then push its fields. */
    method RegisterValue(name: Option<string>, v: Value) returns (ok: bool)
      requires Valid()
      modifies checker
      ensures Valid()
      ensures ok == PushOk(checker.u, v)
      ensures checker.Snapshot() == Register(checker.u, old(checker.Snapshot()), name, v)
    {
      if name.None? {
        checker.PopFulfilledUnnamedValues(v);
      } else {
        checker.PopFulfilledNamedValues(name.value, v);
      }
      ok := checker.PushInjectedFields(v);
    }

    /** The body of Provide's loop for one value v, as ProvideStep describes it. */
    method ProvideValue(v: Value) returns (err: Option<Error>)
      requires Valid()
      modifies this, checker
      ensures Valid()
      ensures (checker.Snapshot(), err) == ProvideStep(checker.u, old(checker.Snapshot()), v)
      ensures unnamedValues == old(unnamedValues) + (if err.None? then [v] else [])
      ensures namedValues == old(namedValues) && namedFunctions == old(namedFunctions) && unnamedFunctions == old(unnamedFunctions)
    {
      var shape := StructPtrOrInterface(v);
      if shape.Failure? {
        err := Some(shape.error);
      } else if !shape.value {
        err := Some(ValueNotPtrOrInterface);
      } else {
        var ok := RegisterValue(None, v);
        if ok {
          unnamedValues := unnamedValues + [v];
          err := None;
        } else {
          err := Some(PushFailure(checker.u, v));
        }
      }
    }

    /**
     * Provide: each value in argument order is checked, popped, pushed and
     * appended. Exactly the values before the first rejected one are
     * registered and appended; the rejected one ends the call with its
     * ProvideStep, the state after its pop and partial push included.
     */
    method Provide(objs: seq<Value>) returns (err: Option<Error>)
      requires Valid()
      modifies this, checker
      ensures Valid()
      ensures var k := FirstRejected(checker.u, objs);
        var before := RegisterAll(checker.u, old(checker.Snapshot()), objs[..k]);
        unnamedValues == old(unnamedValues) + objs[..k] &&
        (k == |objs| ==> err.None? && checker.Snapshot() == before) &&
        (k < |objs| ==> (checker.Snapshot(), err) == ProvideStep(checker.u, before, objs[k]))
      ensures namedValues == old(namedValues) && namedFunctions == old(namedFunctions) && unnamedFunctions == old(unnamedFunctions)
    {
      ghost var s0 := checker.Snapshot();
      var i := 0;
      err := None;
      while i < |objs|
        invariant i <= FirstRejected(checker.u, objs) && Valid() && err.None?
        invariant checker.Snapshot() == RegisterAll(checker.u, s0, objs[..i])
        invariant unnamedValues == old(unnamedValues) + objs[..i]
        invariant namedValues == old(namedValues) && namedFunctions == old(namedFunctions) && unnamedFunctions == old(unnamedFunctions)
      {
        ProvideStepNext(checker.u, s0, objs, i);
        err := ProvideValue(objs[i]);
        if err.Some? {
          break;
        }
        TakeNext(objs, i);
        i := i + 1;
      }
    }

    /**
     * ProvideByName: the value must be a non-nil struct pointer or an
     * interface, and the name must not be a named value yet (named functions
     * are not consulted); then the name is popped, the fields pushed and the
     * value stored.
     */
    method ProvideByName(name: string, obj: Value) returns (err: Option<Error>)
      requires Valid()
      modifies this, checker
      ensures Valid()
      ensures IsNilPointer(obj) ==> err == Some(ZeroValue(obj))
      ensures !IsNilPointer(obj) && !IsStructPtrOrInterface(obj) ==> err == Some(ValueNotPtrOrInterface)
      ensures Shaped(obj) && name in old(namedValues) ==> err == Some(DuplicateObjectName(name))
      ensures Shaped(obj) && name !in old(namedValues) ==>
        checker.Snapshot() == Register(checker.u, old(checker.Snapshot()), Some(name), obj) &&
        (err.None? <==> PushOk(checker.u, obj)) &&
        (err.Some? ==> err == Some(PushFailure(checker.u, obj)) && err.value.FieldWrongType?)
      ensures err.None? ==> namedValues == old(namedValues)[name := obj]
      ensures err.Some? ==> namedValues == old(namedValues)
      ensures err.Some? && !(Shaped(obj) && name !in old(namedValues)) ==> checker.Snapshot() == old(checker.Snapshot())
      ensures unnamedValues == old(unnamedValues) && namedFunctions == old(namedFunctions) && unnamedFunctions == old(unnamedFunctions)
    {
      var shape := StructPtrOrInterface(obj);
      if shape.Failure? {
        return Some(shape.error);
      }
      if !shape.value {
        return Some(ValueNotPtrOrInterface);
      }
      if name in namedValues {
        return Some(DuplicateObjectName(name));
      }
      var ok := RegisterValue(Some(name), obj);
      if !ok {
        return Some(PushFailure(checker.u, obj));
      }
      namedValues := namedValues[name := obj];
      return None;
    }

    /**
     * ProvideFunc: each factory in argument order is validated and appended;
     * the first invalid one panics with the factories before it appended.
     */
    method ProvideFunc(funcs: seq<InjectFunc>) returns (err: Option<Error>)
      modifies this
      ensures var k := FirstInvalid(funcs);
        unnamedFunctions == old(unnamedFunctions) + RegisteredAll(funcs[..k]) &&
        err == (if k < |funcs| then Validate(funcs[k]) else None)
      ensures namedValues == old(namedValues) && unnamedValues == old(unnamedValues) && namedFunctions == old(namedFunctions)
    {
      var i := 0;
      err := None;
      while i < |funcs|
        invariant 0 <= i <= FirstInvalid(funcs) && err.None?
        invariant unnamedFunctions == old(unnamedFunctions) + RegisteredAll(funcs[..i])
        invariant namedValues == old(namedValues) && unnamedValues == old(unnamedValues) && namedFunctions == old(namedFunctions)
      {
        var ifn := funcs[i];
        err := Validate(ifn);
        if err.Some? {
          FirstInvalidAt(funcs, i);
          break;
        }
        FirstInvalidAfter(funcs, i);
        RegisteredAllNext(funcs, i);
        unnamedFunctions := unnamedFunctions + [Registered(ifn)];
        i := i + 1;
      }
    }

    /**
     * ProvideFuncByName: the factory must be valid, and the name must be
     * neither a named function nor a named value, tested in that order.
     */
    method ProvideFuncByName(name: string, ifn: InjectFunc) returns (err: Option<Error>)
      modifies this
      ensures Validate(ifn).Some? ==> err == Validate(ifn)
      ensures Validate(ifn).None? && name in old(namedFunctions) ==> err == Some(DuplicateFunctionName(name))
      ensures Validate(ifn).None? && name !in old(namedFunctions) && name in old(namedValues) ==>
        err == Some(DuplicateObjectName(name))
      ensures err.None? <==> Validate(ifn).None? && name !in old(namedFunctions) && name !in old(namedValues)
      ensures err.None? ==> namedFunctions == old(namedFunctions)[name := Registered(ifn)]
      ensures err.Some? ==> namedFunctions == old(namedFunctions)
      ensures namedValues == old(namedValues) && unnamedValues == old(unnamedValues) && unnamedFunctions == old(unnamedFunctions)
    {
      var bad := Validate(ifn);
      if bad.Some? {
        return bad;
      }
      if name in namedFunctions {
        return Some(DuplicateFunctionName(name));
      }
      if name in namedValues {
        return Some(DuplicateObjectName(name));
      }
      namedFunctions := namedFunctions[name := Registered(ifn)];
      return None;
    }

    /** One factory of newObjectsByFunctions, as Step describes it. */
    method RunJob(sel: Selector, call: Func -> seq<Value>, job: Job, cells: map<nat, Value>, ghost r: Run)
      returns (cellsOut: map<nat, Value>, err: Option<Error>)
      requires Valid() && Reflects(r, cells, None)
      modifies this, checker
      ensures Valid() && Reflects(Step(checker.u, sel, call, r, job), cellsOut, err)
      ensures namedFunctions == old(namedFunctions) && unnamedFunctions == old(unnamedFunctions)
    {
      cellsOut, err := cells, None;
      if !Selected(sel, job.f.fnLabel) {
        return;
      }
      var created := Create(call(job.f.fn));
      if created.Failure? {
        return cells, Some(created.error);
      }
      var v := created.value.0;
      if created.value.1.Some? {
        return cells, Some(FunctionFailed(job.name, created.value.1.value));
      }
      var stored := SetReceiver(checker.u, job.f.receiver, v, cells);
      if stored.Failure? {
        return cells, Some(stored.error);
      }
      cellsOut := stored.value;
      var ok := RegisterValue(job.name, v);
      if !ok {
        return cellsOut, Some(PushFailure(checker.u, v));
      }
      if job.name.None? {
        unnamedValues := unnamedValues + [v];
      } else {
        namedValues := namedValues[job.name.value := v];
      }
    }

    /** The jobs js in order, up to the first panic. */
    method RunJobs(sel: Selector, call: Func -> seq<Value>, js: seq<Job>, cells: map<nat, Value>, ghost r: Run)
      returns (cellsOut: map<nat, Value>, err: Option<Error>)
      requires Valid() && Reflects(r, cells, None)
      modifies this, checker
      ensures Valid() && Reflects(RunAll(checker.u, sel, call, r, js), cellsOut, err)
      ensures namedFunctions == old(namedFunctions) && unnamedFunctions == old(unnamedFunctions)
    {
      ghost var cur := r;
      cellsOut, err := cells, None;
      var i := 0;
      while i < |js| && err.None?
        invariant 0 <= i <= |js| && Valid() && Reflects(cur, cellsOut, err)
        invariant RunAll(checker.u, sel, call, r, js) == RunAll(checker.u, sel, call, cur, js[i..])
        invariant namedFunctions == old(namedFunctions) && unnamedFunctions == old(unnamedFunctions)
      {
        cellsOut, err, cur := RunNext(sel, call, js, i, cellsOut, cur);
        i := i + 1;
      }
      RunAllDone(checker.u, sel, call, cur, js, i);
    }

    /** Job i of js, as the step from job i on to the jobs after it. */
    method RunNext(sel: Selector, call: Func -> seq<Value>, js: seq<Job>, i: nat, cells: map<nat, Value>, ghost r: Run)
      returns (cellsOut: map<nat, Value>, err: Option<Error>, ghost next: Run)
      requires i < |js| && Valid() && Reflects(r, cells, None)
      modifies this, checker
      ensures Valid() && Reflects(next, cellsOut, err)
      ensures RunAll(checker.u, sel, call, r, js[i..]) == RunAll(checker.u, sel, call, next, js[i + 1..])
      ensures namedFunctions == old(namedFunctions) && unnamedFunctions == old(unnamedFunctions)
    {
      RunAllAt(checker.u, sel, call, r, js, i);
      cellsOut, err := RunJob(sel, call, js[i], cells, r);
      next := Step(checker.u, sel, call, r, js[i]);
    }

    /** The order in which a map iteration visits the named functions: each name exactly once. */
    method NamedOrder() returns (order: seq<string>)
      ensures forall n :: n in order <==> n in namedFunctions
      ensures forall i, j :: 0 <= i < j < |order| ==> order[i] != order[j]
    {
      order := [];
      var names := namedFunctions.Keys;
      while names != {}
        invariant names <= namedFunctions.Keys
        invariant forall n :: n in order ==> n in namedFunctions && n !in names
        invariant forall n :: n in namedFunctions ==> n in names || n in order
        invariant forall i, j :: 0 <= i < j < |order| ==> order[i] != order[j]
        decreases names
      {
        var n :| n in names;
        order := order + [n];
        names := names - {n};
      }
    }

    /** The run newObjectsByFunctions performs from r when the named factories are visited in the given order. */
    ghost function Factories(sel: Selector, call: Func -> seq<Value>, r: Run, order: seq<string>): Run
      requires forall n :: n in order ==> n in namedFunctions
      reads this, checker
    {
      RunAll(checker.u, sel, call, r, UnnamedJobs(unnamedFunctions) + NamedJobs(namedFunctions, order))
    }

    /**
     * newObjectsByFunctions: the unnamed factories in slice order, then the
     * named ones in the order the map iteration chose (returned as order),
     * up to the first panic.
     */
    method NewObjectsByFunctions(sel: Selector, call: Func -> seq<Value>, cells: map<nat, Value>)
      returns (cellsOut: map<nat, Value>, err: Option<Error>, ghost order: seq<string>)
      requires Valid()
      modifies this, checker
      ensures Valid()
      ensures namedFunctions == old(namedFunctions) && unnamedFunctions == old(unnamedFunctions)
      ensures (forall n :: n in order <==> n in namedFunctions) && (forall i, j :: 0 <= i < j < |order| ==> order[i] != order[j])
      ensures Reflects(Factories(sel, call, Run(old(checker.Snapshot()), old(unnamedValues), old(namedValues), cells, [], None), order),
                       cellsOut, err)
    {
      var names := NamedOrder();
      order := names;
      var js := UnnamedJobs(unnamedFunctions) + NamedJobs(namedFunctions, names);
      cellsOut, err := RunJobs(sel, call, js, cells, Run(checker.Snapshot(), unnamedValues, namedValues, cells, [], None));
    }

    /**
     * Populate, up to the fulfillment gate: run the factories; reconcile the
     * checker; if a requirement is still outstanding, panic with the names and
     * the types that are missing. The injection graph that would follow is not
     * part of this model.
     */
    method Populate(sel: Selector, call: Func -> seq<Value>, cells: map<nat, Value>)
      returns (cellsOut: map<nat, Value>, err: Option<Error>, ghost order: seq<string>)
      requires Valid()
      modifies this, checker
      ensures Valid()
      ensures (forall n :: n in order <==> n in namedFunctions) && (forall i, j :: 0 <= i < j < |order| ==> order[i] != order[j])
      ensures var r := Factories(sel, call, Run(old(checker.Snapshot()), old(unnamedValues), old(namedValues), cells, [], None), order);
        var s := Reconcile(checker.u, r.s);
        cellsOut == r.cells && unnamedValues == r.unnamed && namedValues == r.named &&
        (r.err.Some? ==> err == r.err && checker.Snapshot() == r.s) &&
        (r.err.None? ==>
          checker.Snapshot() == s && (err.None? <==> AllFulfilled(s)) &&
          (err.Some? ==> err == Some(Unfulfilled(s.unfulfilledNamedValues.Keys, UnfulfilledUnnamed(s).Keys))))
    {
      cellsOut, err, order := NewObjectsByFunctions(sel, call, cells);
      if err.Some? {
        return;
      }
      checker.PopRemainedValues();
      if !checker.IsAllFulfilled() {
        var unnamed := checker.GetUnfulfilledUnnamedValues();
        var named := checker.GetUnfulfilledNamedValues();
        return cellsOut, Some(Unfulfilled(named.Keys, unnamed.Keys)), order;
      }
    }
  }
}
