/**
 * Factory functions handed to the container (InjectFunc): the signature rule
 * every factory must meet, the mapping from the results of a call to the
 * created object and its error, and the store of the created object through
 * the optional receiver pointer.
 */
module InjectFuncs {
  import opened Types

  /** A function type: its parameter types and its result types. */
  datatype Signature = Signature(ins: seq<Type>, outs: seq<Type>)

  /** A function value: its identity and its type. */
  datatype Func = Func(id: nat, sig: Signature)

  /**
   * What the Fn field holds: a function, a pointer to a function variable, nil
   * or a nil pointer to a function variable (both indirect to the zero Value),
   * or a value of another type.
   */
  datatype FnValue = Function(f: Func) | FunctionPtr(f: Func) | NilFn | NotFunction(ty: Type)

  /** An InjectFunc: the factory, its label ("" when unlabelled) and the optional receiver pointer. */
  datatype InjectFunc = InjectFunc(fn: FnValue, fnLabel: string, receiver: Option<Value>)

  /** reflect.Indirect(reflect.ValueOf(Fn)), when its kind is Func. */
  function IndirectFn(fn: FnValue): Option<Func>
  {
    if fn.Function? || fn.FunctionPtr? then Some(fn.f) else None
  }

  /** The two factory shapes the container supports: func() T and func() (T, error). */
  predicate Supported(sig: Signature)
  {
    sig.ins == [] && (|sig.outs| == 1 || (|sig.outs| == 2 && sig.outs[1] == ERROR_TYPE))
  }

  /**
   * The signature rule shared by InjectFunc.validate and Container.validateFunc:
   * the first violated condition, in the order the two test them.
   */
  function SignatureError(sig: Signature): (r: Option<Error>)
    ensures r.None? <==> Supported(sig)
    ensures r == Some(ArgumentsNotAllowed) <==> |sig.ins| != 0
    ensures r == Some(WrongResultCount) <==> |sig.ins| == 0 && (|sig.outs| == 0 || |sig.outs| > 2)
    ensures r == Some(SecondResultNotError) <==> |sig.ins| == 0 && |sig.outs| == 2 && sig.outs[1] != ERROR_TYPE
  {
    if |sig.ins| != 0 then Some(ArgumentsNotAllowed)
    else if |sig.outs| <= 0 || |sig.outs| > 2 then Some(WrongResultCount)
    else if |sig.outs| == 2 && sig.outs[1] != ERROR_TYPE then Some(SecondResultNotError)
    else None
  }

  /**
   * InjectFunc.validate: Fn, once indirected, must be a function of a supported
   * shape. Asking the zero Value that a nil Fn indirects to for its type panics
   * before the kind is tested.
   */
  function Validate(ifn: InjectFunc): (r: Option<Error>)
    ensures r.None? <==> IndirectFn(ifn.fn).Some? && Supported(ifn.fn.f.sig)
    ensures ifn.fn.NilFn? ==> r == Some(ZeroFunction)
    ensures ifn.fn.NotFunction? ==> r == Some(ValueNotFunction)
    ensures IndirectFn(ifn.fn).Some? ==> r == SignatureError(ifn.fn.f.sig)
  {
    if ifn.fn.NilFn? then Some(ZeroFunction)
    else match IndirectFn(ifn.fn)
      case None => Some(ValueNotFunction)
      case Some(f) => SignatureError(f.sig)
  }

  /**
   * InjectFunc.create and Container.callProvidedFunc, given the results ret of
   * calling the function: the created object and the error, None when the
   * function returned a nil error or no error at all.
   */
  function Create(ret: seq<Value>): (r: Result<(Value, Option<Value>)>)
    ensures r.Success? <==> 1 <= |ret| <= 2
    ensures r.Failure? ==> r.error == CallUnsupported
    ensures r.Success? ==> r.value.0 == ret[0]
    ensures r.Success? ==> (r.value.1.Some? <==> |ret| == 2 && !IsNil(ret[1]))
    ensures r.Success? && r.value.1.Some? ==> r.value.1.value == ret[1]
  {
    if |ret| == 1 then Success((ret[0], None))
    else if |ret| == 2 then Success((ret[0], if IsNil(ret[1]) then None else Some(ret[1])))
    else Failure(CallUnsupported)
  }

  /** A function of a supported shape returns one result per declared result, so creating never fails. */
  lemma CreateSupported(sig: Signature, ret: seq<Value>)
    requires SignatureError(sig).None? && |ret| == |sig.outs|
    ensures Create(ret).Success?
    ensures |sig.outs| == 1 ==> Create(ret).value.1.None?
  {
  }

  /**
   * InjectFunc.setReceiver and setFunctionReceiver over the memory cells the
   * receiver pointers address: a nil Receiver stores nothing; otherwise obj is
   * stored in the cell the receiver points to, which panics unless the receiver
   * is a non-nil pointer whose element type obj is assignable to.
   */
  function SetReceiver(u: Universe, receiver: Option<Value>, obj: Value, cells: map<nat, Value>): (r: Result<map<nat, Value>>)
    ensures receiver.None? ==> r == Success(cells)
    ensures receiver.Some? && (!receiver.value.ty.Ptr? || IsNil(receiver.value)) ==> r == Failure(ReceiverNotSettable)
    ensures receiver.Some? && receiver.value.ty.Ptr? && !IsNil(receiver.value) ==>
      (r.Success? <==> AssignableTo(u, obj.ty, receiver.value.ty.elem))
    ensures r.Success? && receiver.Some? ==>
      r.value.Keys == cells.Keys + {receiver.value.id} && r.value[receiver.value.id] == obj &&
      forall c :: c in cells && c != receiver.value.id ==> r.value[c] == cells[c]
    ensures r.Failure? && r.error != ReceiverNotSettable ==>
      r.error == NotAssignable(obj.ty, receiver.value.ty.elem)
  {
    match receiver
    case None => Success(cells)
    case Some(p) =>
      if !p.ty.Ptr? || IsNil(p) then Failure(ReceiverNotSettable)
      else if !AssignableTo(u, obj.ty, p.ty.elem) then Failure(NotAssignable(obj.ty, p.ty.elem))
      else Success(cells[p.id := obj])
  }

  /** The values of setFunctionReceiver's test: a struct b, the pointer &b, and the pointer variable &pb. */
  const SAMPLE_B: Type := Struct("B")
  const SAMPLE_STRUCT := Value(1, SAMPLE_B)
  const SAMPLE_PTR := Value(1, Ptr(SAMPLE_B))
  const SAMPLE_PTR_VAR := Value(2, Ptr(Ptr(SAMPLE_B)))
  const SAMPLE_UNIVERSE := Universe(map["B" := [FieldDecl("Name", Basic("string"), None)]], {}, {}, {})

  /**
   * setFunctionReceiver's test: storing &b through &pb makes pb point to b, and
   * storing b through pb then overwrites the struct pb points to.
   */
  lemma SetValueSample()
    ensures SetReceiver(SAMPLE_UNIVERSE, Some(SAMPLE_PTR_VAR), SAMPLE_PTR, map[]) == Success(map[2 := SAMPLE_PTR])
    ensures SetReceiver(SAMPLE_UNIVERSE, Some(SAMPLE_PTR), SAMPLE_STRUCT, map[2 := SAMPLE_PTR]) ==
      Success(map[2 := SAMPLE_PTR, 1 := SAMPLE_STRUCT])
    ensures SetReceiver(SAMPLE_UNIVERSE, Some(SAMPLE_STRUCT), SAMPLE_STRUCT, map[]) == Failure(ReceiverNotSettable)
    ensures SetReceiver(SAMPLE_UNIVERSE, Some(SAMPLE_PTR), SAMPLE_PTR, map[]) == Failure(NotAssignable(Ptr(SAMPLE_B), SAMPLE_B))
  {
  }

  /** The factories of the container's tests: func() (*B, error), func() *A, and a func(int) *A. */
  lemma SignatureSamples()
    ensures SignatureError(Signature([], [Ptr(SAMPLE_B), ERROR_TYPE])).None?
    ensures SignatureError(Signature([], [Ptr(Struct("A"))])).None?
    ensures SignatureError(Signature([Basic("int")], [Ptr(Struct("A"))])) == Some(ArgumentsNotAllowed)
    ensures SignatureError(Signature([], [Ptr(SAMPLE_B), Ptr(SAMPLE_B)])) == Some(SecondResultNotError)
    ensures SignatureError(Signature([], [])) == Some(WrongResultCount)
    ensures Validate(InjectFunc(NotFunction(Ptr(SAMPLE_B)), "", None)) == Some(ValueNotFunction)
    ensures Validate(InjectFunc(NilFn, "", None)) == Some(ZeroFunction)
  {
  }
}
