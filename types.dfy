/**
 * The reflection-level vocabulary shared by every part of the injector:
 * static types, tagged struct fields, the assignability relation, run-time
 * values with an object identity, and the error kinds that stand for the
 * library's panics.
 */
module Types {

  datatype Option<T> = None | Some(value: T)

  /** The outcome of an operation that can panic: its result, or the panic as an error. */
  datatype Result<T> = Success(value: T) | Failure(error: Error)

  /** A static type. Struct, interface and other named types are identified by name. */
  datatype Type =
    | Struct(name: string)
    | Ptr(elem: Type)
    | Interface(name: string)
    | Basic(name: string)

  /** The predeclared `error` interface. */
  const ERROR_TYPE: Type := Interface("error")

  /** A declared struct field and its `inject` tag: None when the field has no tag. */
  datatype FieldDecl = FieldDecl(name: string, ty: Type, tag: Option<string>)

  /**
   * What reflection knows about the program's types: the fields of each struct
   * type, the pairs (concrete, interface) for which the concrete type implements
   * the interface, and the concrete types that implement Init and Close.
   */
  datatype Universe = Universe(
    structs: map<string, seq<FieldDecl>>,
    implements: set<(Type, Type)>,
    initTypes: set<Type>,
    closeTypes: set<Type>)

  /** A run-time value: an object identity (the pointer, for pointer values) and its dynamic type. */
  datatype Value = Value(id: nat, ty: Type)

  /** The identity of a nil pointer or a nil interface value. */
  const NIL: nat := 0

  predicate IsNil(v: Value)
  {
    v.id == NIL
  }

  /**
   * A nil pointer: reflect.Indirect makes the zero Value of it, and asking
   * the zero Value for its type panics.
   */
  predicate IsNilPointer(v: Value)
  {
    v.ty.Ptr? && IsNil(v)
  }

  /** reflect.Indirect(v).Type(): the pointee of a pointer type, any other type itself. */
  function Indirect(t: Type): Type
  {
    if t.Ptr? then t.elem else t
  }

  /** The declared fields of a struct type; a struct the table does not list has none. */
  function FieldsOf(u: Universe, t: Type): seq<FieldDecl>
    requires t.Struct?
  {
    if t.name in u.structs then u.structs[t.name] else []
  }

  /** Type.AssignableTo: identical types, or a concrete type assigned to an interface it implements. */
  predicate AssignableTo(u: Universe, t: Type, k: Type)
  {
    t == k || (k.Interface? && (t, k) in u.implements)
  }

  /** A tagged field whose type is neither an interface nor a pointer: scanning it panics. */
  predicate WrongTaggedField(f: FieldDecl)
  {
    f.tag.Some? && !f.ty.Interface? && !f.ty.Ptr?
  }

  /** The library's panics, as error values. */
  datatype Error =
    | ValueNotPtrOrInterface
    | ZeroValue(obj: Value)
    | ValueNotFunction
    | ZeroFunction
    | FieldWrongType(field: FieldDecl)
    | NotStruct(obj: Value)
    | DuplicateObjectName(name: string)
    | DuplicateFunctionName(name: string)
    | ArgumentsNotAllowed
    | WrongResultCount
    | SecondResultNotError
    | CallUnsupported
    | FunctionFailed(functionName: Option<string>, err: Value)
    | ReceiverNotSettable
    | Unfulfilled(named: set<string>, unnamed: set<Type>)
    | NoMatchingObject(fieldType: Type, obj: Value)
    | NotComplete(obj: Value)
    | CallStackOverflow(obj: Value, depth: int)
    | FieldSatisfied(fieldType: Type, obj: Value)
    | NotAssignable(valueType: Type, fieldType: Type)
    | InitFailed(obj: Value)
    | CloseFailed(obj: Value)
}
