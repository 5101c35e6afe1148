# injectgo resolution core, modelled in Dafny

This project models the core of `injectgo`, a Go dependency-injection library.
Objects are pointers to structs whose fields carry an `inject` tag. A tag is
either unnamed (`inject:""`, resolved by type) or named (`inject:"Name"`,
resolved by name). Factories are zero-argument functions that return an
object, or an object and an error. The model covers five pieces:

- **Fulfillment checker** (`checker.dfy`, module `Checker`). It holds the
  three maps of outstanding requirements (named, unnamed pointer, unnamed
  interface) and the two maps of known bindings (named, unnamed). The class
  `InjectChecker` updates these maps in place. Each of its methods is proved
  equal to a transition function on the value `State`: `Push`, `PopUnnamed`,
  `PopNamed` or `Reconcile`. The lemmas state what those functions do.
- **Cycle detector** (`cyclic.dfy`, module `CyclicDetect`). The class
  `CyclicDetector` maps each tracked struct type to the pointee types of its
  tagged pointer fields. Its depth-first search is proved sound: a reported
  path is a closed walk of the graph. It is also proved complete: it reports
  a cycle exactly when the graph has one. Both hold for every iteration order
  of the Go maps.
- **Object graph** (`inject_object.dfy`, `schedule.dfy`,
  `graph_invariants.dfy`, `graph.dfy`). `InjectObject` is a node. The class
  `ObjectGraph` has the pending and fulfilled maps, the recursive population
  bounded by `maxCallDepth`, and Init/Close scheduling deduplicated by node
  flag and pointer identity. Init runs in schedule order and Close in reverse.
  The invariant `GraphOk` says that every scheduled node has its fields filled
  with values scheduled before it. Population is proved to wire each field
  it satisfies (`WiredSince`). The field holds the value of the node
  `findMatchingObject` chooses for it, and that value is assignable to the
  field's type.
- **Factory functions** (`injectfunc.dfy`, module `InjectFuncs`). This covers
  the signature rule, the mapping from a call's results to an object and an
  error, and the store through the optional receiver.
- **Container registration** (`inject.dfy`, module `Inject`). This covers
  `Provide`, `ProvideByName`, `ProvideFunc`, `ProvideFuncByName`, the
  label-selected run of the factories (`newObjectsByFunctions`), and the
  fulfillment gate of `Populate`.

Abstractions used throughout (`types.dfy`, module `Types`):

- A `reflect.Type` becomes the datatype `Type`: `Struct`, `Ptr(elem)`,
  `Interface` or `Basic`.
- A struct's fields become a table of `FieldDecl` in the `Universe`.
- `AssignableTo` is an explicit table of (concrete type, interface) pairs.
- Implementing `Init` or `Close` is a set of types.
- A run-time value is an identity (its pointer) with a dynamic type. Identity
  0 is nil. Reading the type behind a nil pointer panics (`ZeroValue`).
- Panics become `Error` values, returned as `Result`, `Option<Error>` or an
  `ok` flag. The state at the panic point is kept exactly as the code leaves
  it.
- Go map iteration becomes a loop that picks keys with `:|`. The contracts
  state only what holds for every order. Where the order shows in the result,
  the method returns it: `NewObjectsByFunctions` returns the order in which it
  visited the named factories.

## Model

| member | source | states |
|---|---|---|
| `Checker.Push` | checker.go:28-58 | A nil pointer, or a value whose pointee is not a struct, leaves the checker unchanged. Pushing never touches the two binding maps |
| `Checker.Scanned` | checker.go:28-58 | The fields pushing records are a prefix of the declared ones. They are all of them exactly when the push succeeds, which needs a non-nil value |
| `Checker.PushFailure` | checker.go:28-58 | A failed push is the zero-Value panic exactly for a nil pointer (checker.go:29). Otherwise it is the wrong-type panic on a declared unnamed tagged field that is neither an interface nor a pointer |
| `Checker.PushRecords` | checker.go:34-57 | Pushing walks the fields up to the first unnamed tag of a wrong kind, or all of them on success. Each named tag's name joins unfulfilled-named, each unnamed interface tag's type joins unfulfilled-interfaces, and each unnamed pointer tag's type joins unfulfilled-values. An already outstanding key keeps its first declarer, and a new key is declared by the pushed object |
| `Checker.FirstWrongUnnamed` | checker.go:44-55 | The index of the first unnamed tagged field that is neither an interface nor a pointer (the panic), or the field count |
| `Checker.PopUnnamed` | checker.go:60-78 | The value's type is bound only if it is not bound yet (first wins). Exactly that type leaves unfulfilled-values. Exactly the outstanding interfaces the type is assignable to leave unfulfilled-interfaces. Nothing else changes |
| `Checker.PopNamed` | checker.go:80-87 | The name is bound first-wins, and exactly that key leaves unfulfilled-named. The unnamed maps are unchanged |
| `Checker.Reconcile` | checker.go:89-101 | Keeps an outstanding pointer type iff it is unbound, an outstanding interface iff no bound type is assignable to it, and an outstanding name iff it is unbound. Kept entries keep their declarer, and the bindings are unchanged |
| `Checker.ReconcileSettles` | checker.go:89-101 | After reconciliation no outstanding requirement is satisfiable by a known binding, and a second reconciliation changes nothing |
| `Checker.AllFulfilledIffNothingReported` | checker.go:103-122 | isAllFulfilled holds exactly when both unfulfilled getters report nothing |
| `Checker.InjectChecker.constructor` | checker.go:18-26 | A new checker has all five maps empty |
| `Checker.InjectChecker.PushInjectedFields` | checker.go:28-58 | The field-scanning loop produces exactly `Push` of the old state. It reports a panic exactly when `PushOk` fails: a nil pointer, or a wrong-kind unnamed field |
| `Checker.InjectChecker.PopFulfilledUnnamedValues` | checker.go:60-78 | The collect-then-delete loops produce exactly `PopUnnamed` of the old state |
| `Checker.InjectChecker.PopFulfilledNamedValues` | checker.go:80-87 | The new state is exactly `PopNamed` of the old state |
| `Checker.InjectChecker.PopRemainedValues` | checker.go:89-101 | For every map iteration order, the two guarded loops produce exactly `Reconcile` of the old state |
| `Checker.InjectChecker.GetUnfulfilledUnnamedValues` | checker.go:103-112 | The result's keys are the union of the interface and pointer requirements. On a shared key the pointer entry wins, because it is copied second |
| `Checker.InjectChecker.GetUnfulfilledNamedValues` | checker.go:114-116 | The result holds exactly the outstanding names |
| `Checker.InjectChecker.IsAllFulfilled` | checker.go:118-122 | The gate is `AllFulfilled` of the snapshot, which `AllFulfilledIffNothingReported` shows holds exactly when both unfulfilled reports are empty |
| `Checker.SampleRoundA` | checker_test.go:31-38 | After providing A (unnamed `*Info` and named "desc"), both getters report something and the checker is not fulfilled |
| `Checker.SampleRoundInfo` | checker_test.go:40-46 | Providing `*Info` clears the unnamed requirement, but "desc" is still outstanding |
| `Checker.SampleRoundDesc` | checker_test.go:48-54 | Providing "desc" fulfils everything |
| `CyclicDetect.DepsOfMeaning` | cyclicdetect.go:38-51 | A type is a recorded dependency exactly when some tagged pointer field points to it. Interface fields contribute nothing |
| `CyclicDetect.AddDetect` | cyclicdetect.go:28-52 | A nil pointer fails, since its type cannot be read (cyclicdetect.go:29). Otherwise a non-struct pointee or an already tracked type leaves the graph unchanged. A new type is added and no existing entry changes. It fails exactly for a nil pointer or a new struct with a tagged field that is neither an interface nor a pointer |
| `CyclicDetect.AddDetectAllKeeps` | cyclicdetect.go:22-26 | Adding any sequence of objects never changes the entry of an already tracked type |
| `CyclicDetect.CyclicPath` | cyclicdetect.go:88-100 | There is a result exactly when t is on the path. The result is the suffix from t's first occurrence with t appended, so it has length at least 2 and begins and ends with t. An empty path gives none |
| `CyclicDetect.CycleFoundFromItsStart` | cyclicdetect.go:54-62 | A cycle makes the depth-first search from its first type unclean, so the search from that root must find one |
| `CyclicDetect.CyclicDetector.constructor` | cyclicdetect.go:16-20 | A new detector tracks no type |
| `CyclicDetect.CyclicDetector.AddDetectObject` | cyclicdetect.go:28-52 | The field loop produces exactly `AddDetect`, and a panic leaves the graph as it was |
| `CyclicDetect.CyclicDetector.AddDetectObjects` | cyclicdetect.go:22-26 | The objects are added in argument order, stopping at the first panic. After a panic the graph holds exactly what the objects before the failing one added |
| `CyclicDetect.CyclicDetector.TraverseTypePath` | cyclicdetect.go:68-86 | Finds a cycle exactly when the search from root is not `Clean`. A reported path is a closed walk along graph edges. Each recursive call extends the path with a tracked type not already on it, which is the termination measure |
| `CyclicDetect.CyclicDetector.DetectCyclic` | cyclicdetect.go:54-66 | For every iteration order, reports true exactly when the graph has a cycle. A reported path has length at least 2, ends where it starts, and follows edges. Otherwise the result is (false, empty) |
| `CyclicDetect.SampleAddStruct3` | cyclicdetect_test.go:43-50 | Tracking `cyclicStruct3` records one type with one dependency, and its interface field is skipped |
| `CyclicDetect.SampleThreeCycle` | cyclicdetect_test.go:52-61 | The three cyclic structs give the graph 1→2→3→1, which has a cycle |
| `CyclicDetect.SampleNoCycle` | cyclicdetect_test.go:63-67 | `cyclicNormal1` and `cyclicNormal2` give an acyclic graph |
| `CyclicDetect.SampleCyclicPath` | cyclicdetect_test.go:33-41 | `cyclicPath` on [normal1, normal2] for normal1 is [normal1, normal2, normal1] |
| `CyclicDetect.SampleDetect` | cyclicdetect_test.go:52-68 | The detector reports a cycle of the graph for the cyclic structs, and (false, empty) for the normal ones |
| `InjectObjects.ScannedFresh` | graph.go:41-62 | Scanned fields start unsatisfied with nothing injected. When no tagged field has a wrong kind, each one is an interface or a pointer |
| `InjectObjects.ScanInjectFields` | graph.go:41-62 | The scanning loop is exactly `Scan`. It returns the tagged fields in declaration order. A nil pointer, a non-struct pointee, or the first wrong-kind field is an error |
| `InjectObjects.UnsatisfiedAfterSet` | graph.go:84-95 | Satisfying one unsatisfied field lowers the number of unsatisfied fields by exactly one |
| `InjectObjects.UnsatisfiedZero` | graph.go:24-25 | The unsatisfied count is zero exactly when every field is satisfied |
| `InjectObjects.NewInjectObject` | graph.go:64-75 | `unfulfilledNum` is the number of scanned fields, and the node is complete exactly when there are none. The node is valid and unscheduled. A scanning failure is returned |
| `InjectObjects.UnfulfilledFields` | graph.go:77-82 | Returns nothing or all the fields. For a valid node it is empty exactly when every field is satisfied |
| `InjectObjects.SetField` | graph.go:84-95 | Fails on an already satisfied field, and also when the value is not assignable to the field's type (the panic of reflection's `Set`). Otherwise exactly that field becomes satisfied with the value, the counter drops by exactly one, and the node is complete once the counter reaches ≤ 0. It keeps the counter equal to the number of unsatisfied fields |
| `InjectObjects.CompleteSatisfied` | graph.go:24-25 | A valid complete node has every field satisfied |
| `InjectObjects.InjectObjectScenario` | graph_test.go:12-47 | The test node has two unsatisfied fields and is not complete. Setting them in order completes it. Setting a satisfied field again fails |
| `Schedule.CallsAppend` | graph.go:127-141 | One addObjectCall step: a pointer whose identity was seen changes nothing. Any other value records its identity and joins the Init and Close lists for the interfaces it implements |
| `Schedule.AdmittedOnce` | graph.go:127-133 | A pointer value passes the identity check once if it is the first value scheduled at its address, and never otherwise. A later value at the same address is dropped whatever its type |
| `Schedule.AdmittedDistinct` | graph.go:127-133 | No two pointer values let through share an address |
| `Schedule.SingleTypedFirst` | graph.go:127-133 | When every address carries one dynamic type, a pointer value is the first at its address exactly when it was scheduled |
| `Schedule.SharedAddressSample` | graph.go:127-133 | A struct and its first field share an address, so the field's pointer scheduled after the struct's is dropped even though its type differs |
| `Schedule.CalledOnce` | graph.go:121-142 | A call list built from the schedule holds a pointer value once if it is the first value scheduled at its address and its type implements the call, and never otherwise. No address occurs in the list twice |
| `Schedule.Reverse` | graph.go:253-260 | Reversal keeps the length and maps index k to index n-1-k |
| `Schedule.ReverseOccurrences` | graph.go:253-260 | Reversal keeps every value's number of occurrences |
| `Schedule.CallEach` | graph.go:245-260 | The values called are a prefix of the list. Without a failure all of them are called in order. Otherwise the walk stops right after the first failing value |
| `Schedule.CallEachFirst` | graph.go:245-251 | The walk stops at the first failing value, having called it and everything before it |
| `Graph.ObjectGraph.constructor` | graph.go:109-119 | A new graph has every map, set and list empty |
| `Graph.ObjectGraph.AppendCalls` | graph.go:127-141 | Appends the value to the schedule and keeps the identity set and the Init/Close lists equal to what addObjectCall makes of the schedule |
| `Graph.ObjectGraph.AddObjectCall` | graph.go:121-142 | A flagged node is left alone. Otherwise the node is flagged and appended to the schedule exactly once |
| `Graph.ObjectGraph.ProvideObj` | graph.go:144-152 | A node with no injected fields goes into the fulfilled map under the value's type and is scheduled at once. Any other node goes into the pending map and is not scheduled. A later node replaces the entry of the same type. A scanning failure changes nothing |
| `Graph.ObjectGraph.ProvideNamedObj` | graph.go:154-162 | As ProvideObj, but filed under the name in the named maps |
| `Graph.ObjectGraph.FindUnnamedObjectByType` | graph.go:180-198 | The result is `UnnamedChoice` of the four maps: the exact type in fulfilled, then in pending, then some assignable type in fulfilled, then in pending, otherwise none. The node found holds a value assignable to the type |
| `Graph.ObjectGraph.FindMatchingObject` | graph.go:164-178 | A satisfied field matches nothing. Any other field gets its `Chosen` node: for a named tag fulfilled-named, then pending-named, otherwise none; for an unnamed tag the by-type choice |
| `Graph.ObjectGraph.PopulateObject` | graph.go:220-243 | Past `maxCallDepth` the result is the stack-overflow error. A node complete at entry succeeds. Otherwise it fails with a population error, or leaves the node complete and scheduled, each field unsatisfied at entry holding the value of the node chosen for it, assignable to the field. Nodes only grow, and every field satisfied meanwhile anywhere is wired the same way |
| `Graph.ObjectGraph.CompleteObject` | graph.go:238-242 | With every field satisfied the node is complete, so the not-complete panic is unreachable. The node is scheduled and each of its newly satisfied fields is wired |
| `Graph.ObjectGraph.PopulateField` | graph.go:225-236 | One loop turn. The node matched is the one `findMatchingObject` chooses on entry. No match is the no-matching-object error. On success the match was populated first and the field holds exactly the matched node's value. Every field satisfied meanwhile is wired |
| `Graph.ObjectGraph.PopulateNamedObjects` | graph.go:206-210 | For every iteration order, on success every pending named node is scheduled. Every field it satisfies holds the value of the node chosen for it |
| `Graph.ObjectGraph.PopulateUnnamedObjects` | graph.go:212-216 | For every iteration order, on success every pending unnamed node is scheduled. Every field it satisfies holds the value of the node chosen for it |
| `Graph.ObjectGraph.Populate` | graph.go:200-204 | Named nodes first, then unnamed ones, then Init over the Init list. A population failure calls no Init. Otherwise every filed node is scheduled, and Init stops at the first failure. Every field satisfied holds the value of the node chosen for it, assignable to the field |
| `Graph.ObjectGraph.InitAllObjects` | graph.go:245-251 | Init is called on the Init list in schedule order, and the first error aborts |
| `Graph.ObjectGraph.Close` | graph.go:253-260 | Close is called on the Close list in reverse schedule order, and the first error aborts |
| `Graph.ObjectGraph.ScheduledValue` | graph.go:121-142 | A flagged node's value is on the schedule |
| `Graph.ObjectGraph.DependenciesFirst` | graph.go:220-243 | Every field of the k-th scheduled node holds the value of a node scheduled before it: dependencies are scheduled before their dependents |
| `Graph.ObjectGraph.CallsOnce` | graph_test.go:126-149 | A pointer object is in the Init list once if it is the first scheduled at its address and implements Init, and never otherwise. Close meets it likewise if it implements Close. No address is in either list twice, so each object of the A→B→C chain is inited once and closed once |
| `InjectFuncs.SignatureError` | inject.go:102-115 | No error exactly for no inputs and 1 or 2 outputs, the second being `error`. Each rejection reason is reported for exactly its case, in the code's order |
| `InjectFuncs.Validate` | inject_func.go:15-32 | A nil `Fn`, or a nil pointer to a function variable, panics (`ZeroFunction`) when its type is read. Any other non-function `Fn` is rejected. A function gets exactly the shared signature rule, so it passes iff it is a function of a supported shape |
| `InjectFuncs.Create` | inject_func.go:34-48 | One result gives (v, no error). Two results give (v, err), where err is present iff the second result is non-nil. Any other count fails |
| `InjectFuncs.CreateSupported` | inject.go:158-171 | Calling a validated factory never hits the unsupported-call panic, and a one-result factory never reports an error |
| `InjectFuncs.SetReceiver` | inject_func.go:50-54 | A nil Receiver stores nothing. Otherwise the object is stored in exactly the cell the receiver points to and every other cell is unchanged. A non-pointer or nil receiver, or an object not assignable to its element type, is the reflection panic |
| `InjectFuncs.SetValueSample` | inject_test.go:221-233 | Storing &b through &pb makes pb point to b. Storing b through pb overwrites *pb. A non-pointer receiver fails |
| `InjectFuncs.SignatureSamples` | inject.go:102-115 | The factory shapes of the tests are accepted. Arguments, two non-error results, zero results, a non-function and a nil `Fn` are each rejected with their own error |
| `Inject.RegisterAllBindings` | inject.go:68-81 | Registering values binds the type of each, an already bound type keeps its first binding, and named bindings are untouched |
| `Inject.FirstRejected` | inject.go:68-73 | The index of the first value `Provide` panics on, or the count |
| `Inject.ProvideStep` | inject.go:68-81 | A nil pointer panics in the shape check, and so does a value that is neither an interface nor a struct pointer; both come before any checker call. An accepted value is popped then pushed, and fails only on a wrong-kind unnamed field |
| `Inject.StructPtrOrInterface` | inject.go:54-65 | Panics exactly for a nil pointer, whose pointee type cannot be read. Otherwise true exactly for an interface value or a pointer to a struct |
| `Inject.FirstInvalid` | inject.go:124-137 | The index of the first factory `ProvideFunc` panics on, or the count |
| `Inject.RegisteredAll` | inject.go:124-137 | One funcValue per validated factory, in order, with its label and receiver |
| `Inject.RunCallsSelected` | inject.go:177-219 | A run that completes calls exactly the factories whose selector test passes (nil selector, empty label, or allowed label), in order |
| `Inject.RunCreatesUnnamed` | inject.go:177-197 | A run that completes appends exactly the objects returned by the selected unnamed factories, in order |
| `Inject.RunSucceededEverywhere` | inject.go:183-186 | A completed run got a result without error from every selected factory |
| `Inject.FailedFactoryAborts` | inject.go:183-206 | A selected factory returning a non-nil error ends the run with that error, and no later factory is called |
| `Inject.LabelSelectionSample` | inject_test.go:171-219 | With only "b2" allowed, the "b1" factory is skipped and the others run. With no selector all of them run |
| `Inject.Container.constructor` | inject.go:41-51 | A new container has an empty checker and empty collections |
| `Inject.Container.RegisterValue` | inject.go:75-77 | The checker calls for one value: pop by type or by name, then push. The result is exactly `Register` |
| `Inject.Container.ProvideValue` | inject.go:70-79 | The loop body of Provide is exactly `ProvideStep`, and appends the value only on success |
| `Inject.Container.Provide` | inject.go:68-81 | Exactly the values before the first rejected one are registered in argument order and appended. The rejected one ends the call in the state its pop and partial push leave |
| `Inject.Container.ProvideByName` | inject.go:85-100 | Rejects a nil pointer with the zero-Value panic and a non-struct-pointer value with its panic, then a name already among the named values. Otherwise it pops, pushes and stores the value under the name; a failing push is a wrong-kind field |
| `Inject.Container.ProvideFunc` | inject.go:124-137 | Factories are validated and appended in order, and the first invalid one panics with its reason |
| `Inject.Container.ProvideFuncByName` | inject.go:140-156 | Validates, then rejects a name used by a named function, then one used by a named value. Otherwise it stores the factory |
| `Inject.Container.NamedOrder` | inject.go:198 | Some map-iteration order that visits every named factory exactly once |
| `Inject.Container.NewObjectsByFunctions` | inject.go:177-219 | Runs the unnamed factories in slice order, then the named ones in the returned iteration order, each as `Step`, up to the first panic |
| `Inject.Container.Populate` | inject.go:239-250 | The factories run with each named one visited exactly once, in some order. After that the checker is reconciled. It fails with exactly the outstanding names and unnamed types iff a requirement is still outstanding, and before anything else happens |

## Left out

- The `facebookgo/inject` graph: `Container` resolves through this foreign library (inject.go:7, inject.go:221-234, inject.go:251-254), whose behaviour is not visible here. `Inject.Container.Populate` stops at the fulfillment gate. `provideObjects` is not modelled.
- `ObjectGraph` and `CyclicDetector` are modelled standalone. In the source no `Container` call reaches them either.
- Calling user code is left to the caller. A factory call is a parameter `call` from function to results. Init and Close are given by a parameter `failing`, the set of objects whose call returns an error. What those calls do is not modelled. Because `call` is a function, every call of one factory returns the same values, where a Go factory would usually allocate a fresh object on each call. No property here depends on that.
- Reflection writes are not modelled. `reflect.Value.Set` into a field becomes the field's `injected` record, and through a receiver it becomes a map of memory cells. Settability of unexported fields is not modelled.
- `Pointer()` becomes the value's identity. `Interface()` and the `Initializable` / `Closable` assertions become the sets of types implementing Init and Close (initializer.go). The errors of errors.go and the panics become `Error` tags. Message texts are not modelled.
- The string rendering is not modelled: `String`, `prettify` and every `fmt.Errorf` text.
- Map iteration order is not fixed. The model never assumes an order. Which of several assignable types `FindUnnamedObjectByType` returns is left open.
- `InjectFunc` is declared twice: in inject.go and in inject_func.go. The signature rule is modelled once (`SignatureError`) and shared by `Validate` and `ProvideFunc`. `create` and `callProvidedFunc` are the same function, modelled once as `Create`.
- A nil `depPath` and an empty one are both the empty sequence. `cyclicPath` returns nil for both, so nothing is lost.
- `Graph.ObjectGraph.Close` panics at the first Close error (graph.go:253-260), so the objects after it in the walk are not closed. The model stops there too.
- `Checker.Push` records every tagged field as outstanding, even one an earlier value already fulfils (checker.go:34-57). `popRemainedValues` (checker.go:89-101) clears such entries before the fulfillment gate, and the model does the same.
- `Provide(nil)`, an untyped nil, makes the zero Value, whose `Type()` panics (inject.go:56). Every value here carries a type, so this panic is not modelled. Typed nil pointers are modelled: they panic as `ZeroValue` in the shape check, in pushing, in cycle detection and in scanning. A nil `Fn`, and a nil pointer to a function variable, panic as `ZeroFunction` in `InjectFuncs.Validate`, and so in `Inject.Container.ProvideFunc` and `ProvideFuncByName` (inject.go:127-128, inject.go:141-142, inject_func.go:16-17).
- `InjectObjects.SetField` does not model the panic of `reflect.Value.Set` (graph.go:89) on a field that is not settable: a field of a struct passed by value, or an unexported field. The model lets that write succeed.
- A nil function of a function type, such as a `func() *B` variable that was never set, passes `validate`, and calling it panics. Every `Func` here has results through the `call` parameter, so that panic is not modelled.
- Go's `int` counter and depth are unbounded integers here. The depth never exceeds `maxCallDepth` + 1 plus the field count, so 64-bit overflow cannot occur.
