# assumeng assumption gate, in Dafny

assumeng is a TestNG listener. Before a test method runs, it reads the
method's `@Assumption` directive. The directive is an ordered list of names
of zero-argument `boolean` methods on the test class. The listener calls
every one of them on the test instance and ANDs the results. It does not
stop at the first `false`. When the AND is false, it logs the names that
returned `false` and sets the invocation's status to SKIP. A name that
cannot be resolved, resolves to a method not declared `boolean`, throws
when called, or cannot be accessed aborts the listener with a fault instead.

This project models that gate:

- `Assumptions.dfy` (module `AssumptionModel`) describes reflection as a
  method table, a `map<string, MethodDesc>`. A name missing from the map
  has no such method. Otherwise the descriptor says whether the method
  returns a boolean `b`, is not declared `boolean`, throws, or is
  inaccessible. The module defines `CheckAssumption`, the per-name
  dispatch, as a function. It also gives the specification of a whole run
  as functions over the name list: `FirstFault`, `FailedNames`, `AllHold`,
  `Trace` (the methods on which `Method.invoke` is attempted) and `Gate` (the decision). The
  lemmas state the gate's properties over these functions.
- `Listener.dfy` (module `AssumptionListener`) holds the imperative part.
  `CheckAssumptions` is the `for` loop with the `&=` accumulator and the
  growing failed-name list, written as a `while` loop with invariants over
  the processed prefix. `TestResult` is the invocation result with its
  mutable `status`. `BeforeInvocation` is the hook that writes `Skip`. A
  fault is returned as a value, not thrown. Every method is proved against
  the functions of `AssumptionModel`.

The `@Assumption` directive is an `Option<seq<string>>`, so an absent
annotation is distinct from an empty list. A null `java.lang.reflect.Method`
is a `None` test method.

Three details of the code that the model keeps:

- The code resolves names on the TestNG test class
  (`getTestClass().getRealClass()`), not on the instance's runtime class.
  The method table stands for that class's methods as they behave on the
  instance.
- The return-type test is `!= boolean.class`, so a method declared to
  return the boxed `Boolean` is rejected as `NotBoolean`.
- The code only ever writes SKIP. There are no "pending" or "proceed"
  statuses of its own, so `Status` lists TestNG's result statuses and the
  gate either leaves the status alone or writes `Skip`.

## Model

| member | source | states |
|---|---|---|
| AssumptionModel.CheckAssumption | src/main/java/nl/javadude/assumeng/AssumptionListener.java:66-80 | a name gives a boolean exactly when it resolves to a method declared `boolean` whose call returns; otherwise the fault names the assumption, and its kind is "not found" exactly when the name is missing, "wrong return type" exactly when the method is not declared `boolean`, "invocation failed" carrying the cause when the method throws, and "access denied" when it is inaccessible |
| AssumptionModel.FailedNamesAppend | src/main/java/nl/javadude/assumeng/AssumptionListener.java:49-56 | the failed-name list distributes over concatenation of the directive, so it keeps declared order: each name contributes itself or nothing, in place |
| AssumptionModel.FailedNamesCount | src/main/java/nl/javadude/assumeng/AssumptionListener.java:52-56 | a name occurs in the failed list exactly as often as in the directive when its method returned false, and otherwise not at all (duplicates kept) |
| AssumptionModel.AllHoldIffNoneFailed | src/main/java/nl/javadude/assumeng/AssumptionListener.java:51-63 | without a fault, the AND of all results is true exactly when the failed list is empty, so the warning is logged exactly when there are failed names |
| AssumptionModel.FirstFaultAppend | src/main/java/nl/javadude/assumeng/AssumptionListener.java:52-58 | a fault in a prefix of the directive decides the outcome and stops the calls; without one, the first fault and the calls continue into the rest |
| AssumptionModel.FirstFaultIsFirst | src/main/java/nl/javadude/assumeng/AssumptionListener.java:52-79 | there is no fault exactly when every name yields a boolean; otherwise the reported fault is that of a name every earlier name of which yielded a boolean |
| AssumptionModel.TraceFollowsNames | src/main/java/nl/javadude/assumeng/AssumptionListener.java:52-58 | the methods on which `Method.invoke` is attempted are a prefix of the directive, in order, one attempt per position; without a fault every name is invoked, whatever earlier ones returned (no short-circuit) |
| AssumptionModel.WrongReturnTypeNeverInvoked | src/main/java/nl/javadude/assumeng/AssumptionListener.java:69-72 | `Method.invoke` is never attempted on a method not declared `boolean` |
| AssumptionModel.FalseThenMissingFaults | src/main/java/nl/javadude/assumeng/AssumptionListener.java:52-74 | a name returning false does not stop evaluation: a missing method after it still aborts the gate with a "not found" fault for that name, and the false one was called |
| AssumptionModel.GateProceedsWithoutNames | src/main/java/nl/javadude/assumeng/AssumptionListener.java:37-43 | with no test method, no directive or an empty name list, the decision is to let the test run |
| AssumptionModel.GateSkipsIffSomeFalse | src/main/java/nl/javadude/assumeng/AssumptionListener.java:41-63 | without a fault, the test is skipped exactly when some named method returned false, the skip reports exactly the failed names (never empty), and the test runs exactly when all held |
| AssumptionModel.GateAbortsOnFirstFault | src/main/java/nl/javadude/assumeng/AssumptionListener.java:52-79 | whenever some name faults, the decision is the fault of the first faulting name, never a skip |
| AssumptionListener.CheckAssumptions | src/main/java/nl/javadude/assumeng/AssumptionListener.java:46-64 | the loop faults exactly when some name faults, with the first fault; otherwise it returns the AND of all results and the failed names, warns exactly when the AND is false, and attempts `Method.invoke` on exactly the methods of `Trace` |
| AssumptionListener.BeforeInvocation | src/main/java/nl/javadude/assumeng/AssumptionListener.java:34-44 | the status becomes Skip exactly when the decision is a skip and is otherwise unchanged (also on a fault); the fault, the warning and the invoke attempts are those of the decision; nothing is invoked without a directive |

## Left out

- Java reflection (`Class.getMethod` and its search of public and inherited methods, `Method.invoke`) is replaced by the method table.
- A predicate is modelled as giving the same outcome every time it is called. A stateful predicate that answers differently when its name appears twice in the directive is not captured.
- `Method.invoke` failures other than the two the code catches (`IllegalArgumentException`, `NullPointerException` for a null instance, `ExceptionInInitializerError`) propagate unwrapped in Java. They are not modelled.
- TestNG wiring (`BaseTestListener`, `IInvokedMethod`, `ITestNGMethod`, how the test class and the instance are obtained) is not part of this model.
- The `@Assumption` annotation type and annotation introspection are replaced by the `Option<seq<string>>` directive.
- The slf4j logger and the exact text of the warning are left out. The model keeps a `Warning` value with the test method's name and the failed names.
- Exception classes, messages and cause chains are reduced to a `Fault` with the assumption's name and a `FaultKind`. Only the cause of a throwing predicate is kept, as a string.
- A fault is returned by `BeforeInvocation` rather than thrown. The status update it skips is modelled.
