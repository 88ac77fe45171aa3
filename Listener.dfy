/** The listener itself: the loop over the directive's names and the hook
    that marks a test invocation as skipped.  Each method is proved against
    the specification functions of module AssumptionModel.
 */
module AssumptionListener {
  import opened AssumptionModel

  /** The statuses a TestNG invocation result can carry.  The host sets all
      of them except the one the gate writes, Skip. */
  datatype Status = Created | Started | Success | Failure | Skip | SuccessPercentageFailure

  /** One pending invocation of a test method on a test instance.  Only the
      status is mutable; the method and the behaviour of the instance's
      assumption methods are fixed for the invocation. */
  class TestResult {
    const testMethod: Option<TestMethod>   // None for a null java.lang.reflect.Method
    const table: MethodTable
    var status: Status

    constructor (testMethod: Option<TestMethod>, table: MethodTable, status: Status)
      ensures this.testMethod == testMethod && this.table == table && this.status == status
    {
      this.testMethod := testMethod;
      this.table := table;
      this.status := status;
    }
  }

  /** checkAssumptions: evaluate every name in order, AND the results
      together without short-circuit and collect the names that returned
      false.  `invoked` lists the assumption methods on which Method.invoke
      is attempted, in order. */
  method CheckAssumptions(testName: string, names: seq<string>, table: MethodTable)
    returns (r: Outcome<bool>, failed: seq<string>, warning: Option<Warning>, invoked: seq<string>)
    ensures r.Err? <==> FirstFault(table, names).Some?
    ensures r.Err? ==> r.fault == FirstFault(table, names).value && warning.None?
    ensures r.Ok? ==> (r.value <==> AllHold(table, names))
    ensures r.Ok? ==> failed == FailedNames(table, names)
    ensures r.Ok? ==> warning == if r.value then None else Some(Warning(testName, failed))
    ensures invoked == Trace(table, names)
  {
    var assumptionsHold := true;
    failed, invoked := [], [];
    var i := 0;
    while i < |names|
      invariant 0 <= i <= |names|
      invariant FirstFault(table, names[..i]).None?
      invariant assumptionsHold <==> AllHold(table, names[..i])
      invariant failed == FailedNames(table, names[..i])
      invariant invoked == Trace(table, names[..i])
    {
      var name := names[i];
      ExtendPrefix(table, names, i);
      if Invokes(table, name) {
        invoked := invoked + [name];
      }
      var check := CheckAssumption(table, name);
      if check.Err? {
        r, warning := Err(check.fault), None;
        return;
      }
      var holds := check.value;
      if !holds {
        failed := failed + [name];
      }
      assumptionsHold := assumptionsHold && holds;
      i := i + 1;
    }
    assert names[..i] == names;
    if !assumptionsHold {
      warning := Some(Warning(testName, failed));
    } else {
      warning := None;
    }
    r := Ok(assumptionsHold);
  }

  /** beforeInvocation: return at once when the test method is null or has
      no @Assumption directive; otherwise run the assumptions and set the
      status to Skip when they do not all hold.  A fault is returned instead
      of thrown and leaves the status as it was. */
  method BeforeInvocation(result: TestResult)
    returns (fault: Option<Fault>, warning: Option<Warning>, invoked: seq<string>)
    modifies result
    ensures result.status == if Gate(result.testMethod, result.table).Skipped? then Skip else old(result.status)
    ensures fault == if Gate(result.testMethod, result.table).Aborted?
                     then Some(Gate(result.testMethod, result.table).fault) else None
    ensures warning == if Gate(result.testMethod, result.table).Skipped?
                       then Some(Warning(result.testMethod.value.name, Gate(result.testMethod, result.table).failed))
                       else None
    ensures invoked == if result.testMethod.None? || result.testMethod.value.assumption.None? then []
                       else Trace(result.table, result.testMethod.value.assumption.value)
  {
    var m := result.testMethod;
    if m.None? || m.value.assumption.None? {
      return None, None, [];
    }
    var outcome, failed;
    outcome, failed, warning, invoked := CheckAssumptions(m.value.name, m.value.assumption.value, result.table);
    match outcome
    case Err(f) =>
      fault := Some(f);
    case Ok(b) =>
      fault := None;
      if !b {
        result.status := Skip;
      }
  }
}
