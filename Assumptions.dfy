/** The assumption gate, stated on values.

    A test class is seen through its method table: a map from a method name to
    what happens when the listener looks that name up and calls it on the
    test instance.  A name that is not in the table has no public
    zero-argument method of that name.  The functions below are the
    specification of one run of the gate over the names of an @Assumption
    directive; the imperative listener in module AssumptionListener is proved
    against them.
 */
module AssumptionModel {

  datatype Option<+T> = None | Some(value: T)

  /** What a reflective lookup and call of one assumption method does. */
  datatype MethodDesc =
    | Returns(result: bool)     // declared `boolean`, call returns `result`
    | NotBoolean                // declared return type is not `boolean`
    | Throws(cause: string)     // declared `boolean`, call throws `cause`
    | Inaccessible              // declared `boolean`, call refused by access control

  /** The test class's methods as they behave on the test instance. */
  type MethodTable = map<string, MethodDesc>

  /** The four ways checkAssumption aborts. */
  datatype FaultKind =
    | MethodNotFound            // "Could not find method [..] to run assumption"
    | WrongReturnType           // "Assumption method [..] should return a boolean"
    | InvocationFailed(cause: string)  // "Could not invoke method [..]", wrapping the cause
    | AccessDenied              // "Could not access method [..] to run assumption"

  /** A fault always names the offending assumption. */
  datatype Fault = Fault(name: string, kind: FaultKind)

  datatype Outcome<+T> = Ok(value: T) | Err(fault: Fault)

  /** A test method: its name (for the diagnostic) and its @Assumption
      directive, None when the annotation is absent. */
  datatype TestMethod = TestMethod(name: string, assumption: Option<seq<string>>)

  /** The single warning logged when a test is skipped. */
  datatype Warning = Warning(testName: string, failed: seq<string>)

  /** What the gate decides for one invocation. */
  datatype Decision = Proceed | Skipped(failed: seq<string>) | Aborted(fault: Fault)

  /** checkAssumption: resolve, check the return type, invoke. */
  function CheckAssumption(table: MethodTable, name: string): (r: Outcome<bool>)
    ensures r.Ok? <==> name in table && table[name].Returns?
    ensures r.Ok? ==> table[name] == Returns(r.value)
    ensures r.Err? ==> r.fault.name == name
    ensures r.Err? ==> (r.fault.kind == MethodNotFound <==> name !in table)
    ensures r.Err? ==> (r.fault.kind == WrongReturnType <==> name in table && table[name] == NotBoolean)
    ensures name in table && table[name].Throws? ==> r == Err(Fault(name, InvocationFailed(table[name].cause)))
    ensures name in table && table[name] == Inaccessible ==> r == Err(Fault(name, AccessDenied))
  {
    if name !in table then Err(Fault(name, MethodNotFound))
    else match table[name]
      case NotBoolean => Err(Fault(name, WrongReturnType))
      case Throws(cause) => Err(Fault(name, InvocationFailed(cause)))
      case Inaccessible => Err(Fault(name, AccessDenied))
      case Returns(b) => Ok(b)
  }

  /** True when checkAssumption gets as far as Method.invoke for `name`:
      the method exists and is declared `boolean`. */
  predicate Invokes(table: MethodTable, name: string) {
    name in table && !table[name].NotBoolean?
  }

  /** The fault of the first name, in declared order, that faults. */
  function FirstFault(table: MethodTable, names: seq<string>): Option<Fault> {
    if names == [] then None
    else match CheckAssumption(table, names[0])
      case Err(f) => Some(f)
      case Ok(_) => FirstFault(table, names[1..])
  }

  /** The names whose method returned false, in declared order, duplicates kept. */
  function FailedNames(table: MethodTable, names: seq<string>): seq<string> {
    if names == [] then []
    else (if names[0] in table && table[names[0]] == Returns(false) then [names[0]] else [])
         + FailedNames(table, names[1..])
  }

  /** Every named assumption exists and returned true. */
  predicate AllHold(table: MethodTable, names: seq<string>) {
    forall i | 0 <= i < |names| :: names[i] in table && table[names[i]] == Returns(true)
  }

  /** The names on which Method.invoke is attempted, in order: every name
      until the first fault, and the faulting name too when the fault arises
      from the invoke attempt itself (the method throws, or access is
      refused, in which case its body never runs). */
  function Trace(table: MethodTable, names: seq<string>): seq<string> {
    if names == [] then []
    else if CheckAssumption(table, names[0]).Ok? then [names[0]] + Trace(table, names[1..])
    else if Invokes(table, names[0]) then [names[0]]
    else []
  }

  /** The gate's decision for a test method on a test class. */
  function Gate(testMethod: Option<TestMethod>, table: MethodTable): Decision {
    if testMethod.None? || testMethod.value.assumption.None? then Proceed
    else
      var names := testMethod.value.assumption.value;
      match FirstFault(table, names)
      case Some(f) => Aborted(f)
      case None => if AllHold(table, names) then Proceed else Skipped(FailedNames(table, names))
  }

  // ---------------------------------------------------------------------
  // Properties of FailedNames

  /** Collecting failed names distributes over concatenation of the list. */
  lemma {:induction false} FailedNamesAppend(table: MethodTable, a: seq<string>, b: seq<string>)
    ensures FailedNames(table, a + b) == FailedNames(table, a) + FailedNames(table, b)
  {
    if a == [] {
      assert a + b == b;
    } else {
      assert (a + b)[0] == a[0];
      assert (a + b)[1..] == a[1..] + b;
      FailedNamesAppend(table, a[1..], b);
    }
  }

  /** FailedNames keeps exactly the names that returned false: each such name
      as often as it occurs, every other name not at all. */
  lemma {:induction false} FailedNamesCount(table: MethodTable, names: seq<string>, x: string)
    ensures multiset(FailedNames(table, names))[x]
         == if x in table && table[x] == Returns(false) then multiset(names)[x] else 0
    ensures x in FailedNames(table, names) <==> x in names && x in table && table[x] == Returns(false)
  {
    if names != [] {
      FailedNamesCount(table, names[1..], x);
      assert names == [names[0]] + names[1..];
      assert multiset(names) == multiset{names[0]} + multiset(names[1..]);
    }
  }

  /** Without faults, the conjunction holds exactly when nothing failed. */
  lemma {:induction false} AllHoldIffNoneFailed(table: MethodTable, names: seq<string>)
    requires FirstFault(table, names).None?
    ensures AllHold(table, names) <==> FailedNames(table, names) == []
  {
    if names != [] {
      AllHoldIffNoneFailed(table, names[1..]);
      assert AllHold(table, names) <==>
        table[names[0]] == Returns(true) && AllHold(table, names[1..]) by {
        if AllHold(table, names) {
          forall i | 0 <= i < |names[1..]|
            ensures names[1..][i] in table && table[names[1..][i]] == Returns(true)
          {
            assert names[1..][i] == names[i + 1];
          }
        }
        if table[names[0]] == Returns(true) && AllHold(table, names[1..]) {
          forall i | 0 <= i < |names| ensures names[i] in table && table[names[i]] == Returns(true) {
            if i > 0 { assert names[i] == names[1..][i - 1]; }
          }
        }
      }
    }
  }

  // ---------------------------------------------------------------------
  // Properties of FirstFault and Trace

  /** A fault in a prefix hides everything after it; otherwise the first
      fault, if any, is in the suffix. */
  lemma {:induction false} FirstFaultAppend(table: MethodTable, a: seq<string>, b: seq<string>)
    ensures FirstFault(table, a + b) == if FirstFault(table, a).Some? then FirstFault(table, a) else FirstFault(table, b)
    ensures Trace(table, a + b) == if FirstFault(table, a).Some? then Trace(table, a) else Trace(table, a) + Trace(table, b)
  {
    if a == [] {
      assert a + b == b;
    } else {
      assert (a + b)[0] == a[0];
      assert (a + b)[1..] == a[1..] + b;
      FirstFaultAppend(table, a[1..], b);
    }
  }

  /** One more name after a fault-free prefix: how each specification
      function of the prefix grows, and what the whole list gives when the
      new name faults. */
  lemma ExtendPrefix(table: MethodTable, names: seq<string>, i: nat)
    requires i < |names| && FirstFault(table, names[..i]).None?
    ensures CheckAssumption(table, names[i]).Ok? ==>
      var b := CheckAssumption(table, names[i]).value;
      FirstFault(table, names[..i + 1]).None? &&
      (AllHold(table, names[..i + 1]) <==> AllHold(table, names[..i]) && b) &&
      FailedNames(table, names[..i + 1]) == FailedNames(table, names[..i]) + (if b then [] else [names[i]]) &&
      Trace(table, names[..i + 1]) == Trace(table, names[..i]) + [names[i]]
    ensures CheckAssumption(table, names[i]).Err? ==>
      FirstFault(table, names) == Some(CheckAssumption(table, names[i]).fault) &&
      Trace(table, names) == Trace(table, names[..i]) + (if Invokes(table, names[i]) then [names[i]] else [])
  {
    var pre, x, ext := names[..i], names[i], names[..i + 1];
    assert ext == pre + [x];
    assert names == pre + ([x] + names[i + 1..]);
    FirstFaultAppend(table, pre, [x]);
    FirstFaultAppend(table, pre, [x] + names[i + 1..]);
    FailedNamesAppend(table, pre, [x]);
    if CheckAssumption(table, x).Ok? {
      var b := CheckAssumption(table, x).value;
      if AllHold(table, pre) && b {
        forall k | 0 <= k < i + 1 ensures ext[k] in table && table[ext[k]] == Returns(true) {
          if k < i { assert ext[k] == pre[k]; }
        }
      }
      if AllHold(table, ext) {
        assert ext[i] == x;
        forall k | 0 <= k < i ensures pre[k] in table && table[pre[k]] == Returns(true) {
          assert pre[k] == ext[k];
        }
      }
    }
  }

  /** The reported fault is that of the first faulting name, and there is no
      fault exactly when every name resolves to a boolean that is returned. */
  lemma {:induction false} FirstFaultIsFirst(table: MethodTable, names: seq<string>)
    ensures FirstFault(table, names).None? <==>
      forall i | 0 <= i < |names| :: CheckAssumption(table, names[i]).Ok?
    ensures FirstFault(table, names).Some? ==>
      exists k | 0 <= k < |names| ::
        CheckAssumption(table, names[k]) == Err(FirstFault(table, names).value) &&
        forall j | 0 <= j < k :: CheckAssumption(table, names[j]).Ok?
  {
    if names != [] {
      FirstFaultIsFirst(table, names[1..]);
      if CheckAssumption(table, names[0]).Ok? {
        if FirstFault(table, names).Some? {
          var k :| 0 <= k < |names[1..]| &&
            CheckAssumption(table, names[1..][k]) == Err(FirstFault(table, names).value) &&
            forall j | 0 <= j < k :: CheckAssumption(table, names[1..][j]).Ok?;
          assert CheckAssumption(table, names[k + 1]) == Err(FirstFault(table, names).value);
          forall j | 0 <= j < k + 1 ensures CheckAssumption(table, names[j]).Ok? {
            if j > 0 { assert names[j] == names[1..][j - 1]; }
          }
        } else {
          forall i | 0 <= i < |names| ensures CheckAssumption(table, names[i]).Ok? {
            if i > 0 { assert names[i] == names[1..][i - 1]; }
          }
        }
      }
    }
  }

  /** No short-circuit: the invoke attempts follow the declared order, one
      per position, and without a fault every name is invoked, whatever the
      earlier ones returned. */
  lemma {:induction false} TraceFollowsNames(table: MethodTable, names: seq<string>)
    ensures Trace(table, names) <= names
    ensures FirstFault(table, names).None? ==> Trace(table, names) == names
  {
    if names != [] {
      TraceFollowsNames(table, names[1..]);
      assert names == [names[0]] + names[1..];
    }
  }

  /** A method not declared `boolean` is never invoked. */
  lemma {:induction false} WrongReturnTypeNeverInvoked(table: MethodTable, names: seq<string>, name: string)
    requires name in table && table[name] == NotBoolean
    ensures name !in Trace(table, names)
  {
    if names != [] {
      WrongReturnTypeNeverInvoked(table, names[1..], name);
    }
  }

  /** A false assumption does not stop evaluation: a missing method after
      it still aborts the gate, and the false one was called. */
  lemma FalseThenMissingFaults(testName: string, names: seq<string>, table: MethodTable, i: nat, j: nat)
    requires i < j < |names|
    requires names[i] in table && table[names[i]] == Returns(false)
    requires names[j] !in table
    requires forall k | 0 <= k < j :: CheckAssumption(table, names[k]).Ok?
    ensures FirstFault(table, names) == Some(Fault(names[j], MethodNotFound))
    ensures Gate(Some(TestMethod(testName, Some(names))), table) == Aborted(Fault(names[j], MethodNotFound))
    ensures names[i] in Trace(table, names)
  {
    var pre := names[..j];
    assert names == pre + names[j..];
    FirstFaultIsFirst(table, pre);
    FirstFaultAppend(table, pre, names[j..]);
    TraceFollowsNames(table, pre);
    assert pre[i] == names[i];
  }

  // ---------------------------------------------------------------------
  // Properties of the decision

  /** Without a directive, or with an empty one, the gate lets the test run. */
  lemma GateProceedsWithoutNames(testMethod: Option<TestMethod>, table: MethodTable)
    requires testMethod.None? || testMethod.value.assumption.None? || testMethod.value.assumption == Some([])
    ensures Gate(testMethod, table) == Proceed
  {
  }

  /** Without faults the test is skipped exactly when some named assumption
      returned false, and the skip reports exactly the names that did. */
  lemma GateSkipsIffSomeFalse(name: string, names: seq<string>, table: MethodTable)
    requires FirstFault(table, names).None?
    ensures Gate(Some(TestMethod(name, Some(names))), table).Skipped? <==>
      exists i | 0 <= i < |names| :: names[i] in table && table[names[i]] == Returns(false)
    ensures Gate(Some(TestMethod(name, Some(names))), table).Skipped? ==>
      Gate(Some(TestMethod(name, Some(names))), table).failed == FailedNames(table, names) != []
    ensures Gate(Some(TestMethod(name, Some(names))), table) == Proceed <==> AllHold(table, names)
  {
    FirstFaultIsFirst(table, names);
    AllHoldIffNoneFailed(table, names);
    if exists i | 0 <= i < |names| :: names[i] in table && table[names[i]] == Returns(false) {
      var i :| 0 <= i < |names| && names[i] in table && table[names[i]] == Returns(false);
      assert !(names[i] in table && table[names[i]] == Returns(true));
    }
  }

  /** A fault is never turned into a skip: the gate aborts with the fault of
      the first faulting name whenever one faults. */
  lemma GateAbortsOnFirstFault(name: string, names: seq<string>, table: MethodTable, k: nat)
    requires k < |names| && CheckAssumption(table, names[k]).Err?
    requires forall j | 0 <= j < k :: CheckAssumption(table, names[j]).Ok?
    ensures Gate(Some(TestMethod(name, Some(names))), table) == Aborted(CheckAssumption(table, names[k]).fault)
  {
    var pre := names[..k];
    assert names == pre + names[k..];
    FirstFaultIsFirst(table, pre);
    FirstFaultAppend(table, pre, names[k..]);
  }
}
