// The recursive comparison of a fixture's expected output with the actual one, and the loop that
// runs the fixtures of a mapping version.
module OutputComparison {
  import opened Common

  // Python's type(x), for JSON values.
  datatype Kind = NoneType | BoolType | IntType | FloatType | StrType | ListType | DictType

  function KindOf(j: Json): Kind {
    match j
    case JNull => NoneType
    case JBool(_) => BoolType
    case JInt(_) => IntType
    case JFloat(_) => FloatType
    case JString(_) => StrType
    case JArray(_) => ListType
    case JObject(_) => DictType
  }

  // One key: the actual value has to be there and not None; two dicts are compared recursively;
  // otherwise different values pass as long as their types are equal.
  predicate CompareValues(expected: Json, actual: Json)
    decreases expected
  {
    if actual == JNull then false
    else if expected.JObject? && actual.JObject? then
      forall key | key in expected.fields :: CompareValues(expected.fields[key], Get(actual.fields, key))
    else if expected != actual then KindOf(expected) == KindOf(actual)
    else true
  }

  predicate CompareOutputs(expected: Item, actual: Item) {
    expected == map[] || forall key | key in expected :: CompareValues(expected[key], Get(actual, key))
  }

  // ---------------------------------------------------------------- what it means

  // Follow keys through nested dicts.
  function At(j: Json, path: seq<string>): Option<Json> {
    if path == [] then Some(j)
    else if j.JObject? && path[0] in j.fields then At(j.fields[path[0]], path[1..])
    else None
  }

  // The path reaches a value that is not None and has the kind it has in `expected`.
  ghost predicate ReachesSameKind(expected: Json, actual: Json, path: seq<string>) {
    At(expected, path).Some? ==>
      && At(actual, path).Some? && At(actual, path).value != JNull
      && KindOf(At(actual, path).value) == KindOf(At(expected, path).value)
  }

  lemma {:induction false} PathsFollow(expected: Json, actual: Json, path: seq<string>)
    requires CompareValues(expected, actual)
    ensures ReachesSameKind(expected, actual, path)
    decreases path
  {
    if path == [] || At(expected, path).None? {
    } else {
      var key := path[0];
      assert CompareValues(expected.fields[key], Get(actual.fields, key));
      PathsFollow(expected.fields[key], Get(actual.fields, key), path[1..]);
    }
  }

  lemma {:induction false} PathsSuffice(expected: Json, actual: Json)
    requires forall path :: ReachesSameKind(expected, actual, path)
    ensures CompareValues(expected, actual)
    decreases expected
  {
    assert ReachesSameKind(expected, actual, []);
    if !expected.JObject? {
    } else {
      forall key | key in expected.fields
        ensures CompareValues(expected.fields[key], Get(actual.fields, key))
      {
        assert [key][1..] == [];
        assert ReachesSameKind(expected, actual, [key]);
        forall path
          ensures ReachesSameKind(expected.fields[key], Get(actual.fields, key), path)
        {
          assert ([key] + path)[1..] == path;
          assert ReachesSameKind(expected, actual, [key] + path);
        }
        PathsSuffice(expected.fields[key], Get(actual.fields, key));
      }
    }
  }

  // The comparison holds exactly when every key path of the expected output reaches, in the
  // actual one, a value that is not None and of the same kind.
  lemma CompareMeansPaths(expected: Item, actual: Item)
    ensures CompareOutputs(expected, actual)
            <==> forall path :: ReachesSameKind(JObject(expected), JObject(actual), path)
  {
    var e, a := JObject(expected), JObject(actual);
    assert CompareOutputs(expected, actual) <==> CompareValues(e, a);
    if CompareOutputs(expected, actual) {
      forall path
        ensures ReachesSameKind(e, a, path)
      {
        PathsFollow(e, a, path);
      }
    }
    if forall path :: ReachesSameKind(e, a, path) {
      PathsSuffice(e, a);
    }
  }

  lemma CompareTransitive(a: Item, b: Item, c: Item)
    requires CompareOutputs(a, b) && CompareOutputs(b, c)
    ensures CompareOutputs(a, c)
  {
    CompareMeansPaths(a, b);
    CompareMeansPaths(b, c);
    CompareMeansPaths(a, c);
    forall path
      ensures ReachesSameKind(JObject(a), JObject(c), path)
    {
      assert ReachesSameKind(JObject(a), JObject(b), path);
      assert ReachesSameKind(JObject(b), JObject(c), path);
    }
  }

  // No None at the end of any key path.
  ghost predicate NoneFree(j: Json) {
    forall path :: At(j, path) != Some(JNull)
  }

  // An output matches itself exactly when no key path of it ends in None.
  lemma CompareReflexiveIff(e: Item)
    ensures CompareOutputs(e, e) <==> NoneFree(JObject(e))
  {
    CompareMeansPaths(e, e);
    if NoneFree(JObject(e)) {
      forall path
        ensures ReachesSameKind(JObject(e), JObject(e), path)
      {
        assert At(JObject(e), path) != Some(JNull);
      }
    }
    if CompareOutputs(e, e) {
      forall path
        ensures At(JObject(e), path) != Some(JNull)
      {
        assert ReachesSameKind(JObject(e), JObject(e), path);
      }
    }
  }

  // `b` holds everything `a` holds, and possibly more keys at any depth.
  predicate Extends(a: Json, b: Json)
    decreases a
  {
    if a.JObject? && b.JObject? then
      forall key | key in a.fields :: key in b.fields && Extends(a.fields[key], b.fields[key])
    else a == b
  }

  lemma {:induction false} ExtendsKeepsPaths(a: Json, b: Json, path: seq<string>)
    requires Extends(a, b) && At(a, path).Some?
    ensures At(b, path).Some? && KindOf(At(b, path).value) == KindOf(At(a, path).value)
    decreases path
  {
    if path == [] {
    } else {
      if b.JObject? {
        ExtendsKeepsPaths(a.fields[path[0]], b.fields[path[0]], path[1..]);
      }
    }
  }

  // Adding keys to the actual output, at any depth, never breaks a match.
  lemma CompareMonotone(expected: Item, actual: Item, more: Item)
    requires CompareOutputs(expected, actual) && Extends(JObject(actual), JObject(more))
    ensures CompareOutputs(expected, more)
  {
    CompareMeansPaths(expected, actual);
    CompareMeansPaths(expected, more);
    forall path
      ensures ReachesSameKind(JObject(expected), JObject(more), path)
    {
      assert ReachesSameKind(JObject(expected), JObject(actual), path);
      if At(JObject(actual), path).Some? {
        ExtendsKeepsPaths(JObject(actual), JObject(more), path);
      }
    }
  }

  // ---------------------------------------------------------------- the fixture loop

  datatype FixtureStatus = Running | Passed | Failed | Warning | Pending

  // Whether the row has an expected_output attribute at all; reading a missing one raises.
  datatype Expectation = NoAttribute | Expects(output: Item)

  class Fixture {
    var input: Item
    const expectation: Expectation
    var status: FixtureStatus
    var actual: Option<Item>
    var errorMessage: Option<string>

    constructor (input: Item, expectation: Expectation)
      ensures this.input == input && this.expectation == expectation
    {
      this.input, this.expectation := input, expectation;
      status, actual, errorMessage := Pending, None, None;
    }

    // What the loop decides for this fixture.
    predicate Passes()
      reads this
    {
      expectation.Expects? && CompareOutputs(expectation.output, RunFixtureTest(input))
    }

    method Run() returns (passed: bool)
      modifies this
      ensures passed == old(Passes()) && input == old(input)
      ensures status == if passed then Passed else Failed
      ensures actual == Some(RunFixtureTest(input))
      ensures errorMessage == if passed then old(errorMessage)
                              else if expectation.NoAttribute? then Some("AttributeError") else Some("output mismatch")
    {
      status := Running;
      var output := RunFixtureTest(input);
      actual := Some(output);
      if expectation.NoAttribute? {
        status, errorMessage := Failed, Some("AttributeError");
        return false;
      }
      if expectation.output != map[] {
        if CompareOutputs(expectation.output, output) {
          status := Passed;
          return true;
        }
        status, errorMessage := Failed, Some("output mismatch");
        return false;
      }
      status := Passed;
      return true;
    }
  }

  function RunFixtureTest(input: Item): Item {
    map["processed" := JObject(input), "status" := JString("ok")]
  }

  // What passing means for a fixture: it expects nothing but a status, which has to be a text, and a
  // processed part, which has to be matched by the input.
  lemma PassesIff(f: Fixture)
    ensures f.Passes() <==>
            && f.expectation.Expects?
            && var expected := f.expectation.output;
            && (forall key :: key in expected ==> key == "status" || key == "processed")
            && ("status" in expected ==> expected["status"].JString?)
            && ("processed" in expected ==>
                  expected["processed"].JObject? && CompareOutputs(expected["processed"].fields, f.input))
  {
    if f.expectation.Expects? {
      var expected := f.expectation.output;
      assert forall key :: key != "status" && key != "processed" ==> Get(RunFixtureTest(f.input), key) == JNull;
      assert forall key :: key in expected ==> CompareValues(expected[key], Get(RunFixtureTest(f.input), key)) ==>
               key == "status" || key == "processed";
    }
  }

  datatype TargetType = MappingTarget | OntologyTarget | OtherTarget

  class ValidationRun {
    var status: FixtureStatus
    var target: TargetType
    var totalChecks: nat
    var passedChecks: nat
    var failedChecks: nat

    constructor (target: TargetType)
      ensures this.target == target && status == Pending
    {
      this.target := target;
      status, totalChecks, passedChecks, failedChecks := Pending, 0, 0, 0;
    }

    // A mapping run passes exactly when every fixture passes; every fixture is counted once, as
    // passed or failed, and keeps the verdict it was given.
    method Execute(fixtures: seq<Fixture>) returns (refusal: Option<Refusal>)
      requires Distinct(fixtures)
      modifies this, fixtures
      ensures target == old(target)
      ensures old(status) == Running ==> refusal == Some(Conflict) && unchanged(this) && unchanged(fixtures)
      ensures old(status) != Running ==> refusal == None
      ensures old(status) != Running && target != MappingTarget ==>
        status == Warning && totalChecks == passedChecks == failedChecks == 0 && unchanged(fixtures)
      ensures old(status) != Running && target == MappingTarget ==>
        && totalChecks == |fixtures| && passedChecks == CountTrue(old(Verdicts(fixtures)))
        && passedChecks + failedChecks == totalChecks
        && status == (if old(AllPass(fixtures)) then Passed else Failed)
        && forall i :: 0 <= i < |fixtures| ==> Judged(fixtures[i], old(fixtures[i].input), old(fixtures[i].Passes()))
    {
      if status == Running {
        return Some(Conflict);
      }
      AllPassIff(fixtures);
      hide *;
      status := Running;
      if target != MappingTarget {
        totalChecks, passedChecks, failedChecks, status := 0, 0, 0, Warning;
        return None;
      }
      var passed, failed := RunAll(fixtures);
      status := if failed == 0 then Passed else Failed;
      totalChecks, passedChecks, failedChecks := |fixtures|, passed, failed;
      return None;
    }
  }

  ghost function Verdicts(fixtures: seq<Fixture>): seq<bool>
    reads fixtures
  {
    seq(|fixtures|, i requires 0 <= i < |fixtures| reads fixtures => fixtures[i].Passes())
  }

  ghost function CountTrue(verdicts: seq<bool>): nat {
    if verdicts == [] then 0
    else CountTrue(verdicts[..|verdicts| - 1]) + if verdicts[|verdicts| - 1] then 1 else 0
  }

  lemma {:induction false} AllTrueIff(verdicts: seq<bool>)
    ensures CountTrue(verdicts) <= |verdicts|
    ensures CountTrue(verdicts) == |verdicts| <==> forall i :: 0 <= i < |verdicts| ==> verdicts[i]
  {
    if verdicts == [] {
    } else {
      AllTrueIff(verdicts[..|verdicts| - 1]);
    }
  }

  // The fixture keeps its input, the output it gave and the verdict on it.
  ghost predicate Judged(f: Fixture, input: Item, verdict: bool)
    reads f
  {
    f.input == input && f.actual == Some(RunFixtureTest(input)) && f.status == if verdict then Passed else Failed
  }

  ghost predicate AllPass(fixtures: seq<Fixture>)
    reads fixtures
  {
    forall i :: 0 <= i < |fixtures| ==> fixtures[i].Passes()
  }

  lemma AllPassIff(fixtures: seq<Fixture>)
    ensures CountTrue(Verdicts(fixtures)) == |fixtures| <==> AllPass(fixtures)
  {
    AllTrueIff(Verdicts(fixtures));
    hide CountTrue;
    assert forall i :: 0 <= i < |fixtures| ==> Verdicts(fixtures)[i] == fixtures[i].Passes();
  }

  method RunAll(fixtures: seq<Fixture>) returns (passed: nat, failed: nat)
    requires Distinct(fixtures)
    modifies fixtures
    ensures passed == CountTrue(old(Verdicts(fixtures))) && passed + failed == |fixtures|
    ensures forall i :: 0 <= i < |fixtures| ==>
              Judged(fixtures[i], old(fixtures[i].input), old(fixtures[i].Passes()))
  {
    passed, failed := 0, 0;
    ghost var verdicts := Verdicts(fixtures);
    for n := 0 to |fixtures|
      invariant passed + failed == n && passed == CountTrue(verdicts[..n])
      invariant forall i :: 0 <= i < n ==> Judged(fixtures[i], old(fixtures[i].input), verdicts[i])
      invariant forall i :: n <= i < |fixtures| ==> unchanged(fixtures[i])
    {
      var ok := fixtures[n].Run();
      if ok {
        passed := passed + 1;
      } else {
        failed := failed + 1;
      }
      assert verdicts[..n + 1][..n] == verdicts[..n];
    }
    assert verdicts[..|fixtures|] == verdicts;
  }

  // A remark: stored fixture rows have no expected_output column, so none of them passes.
  lemma StoredFixturesFail(fixtures: seq<Fixture>)
    requires forall i :: 0 <= i < |fixtures| ==> fixtures[i].expectation == NoAttribute
    ensures CountTrue(Verdicts(fixtures)) == 0
  {
    NoneTrue(Verdicts(fixtures));
  }

  lemma {:induction false} NoneTrue(verdicts: seq<bool>)
    requires forall i :: 0 <= i < |verdicts| ==> !verdicts[i]
    ensures CountTrue(verdicts) == 0
  {
    if verdicts == [] {
    } else {
      NoneTrue(verdicts[..|verdicts| - 1]);
    }
  }
}
