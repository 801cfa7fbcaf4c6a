/** From configuration to available tests: devices, then functions, then tests. */
module Availability {
  const MAX_DEVICES: nat := 128
  const MAX_BINDINGS: nat := 64
  const MAX_FUNCTIONS: nat := 128
  const MAX_TESTS: nat := 128

  datatype Binding = Binding(device: string, enabled: bool)
  datatype FunctionDef = FunctionDef(name: string, devices: seq<string>)
  datatype TestDef = TestDef(name: string, functionName: string)

  /** The loaded configuration; of a device definition only the name matters here. */
  datatype Config = Config(devices: seq<string>, bindings: seq<Binding>, functions: seq<FunctionDef>, tests: seq<TestDef>)

  ghost predicate DistinctNames(s: seq<string>) {
    forall i, j | 0 <= i < j < |s| :: s[i] != s[j]
  }

  /** What the parsers load: counts within the tables, and no name given twice. */
  ghost predicate InRange(c: Config) {
    && |c.devices| <= MAX_DEVICES && |c.bindings| <= MAX_BINDINGS
    && |c.functions| <= MAX_FUNCTIONS && |c.tests| <= MAX_TESTS
    && DistinctNames(c.devices)
    && DistinctNames(FunctionNames(c.functions))
    && forall i | 0 <= i < |c.functions| :: |c.functions[i].devices| <= MAX_DEVICES
  }

  function FunctionNames(fs: seq<FunctionDef>): (names: seq<string>)
    ensures |names| == |fs|
  {
    seq(|fs|, i requires 0 <= i < |fs| => fs[i].name)
  }

  // ----- the three tables

  /** Definitions that an enabled binding names. */
  function Bound(b: Binding, defs: seq<string>): seq<string> {
    if defs == [] then []
    else
      var n := |defs| - 1;
      Bound(b, defs[..n]) + (if defs[n] == b.device && b.enabled then [defs[n]] else [])
  }

  function DeviceTable(bindings: seq<Binding>, defs: seq<string>): seq<string> {
    if bindings == [] then []
    else DeviceTable(bindings[..|bindings|-1], defs) + Bound(bindings[|bindings|-1], defs)
  }

  predicate Served(f: FunctionDef, devices: seq<string>) {
    f.devices != [] && forall d | d in f.devices :: d in devices
  }

  function FunctionTable(fs: seq<FunctionDef>, devices: seq<string>): seq<FunctionDef> {
    if fs == [] then []
    else
      var n := |fs| - 1;
      FunctionTable(fs[..n], devices) + (if Served(fs[n], devices) then [fs[n]] else [])
  }

  function TestsFor(f: FunctionDef, tests: seq<TestDef>): seq<TestDef> {
    if tests == [] then []
    else
      var n := |tests| - 1;
      TestsFor(f, tests[..n]) + (if tests[n].functionName == f.name then [tests[n]] else [])
  }

  function TestTable(fs: seq<FunctionDef>, tests: seq<TestDef>): seq<TestDef> {
    if fs == [] then []
    else TestTable(fs[..|fs|-1], tests) + TestsFor(fs[|fs|-1], tests)
  }

  // ----- filling the tables in place

  class DeviceManager {
    const devices: array<string>
    var count: nat

    ghost predicate Valid()
      reads this
    {
      devices.Length == MAX_DEVICES && count <= MAX_DEVICES
    }

    ghost function Table(): seq<string>
      reads this, devices
      requires Valid()
    {
      devices[..count]
    }

    constructor ()
      ensures Valid() && fresh(devices) && Table() == []
    {
      devices := new string[MAX_DEVICES](_ => "");
      count := 0;
    }

    /** `prepare_device_info`. */
    method Prepare(c: Config) returns (status: int)
      requires Valid() && Table() == [] && InRange(c)
      modifies this, devices
      ensures Valid() && Table() == DeviceTable(c.bindings, c.devices)
      ensures status == if c.bindings == [] then -1 else 0
    {
      if |c.bindings| == 0 { return -1; }
      assert |c.bindings| <= MAX_BINDINGS && DistinctNames(c.devices);
      hide DeviceTable, Bound, DistinctNames, FunctionNames, InRange;
      DeviceTableStep(c.bindings, c.devices, 0);
      for index := 0 to |c.bindings|
        invariant Valid() && Table() == DeviceTable(c.bindings[..index], c.devices)
      {
        AtMostOnePerBinding(c.bindings[..index], c.devices);
        assert count <= index;
        AddBound(c.bindings[index], c.devices);
        DeviceTableStep(c.bindings, c.devices, index);
      }
      assert c.bindings[..|c.bindings|] == c.bindings;
      return 0;
    }

    /** The inner loop: the definitions that an enabled binding names. */
    method AddBound(binding: Binding, defs: seq<string>)
      requires Valid() && count < MAX_DEVICES && DistinctNames(defs)
      modifies this, devices
      ensures Valid() && Table() == old(Table()) + Bound(binding, defs)
    {
      hide Bound, DistinctNames;
      ghost var before := Table();
      BoundStep(binding, defs, 0);
      for device := 0 to |defs|
        invariant Valid() && Table() == before + Bound(binding, defs[..device])
      {
        PrefixDistinct(defs, device);
        AtMostOne(binding, defs[..device]);
        BoundStep(binding, defs, device);
        if defs[device] == binding.device && binding.enabled {
          assert Bound(binding, defs[..device]) == [] && count == |before|;
          Add(defs[device]);
          assert Bound(binding, defs[..device+1]) == [defs[device]];
        } else {
          assert Bound(binding, defs[..device+1]) == Bound(binding, defs[..device]);
        }
      }
      assert defs[..|defs|] == defs;
    }

    method Add(name: string)
      requires Valid() && count < MAX_DEVICES
      modifies this, devices
      ensures Valid() && Table() == old(Table()) + [name]
    {
      devices[count] := name;
      count := count + 1;
    }
  }

  lemma PrefixDistinct(s: seq<string>, n: nat)
    requires n <= |s| && DistinctNames(s)
    ensures DistinctNames(s[..n])
    ensures n < |s| ==> s[n] !in s[..n]
  {
  }

  lemma BoundStep(b: Binding, defs: seq<string>, i: nat)
    requires i <= |defs|
    ensures Bound(b, defs[..0]) == []
    ensures i < |defs| ==>
      Bound(b, defs[..i+1]) == Bound(b, defs[..i]) + (if defs[i] == b.device && b.enabled then [defs[i]] else [])
  {
    if i < |defs| { assert defs[..i+1][..i] == defs[..i]; }
  }

  lemma DeviceTableStep(bindings: seq<Binding>, defs: seq<string>, i: nat)
    requires i <= |bindings|
    ensures DeviceTable(bindings[..0], defs) == []
    ensures i < |bindings| ==>
      DeviceTable(bindings[..i+1], defs) == DeviceTable(bindings[..i], defs) + Bound(bindings[i], defs)
  {
    if i < |bindings| { assert bindings[..i+1][..i] == bindings[..i]; }
  }

  lemma {:induction false} AtMostOne(b: Binding, defs: seq<string>)
    requires DistinctNames(defs)
    ensures |Bound(b, defs)| <= 1 && (b.device !in defs ==> Bound(b, defs) == [])
  {
    if defs != [] {
      var n := |defs| - 1;
      AtMostOne(b, defs[..n]);
      assert defs[n] !in defs[..n];
      assert forall d | d in defs[..n] :: d in defs;
    }
  }

  lemma {:induction false} AtMostOnePerBinding(bindings: seq<Binding>, defs: seq<string>)
    requires DistinctNames(defs)
    ensures |DeviceTable(bindings, defs)| <= |bindings|
  {
    if bindings != [] {
      AtMostOnePerBinding(bindings[..|bindings|-1], defs);
      AtMostOne(bindings[|bindings|-1], defs);
    }
  }

  class FunctionManager {
    const functions: array<FunctionDef>
    var count: nat

    ghost predicate Valid()
      reads this
    {
      functions.Length == MAX_FUNCTIONS && count <= MAX_FUNCTIONS
    }

    ghost function Table(): seq<FunctionDef>
      reads this, functions
      requires Valid()
    {
      functions[..count]
    }

    constructor ()
      ensures Valid() && fresh(functions) && Table() == []
    {
      functions := new FunctionDef[MAX_FUNCTIONS](_ => FunctionDef("", []));
      count := 0;
    }

    /** `prepare_function_info`; the index over the device list is an 8-bit counter. */
    method Prepare(c: Config, devices: seq<string>)
      requires Valid() && Table() == [] && InRange(c)
      modifies this, functions
      ensures Valid() && Table() == FunctionTable(c.functions, devices)
    {
      for index := 0 to |c.functions|
        invariant Valid() && count <= index && Table() == FunctionTable(c.functions[..index], devices)
      {
        var f := c.functions[index];
        assert c.functions[..index+1][..index] == c.functions[..index];
        if |f.devices| == 0 { continue; }
        var matched := MatchDevices(f.devices, devices);
        if matched == |f.devices| {
          functions[count] := f;
          count := count + 1;
          assert Table() == FunctionTable(c.functions[..index], devices) + [f];
        }
      }
      assert c.functions[..|c.functions|] == c.functions;
    }
  }

  /** The matching loop: it stops at the first device that is missing. */
  method MatchDevices(wanted: seq<string>, devices: seq<string>) returns (matched: nat)
    requires |wanted| <= MAX_DEVICES
    ensures matched == |wanted| <==> forall d | d in wanted :: d in devices
  {
    matched := 0;
    var index := 0;
    while index < |wanted|
      invariant matched == index <= |wanted| && forall i | 0 <= i < index :: wanted[i] in devices
    {
      var found := false;
      for device := 0 to |devices|
        invariant !found && forall i | 0 <= i < device :: devices[i] != wanted[index]
      {
        if devices[device] == wanted[index] {
          found := true;
          break;
        }
      }
      if !found {
        assert wanted[index] in wanted;
        break;
      }
      matched := matched + 1;
      index := (index + 1) % 256;
    }
  }

  class TestManager {
    const tests: array<TestDef>
    var count: nat

    ghost predicate Valid()
      reads this
    {
      tests.Length == MAX_TESTS && count <= MAX_TESTS
    }

    ghost function Table(): seq<TestDef>
      reads this, tests
      requires Valid()
    {
      tests[..count]
    }

    constructor ()
      ensures Valid() && fresh(tests) && Table() == []
    {
      tests := new TestDef[MAX_TESTS](_ => TestDef("", ""));
      count := 0;
    }

    /** `prepare_test_manager_info`. */
    method Prepare(c: Config, functions: seq<FunctionDef>)
      requires Valid() && Table() == [] && InRange(c) && DistinctNames(FunctionNames(functions))
      modifies this, tests
      ensures Valid() && Table() == TestTable(functions, c.tests)
    {
      assert |c.tests| <= MAX_TESTS;
      hide InRange, DistinctNames, FunctionNames, TestsFor;
      for index := 0 to |functions|
        invariant Valid() && Table() == TestTable(functions[..index], c.tests)
      {
        AddTests(functions, index, c.tests);
        assert functions[..index+1][..index] == functions[..index];
      }
      assert functions[..|functions|] == functions;
    }

    /** The inner loop: the tests that need this function. */
    method AddTests(functions: seq<FunctionDef>, index: nat, defs: seq<TestDef>)
      requires Valid() && index < |functions| && |defs| <= MAX_TESTS && DistinctNames(FunctionNames(functions))
      requires Table() == TestTable(functions[..index], defs)
      modifies this, tests
      ensures Valid() && Table() == old(Table()) + TestsFor(functions[index], defs)
    {
      hide DistinctNames, FunctionNames, TestsFor, TestTable;
      var f := functions[index];
      ghost var before := Table();
      TestsForStep(f, defs, 0);
      for test := 0 to |defs|
        invariant Valid() && Table() == before + TestsFor(f, defs[..test])
      {
        RoomForTests(functions, defs, index, test);
        TestsForStep(f, defs, test);
        if defs[test].functionName == f.name {
          tests[count] := defs[test];
          count := count + 1;
          assert Table() == before + TestsFor(f, defs[..test]) + [defs[test]];
        }
      }
      assert defs[..|defs|] == defs;
    }

    /** `test_manager_test_is_available`. */
    method IsAvailable(name: string) returns (available: bool)
      requires Valid()
      ensures available <==> exists i :: 0 <= i < |Table()| && Table()[i].name == name
    {
      for index := 0 to count
        invariant forall i | 0 <= i < index :: Table()[i].name != name
      {
        if tests[index].name == name {
          assert Table()[index].name == name;
          return true;
        }
      }
      return false;
    }
  }

  lemma TestsForStep(f: FunctionDef, tests: seq<TestDef>, i: nat)
    requires i <= |tests|
    ensures TestsFor(f, tests[..0]) == []
    ensures i < |tests| ==>
      TestsFor(f, tests[..i+1]) == TestsFor(f, tests[..i]) + (if tests[i].functionName == f.name then [tests[i]] else [])
  {
    if i < |tests| { assert tests[..i+1][..i] == tests[..i]; }
  }

  // ----- no test is listed twice, so the table has room

  predicate Wants(t: TestDef, fs: seq<FunctionDef>) {
    exists i :: 0 <= i < |fs| && fs[i].name == t.functionName
  }

  lemma NamesOfPrefix(fs: seq<FunctionDef>, n: nat)
    requires n <= |fs| && DistinctNames(FunctionNames(fs))
    ensures DistinctNames(FunctionNames(fs[..n]))
    ensures n < |fs| ==> forall i | 0 <= i < n :: fs[i].name != fs[n].name
  {
    var names := FunctionNames(fs);
    forall i, j | 0 <= i < j < |fs| ensures fs[i].name != fs[j].name { assert names[i] != names[j]; }
  }

  /** The last test is listed once or not at all. */
  lemma {:induction false} TableByTest(fs: seq<FunctionDef>, tests: seq<TestDef>)
    requires tests != [] && DistinctNames(FunctionNames(fs))
    ensures |TestTable(fs, tests)| ==
      |TestTable(fs, tests[..|tests|-1])| + if Wants(tests[|tests|-1], fs) then 1 else 0
  {
    if fs != [] {
      var n, t := |fs| - 1, tests[|tests|-1];
      NamesOfPrefix(fs, n);
      TableByTest(fs[..n], tests);
      assert Wants(t, fs) <==> Wants(t, fs[..n]) || fs[n].name == t.functionName by {
        if Wants(t, fs) {
          var i :| 0 <= i < |fs| && fs[i].name == t.functionName;
          assert i < n ==> fs[..n][i].name == t.functionName;
        }
        if Wants(t, fs[..n]) {
          var i :| 0 <= i < n && fs[..n][i].name == t.functionName;
          assert fs[i].name == t.functionName;
        }
      }
    }
  }

  lemma {:induction false} Room(fs: seq<FunctionDef>, f: FunctionDef, tests: seq<TestDef>, k: nat)
    requires DistinctNames(FunctionNames(fs)) && (forall i | 0 <= i < |fs| :: fs[i].name != f.name) && k <= |tests|
    ensures |TestTable(fs, tests)| + |TestsFor(f, tests[..k])| +
      (if k < |tests| && tests[k].functionName == f.name then 1 else 0) <= |tests|
    decreases |tests|
  {
    if tests == [] {
      NoTests(fs);
    } else {
      hide DistinctNames, FunctionNames, TestTable, TestsFor;
      var n := |tests| - 1;
      TestsForStep(f, tests, n);
      TableByTest(fs, tests);
      assert tests[..n+1] == tests;
      Room(fs, f, tests[..n], if k < n then k else n);
      if k < n {
        assert tests[..n][..k] == tests[..k];
      } else {
        assert tests[..n][..n] == tests[..n] && tests[..|tests|] == tests;
      }
    }
  }

  lemma {:induction false} NoTests(fs: seq<FunctionDef>)
    ensures TestTable(fs, []) == []
  {
    if fs != [] { NoTests(fs[..|fs|-1]); }
  }

  lemma RoomForTests(fs: seq<FunctionDef>, tests: seq<TestDef>, i: nat, k: nat)
    requires DistinctNames(FunctionNames(fs)) && i < |fs| && k < |tests| <= MAX_TESTS
    ensures tests[k].functionName == fs[i].name ==>
      |TestTable(fs[..i], tests)| + |TestsFor(fs[i], tests[..k])| < MAX_TESTS
  {
    NamesOfPrefix(fs, i);
    Room(fs[..i], fs[i], tests, k);
  }

  // ----- what is in the tables

  predicate BoundIn(bindings: seq<Binding>, d: string) {
    exists i :: 0 <= i < |bindings| && bindings[i].device == d && bindings[i].enabled
  }

  predicate DefinedAndBound(c: Config, d: string) {
    d in c.devices && BoundIn(c.bindings, d)
  }

  /** The function of this test is configured, needs devices, and all of them are defined and bound. */
  predicate Provided(c: Config, t: TestDef) {
    exists f :: f in c.functions && ProvidesFor(c, f, t)
  }

  predicate ProvidesFor(c: Config, f: FunctionDef, t: TestDef) {
    f.name == t.functionName && f.devices != [] && forall d | d in f.devices :: DefinedAndBound(c, d)
  }

  lemma {:induction false} InBound(b: Binding, defs: seq<string>, d: string)
    ensures d in Bound(b, defs) <==> d in defs && d == b.device && b.enabled
  {
    if defs != [] {
      var n := |defs| - 1;
      InBound(b, defs[..n], d);
      assert defs == defs[..n] + [defs[n]];
    }
  }

  lemma BoundInStep(bindings: seq<Binding>, d: string)
    requires bindings != []
    ensures var n := |bindings| - 1;
      BoundIn(bindings, d) <==> BoundIn(bindings[..n], d) || (bindings[n].device == d && bindings[n].enabled)
  {
    var n := |bindings| - 1;
    if BoundIn(bindings[..n], d) {
      var i :| 0 <= i < n && bindings[..n][i].device == d && bindings[..n][i].enabled;
      assert bindings[i] == bindings[..n][i];
    }
    if BoundIn(bindings, d) {
      var i :| 0 <= i <= n && bindings[i].device == d && bindings[i].enabled;
      if i < n { assert bindings[..n][i] == bindings[i]; }
    }
  }

  lemma {:induction false} InDeviceTable(bindings: seq<Binding>, defs: seq<string>, d: string)
    ensures d in DeviceTable(bindings, defs) <==> d in defs && BoundIn(bindings, d)
  {
    if bindings != [] {
      hide BoundIn;
      var n := |bindings| - 1;
      InDeviceTable(bindings[..n], defs, d);
      InBound(bindings[n], defs, d);
      BoundInStep(bindings, d);
    }
  }

  lemma {:induction false} InFunctionTable(fs: seq<FunctionDef>, devices: seq<string>, f: FunctionDef)
    ensures f in FunctionTable(fs, devices) <==> f in fs && Served(f, devices)
  {
    if fs != [] {
      var n := |fs| - 1;
      InFunctionTable(fs[..n], devices, f);
      assert fs == fs[..n] + [fs[n]];
    }
  }

  lemma {:induction false} InTestsFor(f: FunctionDef, tests: seq<TestDef>, t: TestDef)
    ensures t in TestsFor(f, tests) <==> t in tests && t.functionName == f.name
  {
    if tests != [] {
      var n := |tests| - 1;
      InTestsFor(f, tests[..n], t);
      assert tests == tests[..n] + [tests[n]];
    }
  }

  lemma {:induction false} InTestTable(fs: seq<FunctionDef>, tests: seq<TestDef>, t: TestDef)
    ensures t in TestTable(fs, tests) <==> t in tests && exists f :: f in fs && f.name == t.functionName
  {
    if fs != [] {
      var n := |fs| - 1;
      InTestTable(fs[..n], tests, t);
      InTestsFor(fs[n], tests, t);
      assert fs == fs[..n] + [fs[n]];
    }
  }

  /** The functions that survive keep distinct names. */
  lemma {:induction false} TableNamesDistinct(fs: seq<FunctionDef>, devices: seq<string>)
    requires DistinctNames(FunctionNames(fs))
    ensures DistinctNames(FunctionNames(FunctionTable(fs, devices)))
  {
    if fs != [] {
      var n := |fs| - 1;
      NamesOfPrefix(fs, n);
      TableNamesDistinct(fs[..n], devices);
      var t := FunctionTable(fs[..n], devices);
      forall i | 0 <= i < |t| ensures t[i].name != fs[n].name {
        InFunctionTable(fs[..n], devices, t[i]);
        assert t[i] in fs[..n];
      }
      var names := FunctionNames(t);
      assert forall i | 0 <= i < |t| :: names[i] == t[i].name;
    }
  }

  /** The tests that end up available. */
  function AvailableTests(c: Config): seq<TestDef> {
    TestTable(FunctionTable(c.functions, DeviceTable(c.bindings, c.devices)), c.tests)
  }

  /** A configured test is available exactly when its function is configured with a non-empty list of
      devices that are all defined and bound with enable set. */
  lemma AvailableExactly(c: Config, t: TestDef)
    ensures t in AvailableTests(c) <==> t in c.tests && Provided(c, t)
  {
    var devices := DeviceTable(c.bindings, c.devices);
    forall d ensures d in devices <==> DefinedAndBound(c, d) { InDeviceTable(c.bindings, c.devices, d); }
    var fs := FunctionTable(c.functions, devices);
    forall f: FunctionDef
      ensures f in fs <==> f in c.functions && f.devices != [] && forall d | d in f.devices :: DefinedAndBound(c, d)
    {
      InFunctionTable(c.functions, devices, f);
    }
    InTestTable(fs, c.tests, t);
    if Provided(c, t) {
      var f :| f in c.functions && ProvidesFor(c, f, t);
      assert f in fs;
    }
  }

  // ----- in which order

  /** `r` are the elements of `s` that fit, in their order; `at` are their places. */
  ghost predicate Chosen<A(!new)>(r: seq<A>, s: seq<A>, at: seq<nat>, fits: A -> bool) {
    && |r| == |at| && (forall k, l | 0 <= k < l < |at| :: at[k] < at[l])
    && (forall k | 0 <= k < |at| :: at[k] < |s| && r[k] == s[at[k]] && fits(r[k]))
    && forall i: nat | i < |s| && fits(s[i]) :: i in at
  }

  lemma ChosenMore<A(!new)>(r: seq<A>, s: seq<A>, at: seq<nat>, fits: A -> bool) returns (at': seq<nat>)
    requires s != [] && Chosen(r, s[..|s|-1], at, fits)
    ensures Chosen(r + (if fits(s[|s|-1]) then [s[|s|-1]] else []), s, at', fits)
  {
    var n := |s| - 1;
    at' := at + if fits(s[n]) then [n] else [];
    forall i: nat | i < |s| && fits(s[i]) ensures i in at' {
      if i < n { assert s[..n][i] == s[i]; } else { assert at'[|at|] == n; }
    }
  }

  lemma {:induction false} BoundInOrder(b: Binding, defs: seq<string>) returns (at: seq<nat>)
    ensures Chosen(Bound(b, defs), defs, at, d => d == b.device && b.enabled)
  {
    at := [];
    if defs != [] {
      at := BoundInOrder(b, defs[..|defs|-1]);
      at := ChosenMore(Bound(b, defs[..|defs|-1]), defs, at, d => d == b.device && b.enabled);
    }
  }

  lemma {:induction false} TestsForInOrder(f: FunctionDef, tests: seq<TestDef>) returns (at: seq<nat>)
    ensures Chosen(TestsFor(f, tests), tests, at, (t: TestDef) => t.functionName == f.name)
  {
    at := [];
    if tests != [] {
      at := TestsForInOrder(f, tests[..|tests|-1]);
      at := ChosenMore(TestsFor(f, tests[..|tests|-1]), tests, at, (t: TestDef) => t.functionName == f.name);
    }
  }

  /** The functions stand in the table in the order of their definitions. */
  lemma {:induction false} FunctionsInOrder(fs: seq<FunctionDef>, devices: seq<string>) returns (at: seq<nat>)
    ensures Chosen(FunctionTable(fs, devices), fs, at, (f: FunctionDef) => Served(f, devices))
  {
    hide Served;
    at := [];
    if fs != [] {
      at := FunctionsInOrder(fs[..|fs|-1], devices);
      at := ChosenMore(FunctionTable(fs[..|fs|-1], devices), fs, at, (f: FunctionDef) => Served(f, devices));
    }
  }

  /** The order of two nested loops. */
  ghost predicate Nested(at: seq<(nat, nat)>) {
    forall k, l | 0 <= k < l < |at| :: at[k].0 < at[l].0 || (at[k].0 == at[l].0 && at[k].1 < at[l].1)
  }

  ghost predicate PairsFit<A(!new), B(!new)>(r: seq<B>, s: seq<A>, t: seq<B>, at: seq<(nat, nat)>, fits: (A, B) -> bool) {
    |r| == |at| && forall k | 0 <= k < |at| :: PairFits(r[k], s, t, at[k], fits)
  }

  ghost predicate PairFits<A(!new), B(!new)>(x: B, s: seq<A>, t: seq<B>, pair: (nat, nat), fits: (A, B) -> bool) {
    pair.0 < |s| && pair.1 < |t| && x == t[pair.1] && fits(s[pair.0], x)
  }

  ghost predicate AllPairs<A(!new), B(!new)>(s: seq<A>, t: seq<B>, at: seq<(nat, nat)>, fits: (A, B) -> bool) {
    forall i: nat, j: nat | i < |s| && j < |t| && fits(s[i], t[j]) :: (i, j) in at
  }

  /** `r` are the second elements of the pairs that fit, in the order of two nested loops; `at` are the places of the
      pairs. */
  ghost predicate Joined<A(!new), B(!new)>(r: seq<B>, s: seq<A>, t: seq<B>, at: seq<(nat, nat)>, fits: (A, B) -> bool) {
    Nested(at) && PairsFit(r, s, t, at, fits) && AllPairs(s, t, at, fits)
  }

  /** A row of the outer loop: its pairs come behind all earlier ones. */
  function WithRow(at: seq<(nat, nat)>, n: nat, columns: seq<nat>): (r: seq<(nat, nat)>)
    ensures |r| == |at| + |columns|
    ensures forall k | 0 <= k < |r| :: r[k] == if k < |at| then at[k] else (n, columns[k-|at|])
  {
    at + seq(|columns|, k requires 0 <= k < |columns| => (n, columns[k]))
  }

  lemma JoinedMore<A(!new), B(!new)>(r: seq<B>, row: seq<B>, s: seq<A>, t: seq<B>, at: seq<(nat, nat)>, columns: seq<nat>,
                                     fits: (A, B) -> bool)
    requires s != [] && Joined(r, s[..|s|-1], t, at, fits) && Chosen(row, t, columns, y => fits(s[|s|-1], y))
    ensures Joined(r + row, s, t, WithRow(at, |s| - 1, columns), fits)
  {
    PairsMore(r, row, s, t, at, columns, fits);
    AllMore(s, t, at, columns, fits);
    hide PairsFit, AllPairs;
    forall k | 0 <= k < |at| ensures at[k].0 < |s| - 1 { FittingRow(r, s[..|s|-1], t, at, k, fits); }
  }

  lemma FittingRow<A(!new), B(!new)>(r: seq<B>, s: seq<A>, t: seq<B>, at: seq<(nat, nat)>, k: nat, fits: (A, B) -> bool)
    requires PairsFit(r, s, t, at, fits) && k < |at|
    ensures at[k].0 < |s|
  {
    assert PairFits(r[k], s, t, at[k], fits);
  }

  lemma PairsMore<A(!new), B(!new)>(r: seq<B>, row: seq<B>, s: seq<A>, t: seq<B>, at: seq<(nat, nat)>, columns: seq<nat>,
                                    fits: (A, B) -> bool)
    requires s != [] && PairsFit(r, s[..|s|-1], t, at, fits) && Chosen(row, t, columns, y => fits(s[|s|-1], y))
    ensures PairsFit(r + row, s, t, WithRow(at, |s| - 1, columns), fits)
  {
    hide WithRow;
    var n := |s| - 1;
    var at' := WithRow(at, n, columns);
    forall k | 0 <= k < |at'| ensures PairFits((r + row)[k], s, t, at'[k], fits) {
      if k < |at| { assert PairFits(r[k], s[..n], t, at[k], fits); }
    }
  }

  lemma AllMore<A(!new), B(!new)>(s: seq<A>, t: seq<B>, at: seq<(nat, nat)>, columns: seq<nat>, fits: (A, B) -> bool)
    requires s != [] && AllPairs(s[..|s|-1], t, at, fits)
    requires forall j: nat | j < |t| && fits(s[|s|-1], t[j]) :: j in columns
    ensures AllPairs(s, t, WithRow(at, |s| - 1, columns), fits)
  {
    hide WithRow;
    var n := |s| - 1;
    var at' := WithRow(at, n, columns);
    forall i: nat, j: nat | i < |s| && j < |t| && fits(s[i], t[j]) ensures (i, j) in at' {
      if i < n {
        assert s[..n][i] == s[i];
        var k :| 0 <= k < |at| && at[k] == (i, j);
        assert at'[k] == (i, j);
      } else {
        var k :| 0 <= k < |columns| && columns[k] == j;
        assert at'[|at| + k] == (n, j);
      }
    }
  }

  /** The devices stand in the table in the order of the bindings that enable them. */
  lemma {:induction false} DevicesInOrder(bindings: seq<Binding>, defs: seq<string>) returns (at: seq<(nat, nat)>)
    ensures Joined(DeviceTable(bindings, defs), bindings, defs, at, (b: Binding, d) => d == b.device && b.enabled)
  {
    at := [];
    if bindings != [] {
      var b := bindings[|bindings|-1];
      at := DevicesInOrder(bindings[..|bindings|-1], defs);
      var columns := BoundInOrder(b, defs);
      hide Bound;
      JoinedMore(DeviceTable(bindings[..|bindings|-1], defs), Bound(b, defs), bindings, defs, at, columns,
                 (b: Binding, d) => d == b.device && b.enabled);
      at := WithRow(at, |bindings| - 1, columns);
    }
  }

  /** The tests stand in the table function by function, those of one function in the order of their definitions. */
  lemma {:induction false} TestsInOrder(fs: seq<FunctionDef>, tests: seq<TestDef>) returns (at: seq<(nat, nat)>)
    ensures Joined(TestTable(fs, tests), fs, tests, at, (f: FunctionDef, t: TestDef) => t.functionName == f.name)
  {
    at := [];
    if fs != [] {
      var f := fs[|fs|-1];
      at := TestsInOrder(fs[..|fs|-1], tests);
      var columns := TestsForInOrder(f, tests);
      hide TestsFor;
      JoinedMore(TestTable(fs[..|fs|-1], tests), TestsFor(f, tests), fs, tests, at, columns,
                 (f: FunctionDef, t: TestDef) => t.functionName == f.name);
      at := WithRow(at, |fs| - 1, columns);
    }
  }

  /** The start-up sequence and one query: no table overruns, and the answer is the exact one. */
  method QueryTest(c: Config, name: string) returns (available: bool)
    requires InRange(c)
    ensures available <==> exists t :: t in c.tests && t.name == name && Provided(c, t)
  {
    var dm := new DeviceManager();
    var status := dm.Prepare(c);
    if status != 0 {
      assert forall d :: !DefinedAndBound(c, d);
      assert forall f: FunctionDef, t | ProvidesFor(c, f, t) :: DefinedAndBound(c, f.devices[0]);
      return false;
    }
    var fm := new FunctionManager();
    fm.Prepare(c, dm.devices[..dm.count]);
    var tm := new TestManager();
    TableNamesDistinct(c.functions, dm.Table());
    tm.Prepare(c, fm.functions[..fm.count]);
    available := tm.IsAvailable(name);
    forall t ensures t in tm.Table() <==> t in c.tests && Provided(c, t)
    {
      AvailableExactly(c, t);
    }
    assert available <==> exists t :: t in tm.Table() && t.name == name;
  }
}
