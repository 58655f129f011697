/**
 * ResolveNamedArgumentsPass: rewrites the arguments of a definition's constructor and
 * method calls so that `$name` keys become the index of the callee's parameter of that
 * name, and every other key is appended positionally.
 */
module ResolveNamedArguments {
  import opened PhpArrays
  import opened Services

  /** The call whose arguments are being resolved, as named in error messages. */
  datatype Callee = Callee(serviceId: string, cls: Option<string>, methodName: string)

  /** A key appended positionally: an integer, the empty string, or a string not starting with `$`. */
  predicate IsPositional(k: Key) {
    k.IntKey? || k.s == "" || k.s[0] != '$'
  }

  /**
   * `getParameters($class, $method)`: the parameter names of a public method of an existing
   * class, or the first of the four checks that fails.
   */
  function GetParameters(refl: Reflection, c: Callee): (r: Result<seq<string>, Error>)
    ensures r.Ok? <==>
      TruthyClass(c.cls) && refl.classExists(c.cls.value) &&
      refl.getMethod(c.cls.value, c.methodName).Some? && refl.getMethod(c.cls.value, c.methodName).value.isPublic
    ensures r.Ok? ==> r.value == refl.getMethod(c.cls.value, c.methodName).value.parameters
    ensures r.Err? && r.error.ClassNotSet? <==> !TruthyClass(c.cls)
    ensures r.Err? && r.error.ClassDoesNotExist? <==> TruthyClass(c.cls) && !refl.classExists(c.cls.value)
    ensures r.Err? && r.error.MethodDoesNotExist? <==>
      TruthyClass(c.cls) && refl.classExists(c.cls.value) && refl.getMethod(c.cls.value, c.methodName).None?
    ensures r.Err? && r.error.MethodNotPublic? <==>
      TruthyClass(c.cls) && refl.classExists(c.cls.value) &&
      refl.getMethod(c.cls.value, c.methodName).Some? && !refl.getMethod(c.cls.value, c.methodName).value.isPublic
    ensures r.Err? ==> r.error.serviceId == c.serviceId
    ensures r.Err? && !r.error.ClassNotSet? ==> r.error.cls == c.cls.value
  {
    if !TruthyClass(c.cls) then Err(ClassNotSet(c.serviceId))
    else if !refl.classExists(c.cls.value) then Err(ClassDoesNotExist(c.serviceId, c.cls.value))
    else match refl.getMethod(c.cls.value, c.methodName)
      case None => Err(MethodDoesNotExist(c.serviceId, c.cls.value, c.methodName))
      case Some(m) =>
        if !m.isPublic then Err(MethodNotPublic(c.serviceId, c.cls.value, m.name))
        else Ok(m.parameters)
  }

  /** The index of the first parameter whose `'$'.name` equals `key`, or -1. */
  function ParamIndex(ps: seq<string>, key: string): (j: int)
    ensures -1 <= j < |ps|
    ensures j >= 0 ==> key == "$" + ps[j]
    ensures forall l :: 0 <= l < |ps| && (j < 0 || l < j) ==> key != "$" + ps[l]
  {
    if ps == [] then -1
    else
      var j := ParamIndex(ps[..|ps| - 1], key);
      if j >= 0 then j
      else if key == "$" + ps[|ps| - 1] then |ps| - 1
      else -1
  }

  /** One iteration of the argument loop: append, or store at the named parameter's index. */
  function ResolveStep(acc: PArray<Value>, entry: (Key, Value), params: Result<seq<string>, Error>, c: Callee)
    : Result<PArray<Value>, Error>
  {
    if IsPositional(entry.0) then Ok(Append(acc, entry.1))
    else if params.Err? then Err(params.error)
    else
      var j := ParamIndex(params.value, entry.0.s);
      if j < 0 then Err(NoArgumentNamed(c.serviceId, ClassName(c.cls), c.methodName, entry.0.s))
      else Ok(Put(acc, IntKey(j), entry.1))
  }

  /**
   * `$resolvedArguments` after the loop over `args`, given what `getParameters` yields
   * (consulted only for `$` keys). Its keys are distinct non-negative integers.
   */
  function ResolveArgs(args: PArray<Value>, params: Result<seq<string>, Error>, c: Callee)
    : (r: Result<PArray<Value>, Error>)
    ensures r.Ok? ==> IntKeyed(r.value) && DistinctKeys(r.value) && |r.value| <= |args|
    ensures r.Ok? ==> forall i :: 0 <= i < |r.value| ==> r.value[i].0.i >= 0
    decreases |args|
  {
    if args == [] then Ok([])
    else
      var prev := ResolveArgs(args[..|args| - 1], params, c);
      if prev.Err? then prev
      else
        StepKeepsKeysValid(prev.value, args[|args| - 1], params, c);
        ResolveStep(prev.value, args[|args| - 1], params, c)
  }

  /** One step keeps the keys distinct non-negative integers and adds at most one entry. */
  lemma StepKeepsKeysValid(acc: PArray<Value>, entry: (Key, Value), params: Result<seq<string>, Error>, c: Callee)
    requires IntKeyed(acc) && DistinctKeys(acc)
    requires forall i :: 0 <= i < |acc| ==> acc[i].0.i >= 0
    ensures var r := ResolveStep(acc, entry, params, c);
      r.Ok? ==> IntKeyed(r.value) && DistinctKeys(r.value) && |r.value| <= |acc| + 1 &&
                forall i :: 0 <= i < |r.value| ==> r.value[i].0.i >= 0
  {
    var r := ResolveStep(acc, entry, params, c);
    if r.Ok? {
      var k := if IsPositional(entry.0) then NextIndex(acc) else ParamIndex(params.value, entry.0.s);
      assert r.value == Put(acc, IntKey(k), entry.1);
      PutEntries(acc, IntKey(k), entry.1);
      forall i | 0 <= i < |r.value| ensures r.value[i].0.IntKey? && r.value[i].0.i >= 0 {
        if r.value[i] != (IntKey(k), entry.1) {
          var j :| 0 <= j < |acc| && acc[j] == r.value[i];
        }
      }
    }
  }

  /** Once the loop has thrown, the rest of the arguments do not matter. */
  lemma {:induction false} ErrorPersists(args: PArray<Value>, params: Result<seq<string>, Error>, c: Callee, i: nat)
    requires i <= |args| && ResolveArgs(args[..i], params, c).Err?
    ensures ResolveArgs(args, params, c) == ResolveArgs(args[..i], params, c)
    decreases |args| - i
  {
    if i < |args| {
      PrefixSnoc(args, i);
      ErrorPersists(args, params, c, i + 1);
    } else {
      assert args[..i] == args;
    }
  }

  /** One more entry of the loop: `ResolveArgs` on a prefix one longer. */
  lemma ResolveArgsSnoc(args: PArray<Value>, params: Result<seq<string>, Error>, c: Callee, i: nat)
    requires i < |args| && ResolveArgs(args[..i], params, c).Ok?
    ensures ResolveArgs(args[..i + 1], params, c) == ResolveStep(ResolveArgs(args[..i], params, c).value, args[i], params, c)
  {
    PrefixSnoc(args, i);
  }

  /** The `foreach ($parameters as $j => $p)` search for the parameter a `$` key names. */
  method FindParameter(ps: seq<string>, key: string) returns (j: int)
    ensures j == ParamIndex(ps, key)
  {
    j := 0;
    while j < |ps| && key != "$" + ps[j]
      invariant 0 <= j <= |ps|
      invariant forall l :: 0 <= l < j ==> key != "$" + ps[l]
    {
      j := j + 1;
    }
    if j == |ps| {
      j := -1;
    }
  }

  /**
   * The inner `foreach ($arguments as $key => $argument)` of `processValue`, with the
   * parameter lookup done lazily on the first `$` key.
   */
  method ResolveArguments(refl: Reflection, c: Callee, args: PArray<Value>) returns (r: Result<PArray<Value>, Error>)
    ensures r == ResolveArgs(args, GetParameters(refl, c), c)
  {
    ghost var params := GetParameters(refl, c);
    var parameters: Option<seq<string>> := None;
    var resolved: PArray<Value> := [];
    var i := 0;
    while i < |args|
      invariant 0 <= i <= |args|
      invariant ResolveArgs(args[..i], params, c) == Ok(resolved)
      invariant parameters.Some? ==> params == Ok(parameters.value)
    {
      var key := args[i].0;
      var argument := args[i].1;
      ResolveArgsSnoc(args, params, c, i);
      if IsPositional(key) {
        resolved := Append(resolved, argument);
      } else {
        if parameters.None? {
          var p := GetParameters(refl, c);
          if p.Err? {
            ErrorPersists(args, params, c, i + 1);
            return Err(p.error);
          }
          parameters := Some(p.value);
        }
        var j := FindParameter(parameters.value, key.s);
        if j < 0 {
          ErrorPersists(args, params, c, i + 1);
          return Err(NoArgumentNamed(c.serviceId, ClassName(c.cls), c.methodName, key.s));
        }
        resolved := Put(resolved, IntKey(j), argument);
      }
      i := i + 1;
    }
    assert args[..i] == args;
    return Ok(resolved);
  }

  /** `$class`: the definition's class, passed through the parameter bag when truthy. */
  function ResolvedClass(resolve: string -> string, cls: Option<string>): Option<string> {
    if TruthyClass(cls) then Some(resolve(cls.value)) else cls
  }

  /** The callee of a call: the method name passes through the parameter bag. */
  function CalleeOf(resolve: string -> string, serviceId: string, cls: Option<string>, call: Call): Callee {
    Callee(serviceId, cls, resolve(call.name))
  }

  /** What the argument loop makes of a call's arguments. */
  function ArgsOf(refl: Reflection, resolve: string -> string, serviceId: string, cls: Option<string>, call: Call)
    : Result<PArray<Value>, Error>
  {
    var c := CalleeOf(resolve, serviceId, cls, call);
    ResolveArgs(call.args, GetParameters(refl, c), c)
  }

  /**
   * One call after resolution: it fails with the argument loop's exception; otherwise it
   * holds the resolved entries (key-sorted), and its arguments stay as they were exactly
   * when the loop reproduced them.
   */
  function ResolveCall(refl: Reflection, resolve: string -> string, serviceId: string, cls: Option<string>, call: Call)
    : (r: Result<Call, Error>)
    ensures var resolved := ArgsOf(refl, resolve, serviceId, cls, call);
      (r.Err? <==> resolved.Err?) && (r.Err? ==> r.error == resolved.error)
    ensures r.Ok? ==> r.value.name == call.name
    ensures r.Ok? ==> multiset(r.value.args) == multiset(ArgsOf(refl, resolve, serviceId, cls, call).value)
    ensures r.Ok? ==> (r.value.args == call.args <==> ArgsOf(refl, resolve, serviceId, cls, call).value == call.args)
    ensures r.Ok? ==> r.value.args == call.args || (IntKeyed(r.value.args) && Ascending(r.value.args))
  {
    var c := CalleeOf(resolve, serviceId, cls, call);
    var resolved := ResolveArgs(call.args, GetParameters(refl, c), c);
    if resolved.Err? then Err(resolved.error)
    else if resolved.value == call.args then Ok(call)
    else
      SortingShowsChange(call.args, GetParameters(refl, c), c);
      Ok(Call(call.name, KSort(resolved.value)))
  }

  /**
   * The key-sorted result of the argument loop equals the original arguments only when the
   * loop already returned them unchanged: equal to a sorted array, the original has integer
   * keys only, so the loop renumbered it into a list, which sorting leaves alone.
   */
  lemma SortingShowsChange(args: PArray<Value>, params: Result<seq<string>, Error>, c: Callee)
    requires ResolveArgs(args, params, c).Ok?
    ensures KSort(ResolveArgs(args, params, c).value) == args ==> ResolveArgs(args, params, c).value == args
  {
    var res := ResolveArgs(args, params, c).value;
    if KSort(res) == args {
      assert forall i :: 0 <= i < |args| ==> IsPositional(args[i].0);
      PositionalArgumentsAreRenumbered(args, params, c);
      assert Ascending(res);
      KSortOfAscending(res);
    }
  }

  /** The outer `foreach ($calls as $i => $call)`: every call resolved, or the first error. */
  function ResolveCalls(refl: Reflection, resolve: string -> string, serviceId: string, cls: Option<string>, calls: seq<Call>)
    : (r: Result<seq<Call>, Error>)
    ensures r.Ok? ==> |r.value| == |calls|
    ensures r.Ok? ==> forall i :: 0 <= i < |calls| ==> ResolveCall(refl, resolve, serviceId, cls, calls[i]) == Ok(r.value[i])
    decreases |calls|
  {
    if calls == [] then Ok([])
    else
      var prev := ResolveCalls(refl, resolve, serviceId, cls, calls[..|calls| - 1]);
      if prev.Err? then prev
      else
        var last := ResolveCall(refl, resolve, serviceId, cls, calls[|calls| - 1]);
        if last.Err? then Err(last.error) else Ok(prev.value + [last.value])
  }

  /** The exception of the calls loop is the exception of one of the calls. */
  lemma {:induction false} CallsFailAtSomeCall(refl: Reflection, resolve: string -> string, serviceId: string,
                                               cls: Option<string>, calls: seq<Call>)
    requires ResolveCalls(refl, resolve, serviceId, cls, calls).Err?
    ensures var e := ResolveCalls(refl, resolve, serviceId, cls, calls).error;
      exists i :: 0 <= i < |calls| && ResolveCall(refl, resolve, serviceId, cls, calls[i]) == Err(e)
    decreases |calls|
  {
    var init := calls[..|calls| - 1];
    var prev := ResolveCalls(refl, resolve, serviceId, cls, init);
    if prev.Err? {
      CallsFailAtSomeCall(refl, resolve, serviceId, cls, init);
      var i :| 0 <= i < |init| && ResolveCall(refl, resolve, serviceId, cls, init[i]) == Err(prev.error);
      assert calls[i] == init[i];
    } else {
      assert ResolveCall(refl, resolve, serviceId, cls, calls[|calls| - 1]).Err?;
    }
  }

  lemma ResolveCallsSnoc(refl: Reflection, resolve: string -> string, serviceId: string, cls: Option<string>, calls: seq<Call>, i: nat)
    requires i < |calls| && ResolveCalls(refl, resolve, serviceId, cls, calls[..i]).Ok?
    ensures var last := ResolveCall(refl, resolve, serviceId, cls, calls[i]);
      ResolveCalls(refl, resolve, serviceId, cls, calls[..i + 1]) ==
        if last.Err? then Err(last.error) else Ok(ResolveCalls(refl, resolve, serviceId, cls, calls[..i]).value + [last.value])
  {
    PrefixSnoc(calls, i);
  }

  lemma CallsStep(refl: Reflection, resolve: string -> string, serviceId: string, cls: Option<string>, calls: seq<Call>,
                  i: nat, done: seq<Call>, c: Call)
    requires i < |calls| && ResolveCalls(refl, resolve, serviceId, cls, calls[..i]) == Ok(done)
    requires ResolveCall(refl, resolve, serviceId, cls, calls[i]) == Ok(c)
    ensures ResolveCalls(refl, resolve, serviceId, cls, calls[..i + 1]) == Ok(done + [c])
  {
    ResolveCallsSnoc(refl, resolve, serviceId, cls, calls, i);
  }

  lemma {:induction false} CallErrorPersists(refl: Reflection, resolve: string -> string, serviceId: string, cls: Option<string>, calls: seq<Call>, i: nat)
    requires i <= |calls| && ResolveCalls(refl, resolve, serviceId, cls, calls[..i]).Err?
    ensures ResolveCalls(refl, resolve, serviceId, cls, calls) == ResolveCalls(refl, resolve, serviceId, cls, calls[..i])
    decreases |calls| - i
  {
    if i < |calls| {
      PrefixSnoc(calls, i);
      CallErrorPersists(refl, resolve, serviceId, cls, calls, i + 1);
    } else {
      assert calls[..i] == calls;
    }
  }

  /**
   * What `processValue` computes for one definition: the constructor is resolved as a
   * trailing `__construct` call after the method calls, then popped back off.
   */
  function ResolveDefinitionArguments(refl: Reflection, resolve: string -> string, serviceId: string,
                                      cls: Option<string>, calls: seq<Call>, arguments: PArray<Value>)
    : (r: Result<(PArray<Value>, seq<Call>), Error>)
    ensures var c := ResolvedClass(resolve, cls);
      r.Ok? <==>
        ResolveCall(refl, resolve, serviceId, c, Call("__construct", arguments)).Ok? &&
        forall i :: 0 <= i < |calls| ==> ResolveCall(refl, resolve, serviceId, c, calls[i]).Ok?
    ensures r.Err? ==>
      ResolveCall(refl, resolve, serviceId, ResolvedClass(resolve, cls), Call("__construct", arguments)) == Err(r.error) ||
      exists i :: 0 <= i < |calls| && ResolveCall(refl, resolve, serviceId, ResolvedClass(resolve, cls), calls[i]) == Err(r.error)
    ensures r.Ok? ==>
      ResolveCall(refl, resolve, serviceId, ResolvedClass(resolve, cls), Call("__construct", arguments)) ==
      Ok(Call("__construct", r.value.0))
    ensures r.Ok? ==> |r.value.1| == |calls|
    ensures r.Ok? ==>
      forall i :: 0 <= i < |calls| ==> ResolveCall(refl, resolve, serviceId, ResolvedClass(resolve, cls), calls[i]) == Ok(r.value.1[i])
  {
    var all := calls + [Call("__construct", arguments)];
    var resolved := ResolveCalls(refl, resolve, serviceId, ResolvedClass(resolve, cls), all);
    assert forall i :: 0 <= i < |calls| ==> all[i] == calls[i];
    assert all[|calls|] == Call("__construct", arguments);
    if resolved.Err? then
      CallsFailAtSomeCall(refl, resolve, serviceId, ResolvedClass(resolve, cls), all);
      Err(resolved.error)
    else Ok((resolved.value[|calls|].args, resolved.value[..|calls|]))
  }

  /** Calls that each resolve make every prefix of the list resolve. */
  lemma {:induction false} CallsResolveWhenEachDoes(refl: Reflection, resolve: string -> string, serviceId: string,
                                                    cls: Option<string>, calls: seq<Call>, n: nat)
    requires n <= |calls|
    requires forall j :: 0 <= j < n ==> ResolveCall(refl, resolve, serviceId, cls, calls[j]).Ok?
    ensures ResolveCalls(refl, resolve, serviceId, cls, calls[..n]).Ok?
  {
    if n == 0 {
      assert calls[..0] == [];
    } else {
      CallsResolveWhenEachDoes(refl, resolve, serviceId, cls, calls, n - 1);
      ResolveCallsSnoc(refl, resolve, serviceId, cls, calls, n - 1);
    }
  }

  /** The calls loop throws the exception of the first call that throws. */
  lemma CallsFailAtFirstFailure(refl: Reflection, resolve: string -> string, serviceId: string,
                                cls: Option<string>, calls: seq<Call>, i: nat)
    requires i < |calls| && ResolveCall(refl, resolve, serviceId, cls, calls[i]).Err?
    requires forall j :: 0 <= j < i ==> ResolveCall(refl, resolve, serviceId, cls, calls[j]).Ok?
    ensures ResolveCalls(refl, resolve, serviceId, cls, calls) == Err(ResolveCall(refl, resolve, serviceId, cls, calls[i]).error)
  {
    CallsResolveWhenEachDoes(refl, resolve, serviceId, cls, calls, i);
    ResolveCallsSnoc(refl, resolve, serviceId, cls, calls, i);
    CallErrorPersists(refl, resolve, serviceId, cls, calls, i + 1);
  }

  /**
   * The method calls are resolved before the constructor: a definition throws the exception of
   * its first failing method call, whatever the constructor arguments.
   */
  lemma DefinitionFailsAtFirstFailingCall(refl: Reflection, resolve: string -> string, serviceId: string,
                                          cls: Option<string>, calls: seq<Call>, arguments: PArray<Value>, i: nat)
    requires i < |calls| && ResolveCall(refl, resolve, serviceId, ResolvedClass(resolve, cls), calls[i]).Err?
    requires forall j :: 0 <= j < i ==> ResolveCall(refl, resolve, serviceId, ResolvedClass(resolve, cls), calls[j]).Ok?
    ensures ResolveDefinitionArguments(refl, resolve, serviceId, cls, calls, arguments) ==
      Err(ResolveCall(refl, resolve, serviceId, ResolvedClass(resolve, cls), calls[i]).error)
  {
    var all := calls + [Call("__construct", arguments)];
    assert forall j :: 0 <= j <= i ==> all[j] == calls[j];
    CallsFailAtFirstFailure(refl, resolve, serviceId, ResolvedClass(resolve, cls), all, i);
  }

  /** The constructor's exception is thrown only when every method call resolves. */
  lemma ConstructorFailsLast(refl: Reflection, resolve: string -> string, serviceId: string,
                             cls: Option<string>, calls: seq<Call>, arguments: PArray<Value>)
    requires forall j :: 0 <= j < |calls| ==> ResolveCall(refl, resolve, serviceId, ResolvedClass(resolve, cls), calls[j]).Ok?
    requires ResolveCall(refl, resolve, serviceId, ResolvedClass(resolve, cls), Call("__construct", arguments)).Err?
    ensures ResolveDefinitionArguments(refl, resolve, serviceId, cls, calls, arguments) ==
      Err(ResolveCall(refl, resolve, serviceId, ResolvedClass(resolve, cls), Call("__construct", arguments)).error)
  {
    var all := calls + [Call("__construct", arguments)];
    assert forall j :: 0 <= j < |calls| ==> all[j] == calls[j];
    CallsFailAtFirstFailure(refl, resolve, serviceId, ResolvedClass(resolve, cls), all, |calls|);
  }

  /** A key the loop throws on: a `$` name when `getParameters` throws or no parameter has that name. */
  predicate Unresolvable(k: Key, params: Result<seq<string>, Error>) {
    !IsPositional(k) && (params.Err? || ParamIndex(params.value, k.s) < 0)
  }

  /** `ResolveArgs` on a non-empty array, one step back. */
  lemma ResolveArgsLast(args: PArray<Value>, params: Result<seq<string>, Error>, c: Callee)
    requires args != []
    ensures ResolveArgs(args, params, c) ==
      var prev := ResolveArgs(args[..|args| - 1], params, c);
      if prev.Err? then prev else ResolveStep(prev.value, args[|args| - 1], params, c)
  {
  }

  /** `ResolveArgs` of `init` with one more entry. */
  lemma ResolveArgsSnoc1(init: PArray<Value>, last: (Key, Value), params: Result<seq<string>, Error>, c: Callee)
    ensures ResolveArgs(init + [last], params, c) ==
      if ResolveArgs(init, params, c).Err? then ResolveArgs(init, params, c)
      else ResolveStep(ResolveArgs(init, params, c).value, last, params, c)
  {
    ResolveArgsLast(init + [last], params, c);
    SnocPrefix(init, last);
  }

  lemma StepFailsIff(acc: PArray<Value>, entry: (Key, Value), params: Result<seq<string>, Error>, c: Callee)
    ensures ResolveStep(acc, entry, params, c).Err? <==> Unresolvable(entry.0, params)
    ensures params.Err? && ResolveStep(acc, entry, params, c).Err? ==> ResolveStep(acc, entry, params, c).error == params.error
  {
  }

  /** The loop only throws on an unresolvable key. */
  lemma {:induction false} FailsOnlyOnUnresolvable(args: PArray<Value>, params: Result<seq<string>, Error>, c: Callee)
    ensures ResolveArgs(args, params, c).Err? ==> exists i :: 0 <= i < |args| && Unresolvable(args[i].0, params)
    decreases |args|
  {
    if args != [] {
      var init := args[..|args| - 1];
      FailsOnlyOnUnresolvable(init, params, c);
      ResolveArgsLast(args, params, c);
      var prev := ResolveArgs(init, params, c);
      if prev.Err? {
        var i :| 0 <= i < |init| && Unresolvable(init[i].0, params);
        assert args[i] == init[i];
      } else {
        StepFailsIff(prev.value, args[|args| - 1], params, c);
      }
    }
  }

  /** An unresolvable key anywhere makes the loop throw. */
  lemma UnresolvableKeyFails(args: PArray<Value>, params: Result<seq<string>, Error>, c: Callee, i: nat)
    requires i < |args| && Unresolvable(args[i].0, params)
    ensures ResolveArgs(args, params, c).Err?
  {
    ResolveArgsLast(args[..i + 1], params, c);
    PrefixSnoc(args, i);
    var prev := ResolveArgs(args[..i], params, c);
    if prev.Ok? {
      StepFailsIff(prev.value, args[i], params, c);
    }
    ErrorPersists(args, params, c, i + 1);
  }

  /** When `getParameters` throws and the loop throws, it is `getParameters`' exception. */
  lemma {:induction false} ParametersErrorIsRethrown(args: PArray<Value>, params: Result<seq<string>, Error>, c: Callee)
    requires params.Err? && ResolveArgs(args, params, c).Err?
    ensures ResolveArgs(args, params, c).error == params.error
    decreases |args|
  {
    var init := args[..|args| - 1];
    ResolveArgsLast(args, params, c);
    var prev := ResolveArgs(init, params, c);
    if prev.Err? {
      ParametersErrorIsRethrown(init, params, c);
    } else {
      StepFailsIff(prev.value, args[|args| - 1], params, c);
    }
  }

  /** The loop throws exactly when some key is unresolvable. */
  lemma ResolveArgsFailsIff(args: PArray<Value>, params: Result<seq<string>, Error>, c: Callee)
    ensures ResolveArgs(args, params, c).Err? <==> exists i :: 0 <= i < |args| && Unresolvable(args[i].0, params)
  {
    FailsOnlyOnUnresolvable(args, params, c);
    if exists i :: 0 <= i < |args| && Unresolvable(args[i].0, params) {
      var i :| 0 <= i < |args| && Unresolvable(args[i].0, params);
      UnresolvableKeyFails(args, params, c, i);
    }
  }

  /** A successful run succeeds on every prefix too. */
  lemma PrefixOk(args: PArray<Value>, params: Result<seq<string>, Error>, c: Callee, n: nat)
    requires n <= |args| && ResolveArgs(args, params, c).Ok?
    ensures ResolveArgs(args[..n], params, c).Ok?
  {
    if ResolveArgs(args[..n], params, c).Err? {
      ErrorPersists(args, params, c, n);
    }
  }

  /** PHP's `$a[] = $v` on a list keeps it a list: the next index is the length. */
  lemma {:induction false} NextIndexOfList<V>(a: PArray<V>)
    requires IsList(a)
    ensures NextIndex(a) == |a|
    decreases |a|
  {
    if a != [] {
      NextIndexOfList(a[..|a| - 1]);
    }
  }

  /** `$a[] = $v` on a list. */
  lemma AppendToList(a: PArray<Value>, v: Value)
    requires IsList(a)
    ensures IsList(Append(a, v)) && Values(Append(a, v)) == Values(a) + [v]
  {
    NextIndexOfList(a);
    var r := Append(a, v);
    assert r == a + [(IntKey(|a|), v)];
    ValuesSnoc(r);
    assert r[..|r| - 1] == a;
  }

  /** Without `$` keys, whatever the keys were, the result is the list of the values in order. */
  lemma {:induction false} PositionalArgumentsAreRenumbered(args: PArray<Value>, params: Result<seq<string>, Error>, c: Callee)
    requires forall i :: 0 <= i < |args| ==> IsPositional(args[i].0)
    ensures ResolveArgs(args, params, c).Ok?
    ensures IsList(ResolveArgs(args, params, c).value)
    ensures Values(ResolveArgs(args, params, c).value) == Values(args)
    decreases |args|
  {
    if args != [] {
      var init := args[..|args| - 1];
      var last := args[|args| - 1];
      assert forall i :: 0 <= i < |init| ==> init[i] == args[i];
      PositionalArgumentsAreRenumbered(init, params, c);
      ResolveArgsLast(args, params, c);
      var prev := ResolveArgs(init, params, c).value;
      assert ResolveStep(prev, last, params, c) == Ok(Append(prev, last.1));
      AppendToList(prev, last.1);
      ValuesSnoc(args);
    }
  }

  /** Without `$` keys the arguments are kept exactly when they already form a list. */
  lemma ResolveIsIdentityIffList(args: PArray<Value>, params: Result<seq<string>, Error>, c: Callee)
    requires forall i :: 0 <= i < |args| ==> IsPositional(args[i].0)
    ensures ResolveArgs(args, params, c) == Ok(args) <==> IsList(args)
  {
    PositionalArgumentsAreRenumbered(args, params, c);
    var r := ResolveArgs(args, params, c).value;
    if IsList(args) {
      assert |r| == |args| by {
        assert |Values(r)| == |Values(args)|;
      }
      forall i | 0 <= i < |args| ensures r[i] == args[i] {
        assert Values(r)[i] == Values(args)[i];
      }
      assert r == args;
    }
  }

  /** After one step every entry is an old one or carries the new argument. */
  lemma StepEntries(acc: PArray<Value>, entry: (Key, Value), params: Result<seq<string>, Error>, c: Callee)
    requires ResolveStep(acc, entry, params, c).Ok?
    ensures forall k :: 0 <= k < |ResolveStep(acc, entry, params, c).value| ==>
      ResolveStep(acc, entry, params, c).value[k] in acc || ResolveStep(acc, entry, params, c).value[k].1 == entry.1
  {
    if IsPositional(entry.0) {
      PutEntries(acc, IntKey(NextIndex(acc)), entry.1);
    } else {
      PutEntries(acc, IntKey(ParamIndex(params.value, entry.0.s)), entry.1);
    }
  }

  /** Every resolved value is one of the given arguments. */
  lemma {:induction false} ResolvedValuesComeFromArguments(args: PArray<Value>, params: Result<seq<string>, Error>, c: Callee)
    requires ResolveArgs(args, params, c).Ok?
    ensures forall k :: 0 <= k < |ResolveArgs(args, params, c).value| ==> ResolveArgs(args, params, c).value[k].1 in Values(args)
    decreases |args|
  {
    if args != [] {
      var init := args[..|args| - 1];
      var last := args[|args| - 1];
      ResolveArgsLast(args, params, c);
      ResolvedValuesComeFromArguments(init, params, c);
      var prev := ResolveArgs(init, params, c).value;
      var r := ResolveArgs(args, params, c).value;
      StepEntries(prev, last, params, c);
      ValuesSnoc(args);
      forall k | 0 <= k < |r| ensures r[k].1 in Values(args) {
        if r[k] in prev {
          var m :| 0 <= m < |prev| && prev[m] == r[k];
        }
      }
    }
  }

  /** A successful `$` step stores the argument at its parameter's index. */
  lemma NamedStep(acc: PArray<Value>, entry: (Key, Value), ps: seq<string>, c: Callee)
    requires !IsPositional(entry.0) && ResolveStep(acc, entry, Ok(ps), c).Ok?
    ensures ParamIndex(ps, entry.0.s) >= 0
    ensures ResolveStep(acc, entry, Ok(ps), c).value == Put(acc, IntKey(ParamIndex(ps, entry.0.s)), entry.1)
  {
  }

  /** A step that does not target index `j` leaves the entry at `j` alone. */
  lemma StepKeeps(acc: PArray<Value>, entry: (Key, Value), ps: seq<string>, c: Callee, j: nat)
    requires IntKey(j) in Keys(acc) && ResolveStep(acc, entry, Ok(ps), c).Ok?
    requires !IsPositional(entry.0) ==> ParamIndex(ps, entry.0.s) != j
    ensures IntKey(j) in Keys(ResolveStep(acc, entry, Ok(ps), c).value)
    ensures Get(ResolveStep(acc, entry, Ok(ps), c).value, IntKey(j)) == Get(acc, IntKey(j))
  {
  }

  /**
   * A `$` argument ends up at the index of the parameter it names, unless a later
   * `$` argument names the same parameter.
   */
  lemma {:induction false} NamedArgumentLandsOnItsParameter(args: PArray<Value>, ps: seq<string>, c: Callee, i: nat, n: nat)
    requires i < n <= |args| && ResolveArgs(args, Ok(ps), c).Ok? && !IsPositional(args[i].0)
    requires forall k :: i < k < n && !IsPositional(args[k].0) ==> args[k].0.s != args[i].0.s
    ensures ParamIndex(ps, args[i].0.s) >= 0 && ResolveArgs(args[..n], Ok(ps), c).Ok?
    ensures IntKey(ParamIndex(ps, args[i].0.s)) in Keys(ResolveArgs(args[..n], Ok(ps), c).value)
    ensures Get(ResolveArgs(args[..n], Ok(ps), c).value, IntKey(ParamIndex(ps, args[i].0.s))) == args[i].1
    decreases n
  {
    PrefixOk(args, Ok(ps), c, n);
    PrefixOk(args, Ok(ps), c, n - 1);
    assert args[..n][..n - 1] == args[..n - 1];
    ResolveArgsLast(args[..n], Ok(ps), c);
    var prev := ResolveArgs(args[..n - 1], Ok(ps), c).value;
    var last := args[n - 1];
    if n - 1 == i {
      NamedStep(prev, last, ps, c);
    } else {
      NamedArgumentLandsOnItsParameter(args, ps, c, i, n - 1);
      var j := ParamIndex(ps, args[i].0.s);
      if !IsPositional(last.0) {
        NamedStep(prev, last, ps, c);
        var j' := ParamIndex(ps, last.0.s);
        assert last.0.s == "$" + ps[j'] && args[i].0.s == "$" + ps[j];
      }
      StepKeeps(prev, last, ps, c, j);
    }
  }

  /**
   * In the call as written back, a `$name` argument sits at its parameter's index with its
   * value, unless a later argument of the same name replaces it.
   */
  lemma NamedArgumentLandsInCall(refl: Reflection, resolve: string -> string, serviceId: string, cls: Option<string>,
                                 call: Call, i: nat)
    requires ResolveCall(refl, resolve, serviceId, cls, call).Ok?
    requires i < |call.args| && !IsPositional(call.args[i].0)
    requires forall k :: i < k < |call.args| && !IsPositional(call.args[k].0) ==> call.args[k].0.s != call.args[i].0.s
    ensures var params := GetParameters(refl, CalleeOf(resolve, serviceId, cls, call));
      params.Ok? && ParamIndex(params.value, call.args[i].0.s) >= 0
    ensures var params := GetParameters(refl, CalleeOf(resolve, serviceId, cls, call));
      var key := IntKey(ParamIndex(params.value, call.args[i].0.s));
      var out := ResolveCall(refl, resolve, serviceId, cls, call).value.args;
      key in Keys(out) && Get(out, key) == call.args[i].1
  {
    var c := CalleeOf(resolve, serviceId, cls, call);
    var params := GetParameters(refl, c);
    var args := call.args;
    ResolveArgsFailsIff(args, params, c);
    assert !Unresolvable(args[i].0, params);
    var res := ResolveArgs(args, params, c).value;
    NamedArgumentLandsOnItsParameter(args, params.value, c, i, |args|);
    assert args[..|args|] == args;
    var key := IntKey(ParamIndex(params.value, args[i].0.s));
    var out := ResolveCall(refl, resolve, serviceId, cls, call).value.args;
    if out != args {
      assert (key, Get(res, key)) in multiset(out);
      AscendingIsDistinct(out);
      GetOfDistinct(out, key, Get(res, key));
    }
  }

  /** The same for the constructor: a `$name` argument of the definition lands on its parameter. */
  lemma NamedConstructorArgumentLands(refl: Reflection, resolve: string -> string, serviceId: string,
                                      cls: Option<string>, calls: seq<Call>, arguments: PArray<Value>, i: nat)
    requires ResolveDefinitionArguments(refl, resolve, serviceId, cls, calls, arguments).Ok?
    requires i < |arguments| && !IsPositional(arguments[i].0)
    requires forall k :: i < k < |arguments| && !IsPositional(arguments[k].0) ==> arguments[k].0.s != arguments[i].0.s
    ensures var params := GetParameters(refl, Callee(serviceId, ResolvedClass(resolve, cls), resolve("__construct")));
      params.Ok? && ParamIndex(params.value, arguments[i].0.s) >= 0
    ensures var params := GetParameters(refl, Callee(serviceId, ResolvedClass(resolve, cls), resolve("__construct")));
      var key := IntKey(ParamIndex(params.value, arguments[i].0.s));
      var out := ResolveDefinitionArguments(refl, resolve, serviceId, cls, calls, arguments).value.0;
      key in Keys(out) && Get(out, key) == arguments[i].1
  {
    NamedArgumentLandsInCall(refl, resolve, serviceId, ResolvedClass(resolve, cls), Call("__construct", arguments), i);
  }

  /** The first step of the loop, from the empty `$resolvedArguments`. */
  lemma ResolveArgsSingle(entry: (Key, Value), params: Result<seq<string>, Error>, c: Callee)
    ensures ResolveArgs([entry], params, c) == ResolveStep([], entry, params, c)
  {
    var e: PArray<Value> := [];
    ResolveArgsSnoc1(e, entry, params, c);
    Displays(entry, entry);
  }

  /** The first two steps of the loop. */
  lemma ResolveArgsPair(a0: (Key, Value), b0: (Key, Value), params: Result<seq<string>, Error>, c: Callee,
                        first: PArray<Value>)
    requires ResolveStep([], a0, params, c) == Ok(first)
    ensures ResolveArgs([a0, b0], params, c) == ResolveStep(first, b0, params, c)
  {
    ResolveArgsSingle(a0, params, c);
    ResolveArgsSnoc1([a0], b0, params, c);
    Displays(a0, b0);
  }

  /** Example: a `$x` argument replaces the positional argument at index 0, which is dropped. */
  lemma NamedArgumentOverwritesPositional(a: Value, b: Value, c: Callee)
    ensures ResolveArgs([(IntKey(0), a), (StrKey("$x"), b)], Ok(["x"]), c) == Ok([(IntKey(0), b)])
  {
    var a0 := (IntKey(0), a);
    var b0 := (StrKey("$x"), b);
    var e: PArray<Value> := [];
    var first: PArray<Value> := [a0];
    var expected: PArray<Value> := [(IntKey(0), b)];
    assert ResolveStep(e, a0, Ok(["x"]), c) == Ok(first) by {
      assert IsPositional(a0.0) && NextIndex(e) == 0;
      assert Append(e, a0.1) == e + [a0] == first;
    }
    assert ResolveStep(first, b0, Ok(["x"]), c) == Ok(expected) by {
      assert ParamIndex(["x"], "$x") == 0 by {
        assert "$x" == "$" + "x";
      }
      assert !IsPositional(b0.0);
      FindIsFirst(first, IntKey(0), 0);
      assert Put(first, IntKey(0), b) == first[0 := (IntKey(0), b)] == expected;
    }
    ResolveArgsPair(a0, b0, Ok(["x"]), c, first);
  }

  /** Example: a positional argument after `$y` (parameter 1) gets index 2, and index 0 stays unset. */
  lemma PositionalAfterNamedSkipsAhead(a: Value, b: Value, c: Callee)
    ensures ResolveArgs([(StrKey("$y"), a), (IntKey(0), b)], Ok(["x", "y"]), c)
      == Ok([(IntKey(1), a), (IntKey(2), b)])
  {
    var a0 := (StrKey("$y"), a);
    var b0 := (IntKey(0), b);
    var ps := ["x", "y"];
    var e: PArray<Value> := [];
    var first: PArray<Value> := [(IntKey(1), a)];
    var expected: PArray<Value> := [(IntKey(1), a), (IntKey(2), b)];
    assert ResolveStep(e, a0, Ok(ps), c) == Ok(first) by {
      assert ParamIndex(["x"], "$y") == -1 by {
        assert ["x"][..0] == [];
        assert ("$" + "x")[1] == 'x';
      }
      assert ParamIndex(ps, "$y") == 1 by {
        assert ps[..1] == ["x"];
        assert "$y" == "$" + "y";
      }
      assert !IsPositional(a0.0);
      assert Put(e, IntKey(1), a) == e + [(IntKey(1), a)] == first;
    }
    assert ResolveStep(first, b0, Ok(ps), c) == Ok(expected) by {
      assert NextIndex(first) == 2 by {
        assert first[..0] == [];
      }
      assert IsPositional(b0.0);
      assert Append(first, b) == first + [(IntKey(2), b)] == expected;
    }
    ResolveArgsPair(a0, b0, Ok(ps), c, first);
  }

  /** Example: integer keys given out of order are renumbered in arrival order, not sorted. */
  lemma IntegerKeysAreRenumbered(a: Value, b: Value, params: Result<seq<string>, Error>, c: Callee)
    ensures ResolveArgs([(IntKey(1), a), (IntKey(0), b)], params, c) == Ok([(IntKey(0), a), (IntKey(1), b)])
  {
    var a0 := (IntKey(1), a);
    var b0 := (IntKey(0), b);
    var e: PArray<Value> := [];
    var first: PArray<Value> := [(IntKey(0), a)];
    var expected: PArray<Value> := [(IntKey(0), a), (IntKey(1), b)];
    assert ResolveStep(e, a0, params, c) == Ok(first) by {
      assert IsPositional(a0.0) && NextIndex(e) == 0;
      assert Append(e, a) == e + [(IntKey(0), a)] == first;
    }
    assert ResolveStep(first, b0, params, c) == Ok(expected) by {
      assert NextIndex(first) == 1 by {
        assert first[..0] == [];
      }
      assert Append(first, b) == first + [(IntKey(1), b)] == expected;
    }
    ResolveArgsPair(a0, b0, params, c, first);
  }

  /** Calls whose every call resolves to itself come out unchanged. */
  lemma {:induction false} FixedCallsAreKept(refl: Reflection, resolve: string -> string, serviceId: string,
                                             cls: Option<string>, calls: seq<Call>)
    requires forall i :: 0 <= i < |calls| ==> ResolveCall(refl, resolve, serviceId, cls, calls[i]) == Ok(calls[i])
    ensures ResolveCalls(refl, resolve, serviceId, cls, calls) == Ok(calls)
    decreases |calls|
  {
    if calls != [] {
      var init := calls[..|calls| - 1];
      FixedCallsAreKept(refl, resolve, serviceId, cls, init);
      ResolveCallsSnoc(refl, resolve, serviceId, cls, calls, |calls| - 1);
      InitLast(calls);
    }
  }

  /**
   * A definition whose constructor arguments and call arguments are all lists
   * (no `$` names, keys 0..n-1) is left exactly as it was, whatever reflection says.
   */
  lemma ListArgumentsAreLeftAlone(refl: Reflection, resolve: string -> string, serviceId: string,
                                  cls: Option<string>, calls: seq<Call>, arguments: PArray<Value>)
    requires IsList(arguments) && forall i :: 0 <= i < |calls| ==> IsList(calls[i].args)
    ensures ResolveDefinitionArguments(refl, resolve, serviceId, cls, calls, arguments) == Ok((arguments, calls))
  {
    var all := calls + [Call("__construct", arguments)];
    var rc := ResolvedClass(resolve, cls);
    forall i | 0 <= i < |all| ensures ResolveCall(refl, resolve, serviceId, rc, all[i]) == Ok(all[i]) {
      var c := Callee(serviceId, rc, resolve(all[i].name));
      ResolveIsIdentityIffList(all[i].args, GetParameters(refl, c), c);
    }
    FixedCallsAreKept(refl, resolve, serviceId, rc, all);
    assert all[..|calls|] == calls;
  }

  /** The body of the outer loop for one call: its resolved form, or the exception. */
  method ResolveOneCall(refl: Reflection, resolve: string -> string, serviceId: string, cls: Option<string>, call: Call)
    returns (r: Result<Call, Error>)
    ensures r == ResolveCall(refl, resolve, serviceId, cls, call)
  {
    var methodName := resolve(call.name);
    var resolved := ResolveArguments(refl, Callee(serviceId, cls, methodName), call.args);
    if resolved.Err? {
      return Err(resolved.error);
    }
    if resolved.value != call.args {
      return Ok(Call(call.name, KSort(resolved.value)));
    }
    return Ok(call);
  }

  /** Overwriting the first not-yet-visited element moves it to the visited part. */
  lemma SpliceStep<T>(done: seq<T>, rest: seq<T>, v: T)
    requires rest != []
    ensures (done + rest)[|done| := v] == (done + [v]) + rest[1..]
  {
  }

  /** The outer `foreach ($calls as $i => $call)`, rewriting `$calls[$i]` where it changed. */
  method ResolveAllCalls(refl: Reflection, resolve: string -> string, serviceId: string, cls: Option<string>, all: seq<Call>)
    returns (r: Result<seq<Call>, Error>)
    ensures r == ResolveCalls(refl, resolve, serviceId, cls, all)
  {
    var calls := all;
    ghost var done: seq<Call> := [];
    var i := 0;
    while i < |all|
      invariant 0 <= i <= |all| && |done| == i
      invariant calls == done + all[i..]
      invariant ResolveCalls(refl, resolve, serviceId, cls, all[..i]) == Ok(done)
    {
      assert calls[i] == all[i];
      var resolved := ResolveOneCall(refl, resolve, serviceId, cls, calls[i]);
      if resolved.Err? {
        ResolveCallsSnoc(refl, resolve, serviceId, cls, all, i);
        CallErrorPersists(refl, resolve, serviceId, cls, all, i + 1);
        return Err(resolved.error);
      }
      CallsStep(refl, resolve, serviceId, cls, all, i, done, resolved.value);
      SpliceStep(done, all[i..], resolved.value);
      assert all[i..][1..] == all[i + 1..];
      calls := calls[i := resolved.value];
      done := done + [resolved.value];
      i := i + 1;
    }
    assert all[..i] == all && calls == done;
    return Ok(calls);
  }

  /** The pass object: its container and the id of the definition being visited. */
  class ResolveNamedArgumentsPass {
    const container: ContainerBuilder
    var currentId: string

    constructor (container: ContainerBuilder)
      ensures this.container == container && currentId == ""
    {
      this.container := container;
      currentId := "";
    }

    /**
     * `processValue` on a definition: resolves every call, then writes the arguments and
     * the calls back only where they changed. On an error the definition is untouched.
     */
    method ProcessDefinition(d: Definition) returns (r: Outcome<Error>)
      modifies d`arguments, d`calls
      ensures var spec := ResolveDefinitionArguments(container.reflection, container.resolveValue, currentId,
                                                     old(d.cls), old(d.calls), old(d.arguments));
        match spec
        case Err(e) => r == Fail(e) && d.arguments == old(d.arguments) && d.calls == old(d.calls)
        case Ok((arguments, calls)) => r == Pass && d.arguments == arguments && d.calls == calls
    {
      var resolve := container.resolveValue;
      var cls := d.cls;
      if TruthyClass(cls) {
        cls := Some(resolve(cls.value));
      }
      var resolved := ResolveAllCalls(container.reflection, resolve, currentId, cls,
                                      d.calls + [Call("__construct", d.arguments)]);
      if resolved.Err? {
        return Fail(resolved.error);
      }
      var calls := resolved.value;
      var arguments := calls[|calls| - 1].args;
      calls := calls[..|calls| - 1];
      if arguments != d.arguments {
        d.arguments := arguments;
      }
      if calls != d.calls {
        d.calls := calls;
      }
      return Pass;
    }
  }
}
