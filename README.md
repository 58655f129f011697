# Symfony DependencyInjection compiler passes, modelled in Dafny

This project models three compiler passes of Symfony's DependencyInjection component. Each
pass runs over the service definitions of a `ContainerBuilder` before the container is dumped.

- **ResolveNamedArgumentsPass** (module `ResolveNamedArguments`, `NamedArguments.dfy`).
  Constructor arguments and method-call arguments may be keyed `$name`. The pass turns those
  keys into the position of the parameter with that name, which it learns from reflection on
  the definition's class. Other keys are appended in arrival order. An argument array that
  changed is key-sorted. An unknown class, a missing or non-public method, or an unknown
  `$name` raises an `InvalidArgumentException`.
- **ResolveDefinitionInheritancePass** (module `ResolveDefinitionInheritance`, `Inheritance.dfy`).
  A `ChildDefinition` gets its class from its parent chain. When `inheritTags` is set, it also
  gets the parents' tags appended. The pass then applies the definition's `instanceof`
  conditionals whose interface the class is, or extends. Each one can override `shared` and
  `abstract`, delegates the rest to the template merge, and prepends its own tags.
- **RegisterServiceSubscribersPass** (module `RegisterServiceSubscribers`, `Subscribers.dfy`).
  A non-abstract, non-synthetic definition tagged `container.service_subscriber` must have a
  class implementing `ServiceSubscriberInterface`. Its tag occurrences form a key → service-id
  map, in which the first occurrence of a key wins. Each entry of the class's
  `getSubscribedServices()` is then stored as a lazy `ServiceClosureArgument`. The pass
  registers a private `ServiceLocator` holding those closures and logs the tag keys nobody
  subscribed to. While it rewrites the definition, references to `container` point at the
  locator.

Shared pieces:

- `PhpArrays.dfy` (module `PhpArrays`) models PHP's ordered arrays as a sequence of
  key/value pairs. It defines assignment by key, `unset`, append with the next integer key,
  and `ksort` on integer keys.
- `Services.dfy` (module `Services`) holds what the passes see of the container:
  - the values that appear in definitions and the exceptions;
  - reflection, modelled as an oracle of total functions;
  - the `Definition` class (its fields are updated in place by the passes);
  - the `ContainerBuilder` class (definitions by id, and the compiler log).

Each pass is a class with the source's own state. Its name is the container, plus
`currentId` and `serviceLocator` for the subscriber pass. Its loops are methods proved against
specification functions, and the properties of those functions are proved as lemmas.

## Behaviour worth knowing

These follow the code, which is what the model follows wherever a prose description of the
passes is looser.

- A named argument overwrites a positional argument that already holds the same index. The
  positional value is dropped (`NamedArgumentOverwritesPositional`).
- A positional argument that comes after a named one goes to one past the largest index used
  so far, not into the first free slot (`PositionalAfterNamedSkipsAhead`).
- Integer keys are not kept: positional arguments are renumbered by arrival order
  (`IntegerKeysAreRenumbered`).
- A child whose parent is not in the container gets no class at all, even when it sets a class
  of its own. `resolveDefinition` returns before looking at the child's class
  (`ResolveDefinitionInheritancePass.ResolvedClass`).
- Sometimes a `getSubscribedServices()` entry with an integer key produces the same key as an
  earlier string-keyed entry. The earlier entry has already consumed the tag's mapping for that
  key, so the later one points at the type itself (`DuplicateKeyLosesExplicitMapping`,
  `DuplicateKeyExample`).
- The type pattern is checked with `$` but without PCRE's `D` modifier, so a type with one
  trailing newline is accepted (`TrailingNewlineIsValidType`).

## Model

| member | source | states |
|---|---|---|
| PhpArrays.Find | src/Symfony/Component/DependencyInjection/Compiler/RegisterServiceSubscribersPass.php:58 | `isset` on an ordered array: the position of the first entry with that key, or -1 exactly when the key is absent |
| PhpArrays.Put | src/Symfony/Component/DependencyInjection/Compiler/RegisterServiceSubscribersPass.php:61 | `$a[$k] = $v`: replaces in place when the key exists, otherwise appends; the key then maps to `v`; other keys and their values are unchanged; distinct keys stay distinct |
| PhpArrays.Remove | src/Symfony/Component/DependencyInjection/Compiler/RegisterServiceSubscribersPass.php:91 | `unset($a[$k])`: the key is gone, exactly the other entries remain, and distinct keys stay distinct; the order kept is stated by `RemoveCutsOut` |
| PhpArrays.RemoveKeepsOthers | src/Symfony/Component/DependencyInjection/Compiler/RegisterServiceSubscribersPass.php:91 | after `unset` of one key, every other key still maps to its old value |
| PhpArrays.RemoveCutsOut | src/Symfony/Component/DependencyInjection/Compiler/RegisterServiceSubscribersPass.php:91 | `unset` on an array without repeated keys cuts out exactly the one entry with that key, keeping the others in their order; an absent key leaves the array as it is |
| PhpArrays.NextIndex | src/Symfony/Component/DependencyInjection/Compiler/ResolveNamedArgumentsPass.php:53 | the index `$a[] = ` uses is above every integer key, and is one past an existing key unless it is 0 |
| PhpArrays.Append | src/Symfony/Component/DependencyInjection/Compiler/ResolveNamedArgumentsPass.php:53 | `$a[] = $v` stores `v` under the next index and grows the array by one |
| PhpArrays.KSort | src/Symfony/Component/DependencyInjection/Compiler/ResolveNamedArgumentsPass.php:71 | `ksort` on integer keys: the result is in ascending key order and is a permutation of the input entries |
| PhpArrays.InsertByKey | src/Symfony/Component/DependencyInjection/Compiler/ResolveNamedArgumentsPass.php:71 | inserting one entry into a key-sorted array keeps it sorted and adds exactly that entry |
| PhpArrays.AscendingIsDistinct | src/Symfony/Component/DependencyInjection/Compiler/ResolveNamedArgumentsPass.php:71 | an array whose integer keys ascend strictly holds no key twice |
| PhpArrays.KSortOfAscending | src/Symfony/Component/DependencyInjection/Compiler/ResolveNamedArgumentsPass.php:70-71 | `ksort` of an array already in ascending key order gives it back unchanged |
| PhpArrays.KSortKeepsValues | src/Symfony/Component/DependencyInjection/Compiler/ResolveNamedArgumentsPass.php:71 | `ksort` keeps every key with the value it had |
| Services.WithTag | src/Symfony/Component/DependencyInjection/Compiler/ResolveDefinitionInheritancePass.php:68 | `addTag`: one more occurrence at the end of that tag's list; every other tag's list is unchanged; the tag names are the old ones plus this one |
| Services.WithTagListAppends | src/Symfony/Component/DependencyInjection/Compiler/ResolveDefinitionInheritancePass.php:67-69 | adding a list of occurrences one by one appends the whole list to that tag and leaves the other tags alone |
| Services.WithTagsAppends | src/Symfony/Component/DependencyInjection/Compiler/ResolveDefinitionInheritancePass.php:66-70 | the nested `addTag` loops append, for every tag name, the other definition's occurrences after the existing ones |
| Services.Definition.AddTag | src/Symfony/Component/DependencyInjection/Compiler/ResolveDefinitionInheritancePass.php:68 | the definition's tags become `WithTag` of the old tags |
| Services.Definition.AddTags | src/Symfony/Component/DependencyInjection/Compiler/ResolveDefinitionInheritancePass.php:66-70 | the two nested loops leave the tags equal to `WithTags` of the old tags and the added ones |
| Services.Definition.SetConfig | src/Symfony/Component/DependencyInjection/Compiler/ResolveDefinitionInheritancePass.php:86 | the definition now carries exactly the configuration the template merge returned |
| Services.ContainerBuilder.Register | src/Symfony/Component/DependencyInjection/Compiler/RegisterServiceSubscribersPass.php:100 | `register($id, $class)` stores a fresh definition with that class and Symfony's defaults under the id, and changes no other id |
| Services.ContainerBuilder.Log | src/Symfony/Component/DependencyInjection/Compiler/RegisterServiceSubscribersPass.php:95 | `log` appends exactly one entry to the compiler log |
| ResolveNamedArguments.GetParameters | src/Symfony/Component/DependencyInjection/Compiler/ResolveNamedArgumentsPass.php:96-116 | succeeds exactly when the class is truthy and exists and the method exists and is public, and then yields that method's parameters; each of the four exceptions (class not set, class does not exist, method does not exist, method not public) is raised exactly under its own condition, names the service, and names the class when one is set |
| ResolveNamedArguments.ParamIndex | src/Symfony/Component/DependencyInjection/Compiler/ResolveNamedArgumentsPass.php:59-65 | the first parameter whose `$`-prefixed name equals the key, or -1 when none does |
| ResolveNamedArguments.FindParameter | src/Symfony/Component/DependencyInjection/Compiler/ResolveNamedArgumentsPass.php:59-65 | the inner `foreach` over the parameters finds exactly `ParamIndex` |
| ResolveNamedArguments.IsPositional | src/Symfony/Component/DependencyInjection/Compiler/ResolveNamedArgumentsPass.php:49 | a key is appended positionally when it is an integer, empty, or does not start with `$` (no contract; used by the rows above and below) |
| ResolveNamedArguments.ResolveStep | src/Symfony/Component/DependencyInjection/Compiler/ResolveNamedArgumentsPass.php:48-65 | one argument: appended under the next index, stored at its parameter's index, or the exception (its properties are stated by `StepKeepsKeysValid`, `StepFailsIff`, `NamedStep`, `StepKeeps`) |
| ResolveNamedArguments.ResolveArgs | src/Symfony/Component/DependencyInjection/Compiler/ResolveNamedArgumentsPass.php:48-68 | a resolved argument array has distinct, non-negative integer keys and is no longer than the input |
| ResolveNamedArguments.StepKeepsKeysValid | src/Symfony/Component/DependencyInjection/Compiler/ResolveNamedArgumentsPass.php:48-65 | one argument (appended or placed at its parameter's index) keeps the keys integer, distinct and non-negative, and adds at most one entry |
| ResolveNamedArguments.ResolveArguments | src/Symfony/Component/DependencyInjection/Compiler/ResolveNamedArgumentsPass.php:45-68 | the loop, which fetches the parameters lazily on the first named key, computes exactly `ResolveArgs` with the parameters of the callee |
| ResolveNamedArguments.StepFailsIff | src/Symfony/Component/DependencyInjection/Compiler/ResolveNamedArgumentsPass.php:49-67 | one argument fails exactly when its key is named and either the parameters cannot be fetched or no parameter has that name; a failed fetch is rethrown unchanged |
| ResolveNamedArguments.ErrorPersists | src/Symfony/Component/DependencyInjection/Compiler/ResolveNamedArgumentsPass.php:67 | once a prefix of the arguments has thrown, the whole array throws that same exception |
| ResolveNamedArguments.FailsOnlyOnUnresolvable | src/Symfony/Component/DependencyInjection/Compiler/ResolveNamedArgumentsPass.php:57-67 | an exception implies that some argument's key is named and unresolvable |
| ResolveNamedArguments.UnresolvableKeyFails | src/Symfony/Component/DependencyInjection/Compiler/ResolveNamedArgumentsPass.php:57-67 | any unresolvable named key anywhere in the array makes the call throw |
| ResolveNamedArguments.ResolveArgsFailsIff | src/Symfony/Component/DependencyInjection/Compiler/ResolveNamedArgumentsPass.php:48-68 | both directions: the arguments throw exactly when some key is named and unresolvable |
| ResolveNamedArguments.ParametersErrorIsRethrown | src/Symfony/Component/DependencyInjection/Compiler/ResolveNamedArgumentsPass.php:57 | when `getParameters` throws and resolution fails, the exception is `getParameters`' own |
| ResolveNamedArguments.PrefixOk | src/Symfony/Component/DependencyInjection/Compiler/ResolveNamedArgumentsPass.php:48-68 | if the whole argument array resolves, so does every prefix of it |
| ResolveNamedArguments.PositionalArgumentsAreRenumbered | src/Symfony/Component/DependencyInjection/Compiler/ResolveNamedArgumentsPass.php:49-54 | arguments with only positional keys never throw, and come out as a list 0..n-1 of the same values in the same order |
| ResolveNamedArguments.ResolveIsIdentityIffList | src/Symfony/Component/DependencyInjection/Compiler/ResolveNamedArgumentsPass.php:70-73 | for positional keys, the resolved array is identical to the input exactly when the input is already a list, so only then does the call stay untouched |
| ResolveNamedArguments.ResolvedValuesComeFromArguments | src/Symfony/Component/DependencyInjection/Compiler/ResolveNamedArgumentsPass.php:48-68 | every resolved value is one of the given arguments |
| ResolveNamedArguments.NamedStep | src/Symfony/Component/DependencyInjection/Compiler/ResolveNamedArgumentsPass.php:59-63 | a named key that resolves is stored under its parameter's index |
| ResolveNamedArguments.StepKeeps | src/Symfony/Component/DependencyInjection/Compiler/ResolveNamedArgumentsPass.php:53-61 | a step leaves every index other than the one it writes unchanged |
| ResolveNamedArguments.NamedArgumentLandsOnItsParameter | src/Symfony/Component/DependencyInjection/Compiler/ResolveNamedArgumentsPass.php:59-63 | a `$name` argument ends up at its parameter's index with its value, unless a later argument with the same name replaces it |
| ResolveNamedArguments.NamedArgumentOverwritesPositional | src/Symfony/Component/DependencyInjection/Compiler/ResolveNamedArgumentsPass.php:53-61 | `[a, '$x' => b]` for `f($x)` resolves to `[b]`: the named value replaces the positional one |
| ResolveNamedArguments.PositionalAfterNamedSkipsAhead | src/Symfony/Component/DependencyInjection/Compiler/ResolveNamedArgumentsPass.php:53-61 | `['$y' => a, b]` for `f($x, $y)` resolves to `[1 => a, 2 => b]` |
| ResolveNamedArguments.IntegerKeysAreRenumbered | src/Symfony/Component/DependencyInjection/Compiler/ResolveNamedArgumentsPass.php:49-54 | `[1 => a, 0 => b]` resolves to `[0 => a, 1 => b]` |
| ResolveNamedArguments.ResolveCall | src/Symfony/Component/DependencyInjection/Compiler/ResolveNamedArgumentsPass.php:43-73 | the call throws exactly when resolving its arguments does, with that exception; a resolved call keeps its method name; its arguments are a permutation of the resolved arguments, are the original array exactly when the resolved array is, and otherwise are key-sorted |
| ResolveNamedArguments.SortingShowsChange | src/Symfony/Component/DependencyInjection/Compiler/ResolveNamedArgumentsPass.php:70-72 | when sorting the resolved arguments gives back the original array, the resolved array already was that array, so skipping the sort for unchanged arguments loses nothing |
| ResolveNamedArguments.NamedArgumentLandsInCall | src/Symfony/Component/DependencyInjection/Compiler/ResolveNamedArgumentsPass.php:57-63 | in a call that resolves, a `$name` argument not repeated later finds its parameter, and the call's new arguments hold its value at that parameter's index |
| ResolveNamedArguments.ResolvedClass | src/Symfony/Component/DependencyInjection/Compiler/ResolveNamedArgumentsPass.php:35-37 | a truthy class is resolved through the parameter bag; a falsy one stays as it is (no contract; used by `GetParameters`' callers) |
| ResolveNamedArguments.ResolveOneCall | src/Symfony/Component/DependencyInjection/Compiler/ResolveNamedArgumentsPass.php:43-73 | one iteration of the calls loop computes exactly `ResolveCall` |
| ResolveNamedArguments.ResolveCalls | src/Symfony/Component/DependencyInjection/Compiler/ResolveNamedArgumentsPass.php:42-74 | when no call throws, every call is replaced by its own resolution and the number of calls is kept |
| ResolveNamedArguments.CallErrorPersists | src/Symfony/Component/DependencyInjection/Compiler/ResolveNamedArgumentsPass.php:42-74 | the first call that throws decides the exception for the whole list |
| ResolveNamedArguments.CallsFailAtSomeCall | src/Symfony/Component/DependencyInjection/Compiler/ResolveNamedArgumentsPass.php:42-74 | when the calls loop throws, the exception is that of one of the calls |
| ResolveNamedArguments.CallsResolveWhenEachDoes | src/Symfony/Component/DependencyInjection/Compiler/ResolveNamedArgumentsPass.php:42-74 | when every call of a prefix resolves, the loop over that prefix throws nothing |
| ResolveNamedArguments.CallsFailAtFirstFailure | src/Symfony/Component/DependencyInjection/Compiler/ResolveNamedArgumentsPass.php:42-74 | the calls loop throws exactly the exception of the first call that throws |
| ResolveNamedArguments.FixedCallsAreKept | src/Symfony/Component/DependencyInjection/Compiler/ResolveNamedArgumentsPass.php:70-73 | calls that each resolve to themselves leave the list unchanged |
| ResolveNamedArguments.ResolveAllCalls | src/Symfony/Component/DependencyInjection/Compiler/ResolveNamedArgumentsPass.php:42-74 | the loop that writes each resolved call back into `$calls` computes exactly `ResolveCalls` |
| ResolveNamedArguments.ResolveDefinitionArguments | src/Symfony/Component/DependencyInjection/Compiler/ResolveNamedArgumentsPass.php:39-83 | succeeds exactly when the constructor call and every method call resolve; an exception is the constructor's or some call's own (which one is fixed by the two lemmas below); the new arguments are the resolution of `__construct` with the old arguments, and the i-th new call is the resolution of the i-th old call, with as many calls as before |
| ResolveNamedArguments.DefinitionFailsAtFirstFailingCall | src/Symfony/Component/DependencyInjection/Compiler/ResolveNamedArgumentsPass.php:39-42 | method calls are resolved first: the definition throws the exception of its first failing method call, whatever the constructor arguments |
| ResolveNamedArguments.ConstructorFailsLast | src/Symfony/Component/DependencyInjection/Compiler/ResolveNamedArgumentsPass.php:39-42 | the constructor's exception is thrown only when every method call resolves, and then it is the one thrown |
| ResolveNamedArguments.NamedConstructorArgumentLands | src/Symfony/Component/DependencyInjection/Compiler/ResolveNamedArgumentsPass.php:39-79 | for a definition that resolves, a `$name` constructor argument not repeated later ends up in the new arguments at the index of the constructor parameter with that name |
| ResolveNamedArguments.ListArgumentsAreLeftAlone | src/Symfony/Component/DependencyInjection/Compiler/ResolveNamedArgumentsPass.php:70-83 | a definition whose constructor and call arguments are all lists is left unchanged |
| ResolveNamedArguments.ResolveNamedArgumentsPass.ProcessDefinition | src/Symfony/Component/DependencyInjection/Compiler/ResolveNamedArgumentsPass.php:27-86 | on an exception, the definition's arguments and calls are untouched; otherwise they are replaced by the resolved ones |
| ResolveDefinitionInheritance.MatchesIff | src/Symfony/Component/DependencyInjection/Compiler/ResolveDefinitionInheritancePass.php:37-44 | the skip test and the match test together apply a conditional exactly when the interface is the class, or both exist and the class extends the interface |
| ResolveDefinitionInheritance.Matches | src/Symfony/Component/DependencyInjection/Compiler/ResolveDefinitionInheritancePass.php:37-44 | the skip test and the match test of one conditional (its properties are stated by `MatchesIff`) |
| ResolveDefinitionInheritance.ApplyConditionals | src/Symfony/Component/DependencyInjection/Compiler/ResolveDefinitionInheritancePass.php:37-44 | the matching conditionals merged in order (its properties are stated by `ApplyConditionalsTags`, `LastSharedChangeWins`, `LastAbstractChangeWins`, `NoMatchNoChange`) |
| ResolveDefinitionInheritance.HasConditionalsToApply | src/Symfony/Component/DependencyInjection/Compiler/ResolveDefinitionInheritancePass.php:32 | a truthy class without `%` and a non-empty conditionals map (no contract; used by `ProcessDefinition`) |
| ResolveDefinitionInheritance.Merge | src/Symfony/Component/DependencyInjection/Compiler/ResolveDefinitionInheritancePass.php:76-86 | `shared` and `abstract` are taken from the conditional exactly when it changed them, and the rest is the template merge |
| ResolveDefinitionInheritance.MergePrependsTags | src/Symfony/Component/DependencyInjection/Compiler/ResolveDefinitionInheritancePass.php:88-97 | for every tag name, the conditional's occurrences come before the definition's own; the tag names are the union; distinct names stay distinct |
| ResolveDefinitionInheritance.ApplyConditionalsTags | src/Symfony/Component/DependencyInjection/Compiler/ResolveDefinitionInheritancePass.php:37-44 | after all matching conditionals, each tag's list is the matching conditionals' occurrences, latest first, followed by the definition's own |
| ResolveDefinitionInheritance.UnchangedFlagsAreKept | src/Symfony/Component/DependencyInjection/Compiler/ResolveDefinitionInheritancePass.php:79-81 | when no matching conditional changes `shared`, the definition keeps its own value |
| ResolveDefinitionInheritance.LastSharedChangeWins | src/Symfony/Component/DependencyInjection/Compiler/ResolveDefinitionInheritancePass.php:79-81 | the last matching conditional that changes `shared` decides it |
| ResolveDefinitionInheritance.LastAbstractChangeWins | src/Symfony/Component/DependencyInjection/Compiler/ResolveDefinitionInheritancePass.php:82-84 | the last matching conditional that changes `abstract` decides it |
| ResolveDefinitionInheritance.NoMatchNoChange | src/Symfony/Component/DependencyInjection/Compiler/ResolveDefinitionInheritancePass.php:37-44 | conditionals that match none of the class's interfaces leave the definition as it was |
| ResolveDefinitionInheritance.ResolveDefinitionInheritancePass.ResolvedClass | src/Symfony/Component/DependencyInjection/Compiler/ResolveDefinitionInheritancePass.php:52-60 | a missing parent gives no class; with a parent, a truthy own class wins; any class found comes from the child or from a definition up its parent chain |
| ResolveDefinitionInheritance.ResolveDefinitionInheritancePass.ResolvedClassReadsOnlyClasses | src/Symfony/Component/DependencyInjection/Compiler/ResolveDefinitionInheritancePass.php:52-60 | the class a child resolves to depends only on the classes along its parent chain, so updating tags and flags does not change it |
| ResolveDefinitionInheritance.ResolveDefinitionInheritancePass.NewTags | src/Symfony/Component/DependencyInjection/Compiler/ResolveDefinitionInheritancePass.php:62-71 | the tags a definition has after `resolveDefinition` (its properties are stated by `InheritedTagsFollowOwn`) |
| ResolveDefinitionInheritance.ResolveDefinitionInheritancePass.InheritedTagsFollowOwn | src/Symfony/Component/DependencyInjection/Compiler/ResolveDefinitionInheritancePass.php:62-71 | with `inheritTags` set, each tag's list is the child's own occurrences followed by the parent's resolved ones; tag names stay distinct |
| ResolveDefinitionInheritance.ResolveDefinitionInheritancePass.ResolveDefinition | src/Symfony/Component/DependencyInjection/Compiler/ResolveDefinitionInheritancePass.php:52-74 | the recursion returns `ResolvedClass`; it leaves the child and every ancestor with the inherited tags and with `inheritTags` cleared where a parent exists; nothing outside the chain changes |
| ResolveDefinitionInheritance.ResolveDefinitionInheritancePass.InheritTags | src/Symfony/Component/DependencyInjection/Compiler/ResolveDefinitionInheritancePass.php:63-71 | the parent's occurrences are appended only when `inheritTags` was set, and the flag ends cleared |
| ResolveDefinitionInheritance.ResolveDefinitionInheritancePass.MergeDefinition | src/Symfony/Component/DependencyInjection/Compiler/ResolveDefinitionInheritancePass.php:76-98 | the definition's flags, configuration and tags become `Merge` of the old ones; its conditionals and `inheritTags` are kept |
| ResolveDefinitionInheritance.ResolveDefinitionInheritancePass.MergeConditionals | src/Symfony/Component/DependencyInjection/Compiler/ResolveDefinitionInheritancePass.php:37-44 | the loop merges exactly the matching conditionals, in order (`ApplyConditionals`) |
| ResolveDefinitionInheritance.ResolveDefinitionInheritancePass.Settled | src/Symfony/Component/DependencyInjection/Compiler/ResolveDefinitionInheritancePass.php:32-71 | nothing is left to do: no definition up the chain still inherits tags from a present parent, and there are no conditionals to apply (no contract; used by `ProcessDefinition`) |
| ResolveDefinitionInheritance.ResolveDefinitionInheritancePass.SettledTagsAreFinal | src/Symfony/Component/DependencyInjection/Compiler/ResolveDefinitionInheritancePass.php:63-71 | on a settled chain, resolving inheritance leaves every definition's tags as they are |
| ResolveDefinitionInheritance.ResolveDefinitionInheritancePass.ResolveStart | src/Symfony/Component/DependencyInjection/Compiler/ResolveDefinitionInheritancePass.php:30 | the class line: a child's class is resolved through its chain, a plain definition's class is read; afterwards nothing up the chain still inherits tags from a present parent |
| ResolveDefinitionInheritance.ResolveDefinitionInheritancePass.ProcessDefinition | src/Symfony/Component/DependencyInjection/Compiler/ResolveDefinitionInheritancePass.php:24-47 | with a truthy class free of `%` and some conditionals, the conditionals are cleared and the matching ones applied on top of the inherited state; otherwise only inheritance happens; the parent chain's tags and flags are updated as `ResolveDefinition` says; afterwards the definition is `Settled`, and on a settled definition a second run changes nothing |
| ResolveDefinitionInheritance.ResolveDefinitionInheritancePass.ProcessDefinitionTwice | src/Symfony/Component/DependencyInjection/Compiler/ResolveDefinitionInheritancePass.php:24-47 | two runs of the pass on one definition end in exactly the state one run gives: same class target, conditionals, flags and chain tags |
| RegisterServiceSubscribers.RewriteItems | src/Symfony/Component/DependencyInjection/Compiler/RegisterServiceSubscribersPass.php:34-36 | an array is rewritten value by value, keeping its keys and order |
| RegisterServiceSubscribers.RewriteValue | src/Symfony/Component/DependencyInjection/Compiler/RegisterServiceSubscribersPass.php:34-36 | a reference to `container` becomes a reference to the current locator, and arrays are rewritten item by item (its properties are stated by the rows around it) |
| RegisterServiceSubscribers.RewriteRemovesContainerRefs | src/Symfony/Component/DependencyInjection/Compiler/RegisterServiceSubscribersPass.php:34-36 | with a locator in place, no reference to `container` survives anywhere in a value |
| RegisterServiceSubscribers.RewriteIsIdentityWithoutTarget | src/Symfony/Component/DependencyInjection/Compiler/RegisterServiceSubscribersPass.php:34-36 | without a locator, or with no `container` reference inside, a value is left as it is |
| RegisterServiceSubscribers.TagEntry | src/Symfony/Component/DependencyInjection/Compiler/RegisterServiceSubscribersPass.php:45-57 | an empty occurrence is skipped; an occurrence yields a pair exactly when it has only `id`/`key` and has `id`; the pair's service id is that `id` attribute and its key is the `key` attribute, or the `id` when there is none; the stray-attribute exception is raised exactly when a non-empty occurrence has another attribute, and the missing-`id` exception exactly when it has only `key`; both name the service |
| RegisterServiceSubscribers.ServiceMapOf | src/Symfony/Component/DependencyInjection/Compiler/RegisterServiceSubscribersPass.php:44-62 | the service map never holds a key twice |
| RegisterServiceSubscribers.ServiceMapOkIff | src/Symfony/Component/DependencyInjection/Compiler/RegisterServiceSubscribersPass.php:44-57 | both directions: the tag is accepted exactly when every occurrence is |
| RegisterServiceSubscribers.ServiceMapFailsAtFirstBadTag | src/Symfony/Component/DependencyInjection/Compiler/RegisterServiceSubscribersPass.php:49-54 | the exception is the first bad occurrence's own |
| RegisterServiceSubscribers.ServiceMapErrorPersists | src/Symfony/Component/DependencyInjection/Compiler/RegisterServiceSubscribersPass.php:49-54 | once a prefix of the occurrences has thrown, the whole tag throws the same exception |
| RegisterServiceSubscribers.FirstOccurrenceWins | src/Symfony/Component/DependencyInjection/Compiler/RegisterServiceSubscribersPass.php:58-61 | the map's keys are exactly the declared keys, and each key maps to the service id of the first occurrence declaring it |
| RegisterServiceSubscribers.NamespacedTypesAreValid | src/Symfony/Component/DependencyInjection/Compiler/RegisterServiceSubscribersPass.php:76 | namespaced and `?`-optional class names pass the type pattern |
| RegisterServiceSubscribers.TrailingNewlineIsValidType | src/Symfony/Component/DependencyInjection/Compiler/RegisterServiceSubscribersPass.php:76 | one trailing newline after a valid name is accepted, although it is no part of the name syntax |
| RegisterServiceSubscribers.MalformedTypesAreInvalid | src/Symfony/Component/DependencyInjection/Compiler/RegisterServiceSubscribersPass.php:76 | a leading digit, a doubled `?` and the empty string are rejected |
| RegisterServiceSubscribers.StrayBackslashesAreInvalid | src/Symfony/Component/DependencyInjection/Compiler/RegisterServiceSubscribersPass.php:76 | a trailing backslash and an empty namespace segment are rejected |
| RegisterServiceSubscribers.SegmentsRoundTrip | src/Symfony/Component/DependencyInjection/Compiler/RegisterServiceSubscribersPass.php:76 | splitting a type at its backslashes and joining it back gives the same string |
| RegisterServiceSubscribers.ValidType | src/Symfony/Component/DependencyInjection/Compiler/RegisterServiceSubscribersPass.php:76 | the type pattern, with PCRE's final-newline allowance (its properties are stated by the type lemmas above) |
| RegisterServiceSubscribers.NonAsciiTypesAreValid | src/Symfony/Component/DependencyInjection/Compiler/RegisterServiceSubscribersPass.php:76 | names made of non-ASCII characters pass the type pattern |
| RegisterServiceSubscribers.SubscribeStep | src/Symfony/Component/DependencyInjection/Compiler/RegisterServiceSubscribersPass.php:76-91 | an entry fails exactly when it is not a valid type string, with that entry's exception; otherwise its key maps to the closure over the tag's mapping (or the type itself), other keys keep their values, and the key leaves the service map; neither map gains a repeated key |
| RegisterServiceSubscribers.SubscribeAll | src/Symfony/Component/DependencyInjection/Compiler/RegisterServiceSubscribersPass.php:75-91 | the loop over `getSubscribedServices()` (its properties are stated by the `SubscribeAll…` lemmas) |
| RegisterServiceSubscribers.SubscribeAllKeepsKeysDistinct | src/Symfony/Component/DependencyInjection/Compiler/RegisterServiceSubscribersPass.php:75-91 | the loop never gives either map a repeated key |
| RegisterServiceSubscribers.SubscribeAllOkIff | src/Symfony/Component/DependencyInjection/Compiler/RegisterServiceSubscribersPass.php:75-78 | both directions: subscription succeeds exactly when every entry is a valid type string |
| RegisterServiceSubscribers.SubscribeAllFailsAtFirstInvalid | src/Symfony/Component/DependencyInjection/Compiler/RegisterServiceSubscribersPass.php:75-78 | the exception names the first invalid entry |
| RegisterServiceSubscribers.SubscribeErrorPersists | src/Symfony/Component/DependencyInjection/Compiler/RegisterServiceSubscribersPass.php:77 | once a prefix of the entries has thrown, the whole loop throws the same exception |
| RegisterServiceSubscribers.SubscribeAllKeys | src/Symfony/Component/DependencyInjection/Compiler/RegisterServiceSubscribersPass.php:75-91 | the subscriber map's keys are the entries' keys, and the service map keeps exactly its keys no entry used |
| RegisterServiceSubscribers.SubscribeAllConsumes | src/Symfony/Component/DependencyInjection/Compiler/RegisterServiceSubscribersPass.php:86-91 | what is left of the service map is a part of the original, with its values unchanged |
| RegisterServiceSubscribers.ExplicitMappingWins | src/Symfony/Component/DependencyInjection/Compiler/RegisterServiceSubscribersPass.php:86-90 | with distinct entry keys, every entry's closure targets the service the tag mapped its key to, or the type when the tag does not map it |
| RegisterServiceSubscribers.DuplicateKeyLosesExplicitMapping | src/Symfony/Component/DependencyInjection/Compiler/RegisterServiceSubscribersPass.php:83-91 | when two entries produce the same key, the later one wins and targets its own type, whatever the tag mapped |
| RegisterServiceSubscribers.DuplicateKeyExample | src/Symfony/Component/DependencyInjection/Compiler/RegisterServiceSubscribersPass.php:83-91 | `['a' => 'A', 'a']` with the tag mapping `a` to `svc` ends with `a` pointing at service `a` |
| RegisterServiceSubscribers.CheckSubscriberClass | src/Symfony/Component/DependencyInjection/Compiler/RegisterServiceSubscribersPass.php:63-71 | the class check passes exactly when the class implements `ServiceSubscriberInterface`; otherwise "class cannot be found" is raised exactly when there is no class or `class_exists($class, false)` is false (so also for an interface or trait), and "must implement" exactly when it is true; both name the service |
| RegisterServiceSubscribers.Subscription | src/Symfony/Component/DependencyInjection/Compiler/RegisterServiceSubscribersPass.php:44-96 | everything computed for a subscriber before its locator is registered (its properties are stated by the three lemmas below) |
| RegisterServiceSubscribers.SubscriptionOkIff | src/Symfony/Component/DependencyInjection/Compiler/RegisterServiceSubscribersPass.php:44-92 | both directions: a subscriber is accepted exactly when every tag occurrence is, its class is a subscriber, and every subscribed entry is a valid type |
| RegisterServiceSubscribers.LeftoverKeysAreUnsubscribed | src/Symfony/Component/DependencyInjection/Compiler/RegisterServiceSubscribersPass.php:86-96 | the locator's keys are exactly the subscribed keys, and the logged keys are exactly the tag's keys that no entry used |
| RegisterServiceSubscribers.SubscriptionKeysAreDistinct | src/Symfony/Component/DependencyInjection/Compiler/RegisterServiceSubscribersPass.php:58-91 | the locator's map and the leftover service map each hold every key once |
| RegisterServiceSubscribers.UnusedKeysLog | src/Symfony/Component/DependencyInjection/Compiler/RegisterServiceSubscribersPass.php:94-96 | one log entry naming the leftover keys, or none when there are none (no contract; used by `ProcessDefinition`) |
| RegisterServiceSubscribers.LocatorId | src/Symfony/Component/DependencyInjection/Compiler/RegisterServiceSubscribersPass.php:99 | the locator's id is truthy and is never `container`, so the rewrite cannot loop back onto it |
| RegisterServiceSubscribers.FreshLocatorContents | src/Symfony/Component/DependencyInjection/Compiler/RegisterServiceSubscribersPass.php:100-104 | the locator's only argument sits at index 0, and it carries exactly one empty `container.service_locator` tag |
| RegisterServiceSubscribers.IsSubscriber | src/Symfony/Component/DependencyInjection/Compiler/RegisterServiceSubscribersPass.php:38 | a non-abstract, non-synthetic definition with the `container.service_subscriber` tag (no contract; used by `ProcessDefinition`) |
| RegisterServiceSubscribers.LocatorIsRegistered | src/Symfony/Component/DependencyInjection/Compiler/RegisterServiceSubscribersPass.php:98-104 | the registered locator's class, argument, visibility, autowiring and tag, and `register`'s defaults for the rest: shared, not abstract, not synthetic, not a child, no calls, properties or conditionals (no contract; used by `RegisterLocator`) |
| RegisterServiceSubscribers.RegisterServiceSubscribersPass.BuildServiceMap | src/Symfony/Component/DependencyInjection/Compiler/RegisterServiceSubscribersPass.php:44-62 | the tag loop computes exactly `ServiceMapOf` |
| RegisterServiceSubscribers.RegisterServiceSubscribersPass.SubscribeEntry | src/Symfony/Component/DependencyInjection/Compiler/RegisterServiceSubscribersPass.php:76-91 | one iteration of the subscribed-services loop computes exactly `SubscribeStep` |
| RegisterServiceSubscribers.RegisterServiceSubscribersPass.BuildSubscriberMap | src/Symfony/Component/DependencyInjection/Compiler/RegisterServiceSubscribersPass.php:73-92 | the subscribed-services loop computes exactly `SubscribeAll` from an empty subscriber map |
| RegisterServiceSubscribers.RegisterServiceSubscribersPass.RewriteDefinition | src/Symfony/Component/DependencyInjection/Compiler/RegisterServiceSubscribersPass.php:34-39 | the definition's arguments, properties and call arguments are rewritten under the current locator |
| RegisterServiceSubscribers.RegisterServiceSubscribersPass.RegisterLocator | src/Symfony/Component/DependencyInjection/Compiler/RegisterServiceSubscribersPass.php:100-104 | a fresh `ServiceLocator` holding the subscriber map is registered under the id: private, with the subscriber's autowiring and the locator tag, and otherwise with `register`'s defaults (shared, not abstract or synthetic, no calls, properties or conditionals); no other id changes |
| RegisterServiceSubscribers.RegisterServiceSubscribersPass.ProcessDefinition | src/Symfony/Component/DependencyInjection/Compiler/RegisterServiceSubscribersPass.php:32-111 | non-subscribers are only rewritten; a rejected subscriber throws with nothing changed; an accepted one logs its unused keys, gets its locator registered, and is rewritten against it; the previous locator is always restored |

## Left out

- Inline definitions nested inside argument values, and the recursive walk of
  `AbstractRecursivePass` over the whole container, are not modelled. Each pass's
  `ProcessDefinition` handles one definition. `currentId` is state that the walk would set.
- Aliases are not modelled. `has($parent)`/`findDefinition` are a lookup of the id among the
  definitions.
- `Reference` ids are not lower-cased, and numeric-string array keys are not normalised to
  integers.
- The deprecation notice for non-`$` string keys (`trigger_error`,
  ResolveNamedArgumentsPass.php:51) is a side channel and is not modelled.
- `addObjectResource` (RegisterServiceSubscribersPass.php:72) only records a file resource
  and is not modelled.
- `md5(serialize($value))` becomes the `hash` parameter of `ProcessDefinition`.
- Reflection (`getReflectionClass`, `class_exists($class, false)`, `is_subclass_of`,
  `getMethod`, `getSubscribedServices()`) is an oracle of total functions. The first two are
  separate oracles, because `class_exists` is false for interfaces and traits. Class loading and autoloading are
  not modelled.
- The parameter bag's `resolveValue` is a given function on strings.
- `ResolveDefinitionTemplatesPass::mergeDefinition` is a given function on the configuration
  it may rewrite. ResolveDefinitionTemplatesPass.php is not part of this model.
- Factory, configurator, file, lazy and deprecation settings are left out of `Definition`.
  These passes read them only through the recursive walk, which is left out too: the subscriber
  pass's `parent::processValue` would rewrite `container` references inside the factory and
  configurator as well.
- Strings are sequences of code points, not UTF-8 bytes. The type pattern's `\x7f-\xff` byte
  range is modelled as every character from U+007F on, which is what it accepts on UTF-8 text.
  Type strings that are not valid UTF-8 are not modelled.
- The `ksort` of a tag occurrence's attributes (RegisterServiceSubscribersPass.php:48) only
  affects the order of the key names quoted in the error message. The model keeps the given
  order.
- `ResolveDefinitionInheritancePass.ProcessDefinition`: cyclic parent chains are excluded by
  its requires (a ghost rank that decreases along `parent`). The source would recurse without
  end on a cycle.
- `PhpArrays.NextIndex`: the next append index is computed from the keys present. PHP's
  separate `nNextFreeElement` counter, which remembers removed keys, is not modelled. The
  arrays appended to here only ever grow.
- `RegisterServiceSubscribers.ExplicitMappingWins`: it requires distinct entry keys and a
  service map without repeated keys. The duplicate-key case is stated separately by
  `DuplicateKeyLosesExplicitMapping`.
- The compiler log is a sequence of structured entries rather than formatted strings.
