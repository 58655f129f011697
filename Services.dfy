/**
 * The service-definition graph the compiler passes rewrite: argument values,
 * tags, definitions, the container builder, and the reflection oracle the
 * passes consult.
 */
module Services {
  import opened PhpArrays

  /** `ContainerInterface::EXCEPTION_ON_INVALID_REFERENCE` and its siblings. */
  datatype InvalidBehavior =
    | ExceptionOnInvalidReference
    | NullOnInvalidReference
    | IgnoreOnInvalidReference

  /**
   * An argument, property or method-call argument: a scalar, a `Reference`,
   * a `TypedReference`, a nested PHP array, or a `ServiceClosureArgument`.
   */
  datatype Value =
    | Scalar(literal: string)
    | Ref(id: string, behavior: InvalidBehavior)
    | TypedRef(id: string, refType: string, behavior: InvalidBehavior)
    | ArrayValue(items: PArray<Value>)
    | ServiceClosure(target: Value)

  /** One entry of `getMethodCalls()`: `array($method, $arguments)`. */
  datatype Call = Call(name: string, args: PArray<Value>)

  /** The attributes of one tag occurrence. */
  type Attributes = PArray<string>

  /** `getTags()`: tag name => the attribute sets of each occurrence, in order. */
  type Tags = OMap<string, seq<Attributes>>

  /** PHP's truthiness of a string: "" and "0" are false. */
  predicate Truthy(s: string) {
    s != "" && s != "0"
  }

  /** PHP's truthiness of a nullable class name. */
  predicate TruthyClass(c: Option<string>) {
    c.Some? && Truthy(c.value)
  }

  /** How `sprintf('%s', ...)` prints a nullable class name. */
  function ClassName(c: Option<string>): string {
    if c.Some? then c.value else ""
  }

  /** The `InvalidArgumentException`s the passes throw, one constructor per message. */
  datatype Error =
    | ClassNotSet(serviceId: string)
    | ClassDoesNotExist(serviceId: string, cls: string)
    | MethodDoesNotExist(serviceId: string, cls: string, methodName: string)
    | MethodNotPublic(serviceId: string, cls: string, methodName: string)
    | NoArgumentNamed(serviceId: string, cls: string, methodName: string, key: string)
    | InvalidTagAttributes(serviceId: string, attributeKeys: seq<Key>)
    | MissingIdAttribute(serviceId: string, key: string)
    | SubscriberClassNotFound(serviceId: string, cls: string)
    | NotAServiceSubscriber(serviceId: string)
    | InvalidSubscribedType(serviceId: string, cls: string, subscribedKey: Key, given: string)

  /** A message sent to the container's compiler log. */
  datatype LogEntry = UnusedSubscriberKeys(serviceId: string, cls: string, keys: seq<string>)

  /** What reflection says about one method: its name, visibility and parameter names in order. */
  datatype MethodInfo = MethodInfo(name: string, isPublic: bool, parameters: seq<string>)

  /** A value of the map returned by `getSubscribedServices()`. */
  datatype SubscribedType = TypeString(name: string) | NotAString(phpType: string)

  /**
   * Class loading and reflection, as a total oracle: `getReflectionClass`,
   * `class_exists($class, false)`, `is_subclass_of`, `ReflectionClass::getMethod` and
   * `$class::getSubscribedServices()`. `classExists` is `getReflectionClass`, which also finds
   * interfaces and traits; `classDefined` is `class_exists` without autoloading, which is false
   * for interfaces, traits and classes not yet loaded.
   */
  datatype Reflection = Reflection(
    classExists: string -> bool,
    classDefined: string -> bool,
    isSubclassOf: (string, string) -> bool,
    getMethod: (string, string) -> Option<MethodInfo>,
    subscribedServices: string -> PArray<SubscribedType>)

  /** The part of a definition that `ResolveDefinitionTemplatesPass::mergeDefinition` may rewrite. */
  datatype Config = Config(
    cls: Option<string>,
    arguments: PArray<Value>,
    calls: seq<Call>,
    properties: PArray<Value>,
    public: bool,
    synthetic: bool,
    autowired: bool)

  /** An instanceof conditional (a `ChildDefinition`): the fields it explicitly changed, and its values. */
  datatype Conditional = Conditional(
    changes: set<string>,
    shared: bool,
    isAbstract: bool,
    tags: Tags,
    config: Config)

  /** `addTag($name, $attributes)`: one more occurrence at the end of that name's list. */
  function WithTag(tags: Tags, name: string, attrs: Attributes): (r: Tags)
    ensures ListAt(r, name) == ListAt(tags, name) + [attrs]
    ensures forall n :: n != name ==> ListAt(r, n) == ListAt(tags, n)
    ensures forall n :: n in Keys(r) <==> n in Keys(tags) || n == name
    ensures DistinctKeys(tags) ==> DistinctKeys(r)
  {
    Put(tags, name, ListAt(tags, name) + [attrs])
  }

  /** `foreach ($list as $v) addTag($name, $v)`. */
  function WithTagList(tags: Tags, name: string, list: seq<Attributes>): Tags
  {
    if list == [] then tags
    else WithTag(WithTagList(tags, name, list[..|list| - 1]), name, list[|list| - 1])
  }

  /** `foreach ($extra as $k => $v) foreach ($v as $v) addTag($k, $v)`. */
  function WithTags(tags: Tags, extra: Tags): Tags
  {
    if extra == [] then tags
    else
      var last := extra[|extra| - 1];
      WithTagList(WithTags(tags, extra[..|extra| - 1]), last.0, last.1)
  }

  lemma {:induction false} WithTagListAppends(tags: Tags, name: string, list: seq<Attributes>)
    ensures ListAt(WithTagList(tags, name, list), name) == ListAt(tags, name) + list
    ensures forall n :: n != name ==> ListAt(WithTagList(tags, name, list), n) == ListAt(tags, n)
    ensures forall n :: n in Keys(WithTagList(tags, name, list)) <==> n in Keys(tags) || (n == name && list != [])
    ensures DistinctKeys(tags) ==> DistinctKeys(WithTagList(tags, name, list))
  {
    if list != [] {
      var init := list[..|list| - 1];
      var last := list[|list| - 1];
      var before := WithTagList(tags, name, init);
      var r := WithTag(before, name, last);
      WithTagListAppends(tags, name, init);
      assert WithTagList(tags, name, list) == r;
      assert ListAt(r, name) == ListAt(before, name) + [last];
      ConcatSnoc(ListAt(tags, name), list);
      forall n | n != name ensures ListAt(r, n) == ListAt(tags, n) {
        assert ListAt(r, n) == ListAt(before, n);
      }
      forall n ensures n in Keys(r) <==> n in Keys(tags) || n == name {
        assert n in Keys(r) <==> n in Keys(before) || n == name;
      }
    }
  }

  /** Looking up a name in an array that grew by one entry. */
  lemma ListAtSnoc<T>(m: OMap<string, seq<T>>, k: string, v: seq<T>, n: string)
    ensures ListAt(m + [(k, v)], n) ==
      if n in Keys(m) then ListAt(m, n) else if n == k then v else []
  {
    var r := m + [(k, v)];
    assert Keys(r) == Keys(m) + [k];
    if n in Keys(m) {
      FindIsFirst(r, n, Find(m, n));
    } else if n == k {
      FindIsFirst(r, n, |m|);
    }
  }

  /**
   * Adding all of `extra`'s occurrences to `tags`: each name's list becomes its old list
   * followed by `extra`'s list, and a name is present afterwards iff it was before or
   * `extra` brings at least one occurrence of it. No occurrence is dropped.
   */
  lemma {:induction false} WithTagsAppends(tags: Tags, extra: Tags)
    requires DistinctKeys(extra)
    ensures forall n :: ListAt(WithTags(tags, extra), n) == ListAt(tags, n) + ListAt(extra, n)
    ensures forall n :: n in Keys(WithTags(tags, extra)) <==> n in Keys(tags) || ListAt(extra, n) != []
    ensures DistinctKeys(tags) ==> DistinctKeys(WithTags(tags, extra))
  {
    if extra == [] {
      forall n ensures ListAt(tags, n) + ListAt(extra, n) == ListAt(tags, n) {
        assert ListAt(extra, n) == [];
      }
    } else {
      var init := extra[..|extra| - 1];
      var last := extra[|extra| - 1];
      var before := WithTags(tags, init);
      assert extra == init + [last];
      assert DistinctKeys(init);
      WithTagsAppends(tags, init);
      WithTagListAppends(before, last.0, last.1);
      assert WithTags(tags, extra) == WithTagList(before, last.0, last.1);
      assert last.0 !in Keys(init) by {
        assert forall j :: 0 <= j < |init| ==> init[j].0 == extra[j].0;
      }
      forall n ensures ListAt(WithTags(tags, extra), n) == ListAt(tags, n) + ListAt(extra, n) {
        ListAtSnoc(init, last.0, last.1, n);
        if n == last.0 {
          assert ListAt(init, n) == [];
          assert ListAt(tags, n) + ListAt(init, n) == ListAt(tags, n);
        }
      }
    }
  }

  /**
   * A service definition (`Definition`, or `ChildDefinition` when `isChild`), updated in
   * place by the passes. Only the fields the passes read or write are modelled.
   */
  class Definition {
    var cls: Option<string>
    var arguments: PArray<Value>
    var calls: seq<Call>
    var properties: PArray<Value>
    var tags: Tags
    var shared: bool
    var isAbstract: bool
    var synthetic: bool
    var public: bool
    var autowired: bool
    var instanceof: OMap<string, Conditional>
    /** Whether this is a `ChildDefinition`; then `parent` is its parent's id. */
    const isChild: bool
    const parent: string
    var inheritTags: bool
    /** A modelling device: parents have a smaller rank than their children (see `ContainerBuilder.ParentsAcyclic`). */
    ghost const rank: nat

    /** `new Definition($class, $arguments)`, with Symfony's defaults. */
    constructor (cls: Option<string>, arguments: PArray<Value>)
      ensures this.cls == cls && this.arguments == arguments
      ensures calls == [] && properties == [] && tags == [] && instanceof == []
      ensures shared && public && !isAbstract && !synthetic && !autowired
      ensures !isChild && !inheritTags
    {
      this.cls := cls;
      this.arguments := arguments;
      calls, properties, tags, instanceof := [], [], [], [];
      shared, public := true, true;
      isAbstract, synthetic, autowired := false, false, false;
      isChild, parent, inheritTags := false, "", false;
      rank := 0;
    }

    /** `new ChildDefinition($parent)`. */
    constructor Child(parent: string, ghost rank: nat)
      ensures this.parent == parent && this.rank == rank
      ensures cls == None && arguments == [] && calls == [] && properties == [] && tags == [] && instanceof == []
      ensures shared && public && !isAbstract && !synthetic && !autowired
      ensures isChild && !inheritTags
    {
      cls := None;
      arguments, calls, properties, tags, instanceof := [], [], [], [], [];
      shared, public := true, true;
      isAbstract, synthetic, autowired := false, false, false;
      isChild, this.parent, inheritTags := true, parent, false;
      this.rank := rank;
    }

    function CurrentConfig(): Config
      reads this
    {
      Config(cls, arguments, calls, properties, public, synthetic, autowired)
    }

    /** Writes back a configuration computed by `ResolveDefinitionTemplatesPass::mergeDefinition`. */
    method SetConfig(c: Config)
      modifies this`cls, this`arguments, this`calls, this`properties, this`public, this`synthetic, this`autowired
      ensures CurrentConfig() == c
    {
      cls, arguments, calls, properties := c.cls, c.arguments, c.calls, c.properties;
      public, synthetic, autowired := c.public, c.synthetic, c.autowired;
    }

    /** `addTag($name, $attributes)`. */
    method AddTag(name: string, attrs: Attributes)
      modifies this`tags
      ensures tags == WithTag(old(tags), name, attrs)
    {
      tags := WithTag(tags, name, attrs);
    }

    /** The nested `foreach ... addTag` loops that append every occurrence of `extra`. */
    method AddTags(extra: Tags)
      modifies this`tags
      ensures tags == WithTags(old(tags), extra)
    {
      var i := 0;
      while i < |extra|
        invariant 0 <= i <= |extra|
        invariant tags == WithTags(old(tags), extra[..i])
      {
        var name := extra[i].0;
        var list := extra[i].1;
        var j := 0;
        while j < |list|
          invariant 0 <= j <= |list|
          invariant tags == WithTagList(WithTags(old(tags), extra[..i]), name, list[..j])
        {
          AddTag(name, list[j]);
          PrefixSnoc(list, j);
          j := j + 1;
        }
        assert list[..j] == list;
        PrefixSnoc(extra, i);
        i := i + 1;
      }
      assert extra[..i] == extra;
    }
  }

  /** The `ContainerBuilder` the passes work on. */
  class ContainerBuilder {
    var defs: map<string, Definition>
    var log: seq<LogEntry>
    const reflection: Reflection
    /** `getParameterBag()->resolveValue` on a string. */
    const resolveValue: string -> string

    constructor (reflection: Reflection, resolveValue: string -> string)
      ensures defs == map[] && log == []
      ensures this.reflection == reflection && this.resolveValue == resolveValue
    {
      defs, log := map[], [];
      this.reflection, this.resolveValue := reflection, resolveValue;
    }

    /** The parent of `d`, when it is a child whose parent is registered, has a smaller rank. */
    ghost predicate ParentBelow(d: Definition)
      reads this
    {
      d.isChild && d.parent in defs ==> defs[d.parent].rank < d.rank
    }

    /** Every parent chain is finite: a child's parent (when present) has a smaller rank. */
    ghost predicate ParentsAcyclic()
      reads this
    {
      forall id | id in defs :: ParentBelow(defs[id])
    }

    /** `register($id, $class)`: a fresh definition, replacing any definition with that id. */
    method Register(id: string, cls: string) returns (d: Definition)
      modifies this`defs
      ensures fresh(d) && defs == old(defs)[id := d]
      ensures d.cls == Some(cls) && d.arguments == [] && d.calls == [] && d.properties == []
      ensures d.tags == [] && d.instanceof == []
      ensures d.shared && d.public && !d.isAbstract && !d.synthetic && !d.autowired && !d.isChild && !d.inheritTags
    {
      d := new Definition(Some(cls), []);
      defs := defs[id := d];
    }

    /** `log($pass, $message)`. */
    method Log(e: LogEntry)
      modifies this`log
      ensures log == old(log) + [e]
    {
      log := log + [e];
    }
  }
}
