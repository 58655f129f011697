/**
 * ResolveDefinitionInheritancePass: gives a child definition the class of its parent chain
 * and, when `inheritTags` is set, its parent's tags; then merges into a definition every
 * instanceof conditional whose interface its class implements, conditional tags first.
 */
module ResolveDefinitionInheritance {
  import opened PhpArrays
  import opened Services

  /** What merging an instanceof conditional rewrites on a definition. */
  datatype Target = Target(shared: bool, isAbstract: bool, tags: Tags, config: Config)

  function TargetOf(d: Definition): Target
    reads d
  {
    Target(d.shared, d.isAbstract, d.tags, d.CurrentConfig())
  }

  /**
   * Whether the conditional for `iface` is merged into a definition of class `cls`: both
   * classes must exist unless they are equal, and `cls` must be `iface` or a subclass of it.
   */
  predicate Matches(refl: Reflection, cls: string, iface: string) {
    !(iface != cls && (!refl.classExists(iface) || !refl.classExists(cls))) &&
    (iface == cls || refl.isSubclassOf(cls, iface))
  }

  /** The two conditions of the loop body collapse to one. */
  lemma MatchesIff(refl: Reflection, cls: string, iface: string)
    ensures Matches(refl, cls, iface) <==>
      iface == cls || (refl.classExists(iface) && refl.classExists(cls) && refl.isSubclassOf(cls, iface))
  {
  }

  /**
   * `mergeDefinition($def, $definition)`: `shared` and `abstract` are copied only when the
   * conditional changed them, the template merge rewrites the rest, and the conditional's
   * tags, when it has any, go before the definition's own.
   */
  function Merge(t: Target, cond: Conditional, templateMerge: (Config, Conditional) -> Config): (r: Target)
    ensures r.shared == if "shared" in cond.changes then cond.shared else t.shared
    ensures r.isAbstract == if "abstract" in cond.changes then cond.isAbstract else t.isAbstract
    ensures r.config == templateMerge(t.config, cond)
  {
    Target(
      if "shared" in cond.changes then cond.shared else t.shared,
      if "abstract" in cond.changes then cond.isAbstract else t.isAbstract,
      if cond.tags == [] then t.tags else WithTags(cond.tags, t.tags),
      templateMerge(t.config, cond))
  }

  /** Merging puts every occurrence of the conditional's tags before the definition's, and drops none. */
  lemma MergePrependsTags(t: Target, cond: Conditional, templateMerge: (Config, Conditional) -> Config)
    requires DistinctKeys(t.tags) && DistinctKeys(cond.tags)
    ensures forall n :: ListAt(Merge(t, cond, templateMerge).tags, n) == ListAt(cond.tags, n) + ListAt(t.tags, n)
    ensures cond.tags != [] ==> forall n :: n in Keys(Merge(t, cond, templateMerge).tags) <==>
      n in Keys(cond.tags) || ListAt(t.tags, n) != []
    ensures DistinctKeys(Merge(t, cond, templateMerge).tags)
  {
    if cond.tags != [] {
      WithTagsAppends(cond.tags, t.tags);
    }
  }

  /** The `foreach ($instanceof as $interface => $definition)` loop, over a prefix of the conditionals. */
  function ApplyConditionals(t: Target, conds: OMap<string, Conditional>, cls: string, refl: Reflection,
                             templateMerge: (Config, Conditional) -> Config): Target
  {
    if conds == [] then t
    else
      var prev := ApplyConditionals(t, conds[..|conds| - 1], cls, refl, templateMerge);
      var last := conds[|conds| - 1];
      if Matches(refl, cls, last.0) then Merge(prev, last.1, templateMerge) else prev
  }

  /** The tag occurrences the matching conditionals contribute to `n`, the last conditional's first. */
  function ConditionalTags(conds: OMap<string, Conditional>, n: string, cls: string, refl: Reflection): seq<Attributes>
  {
    if conds == [] then []
    else
      var last := conds[|conds| - 1];
      (if Matches(refl, cls, last.0) then ListAt(last.1.tags, n) else []) +
      ConditionalTags(conds[..|conds| - 1], n, cls, refl)
  }

  /**
   * After the loop each tag name lists the matching conditionals' occurrences (later
   * conditionals first), then the definition's own; nothing is lost or reordered otherwise.
   */
  lemma {:induction false} ApplyConditionalsTags(t: Target, conds: OMap<string, Conditional>, cls: string, refl: Reflection,
                                                 templateMerge: (Config, Conditional) -> Config)
    requires DistinctKeys(t.tags) && forall i :: 0 <= i < |conds| ==> DistinctKeys(conds[i].1.tags)
    ensures DistinctKeys(ApplyConditionals(t, conds, cls, refl, templateMerge).tags)
    ensures forall n ::
      ListAt(ApplyConditionals(t, conds, cls, refl, templateMerge).tags, n) == ConditionalTags(conds, n, cls, refl) + ListAt(t.tags, n)
    decreases |conds|
  {
    if conds != [] {
      var init := conds[..|conds| - 1];
      var last := conds[|conds| - 1];
      ApplyConditionalsTags(t, init, cls, refl, templateMerge);
      var prev := ApplyConditionals(t, init, cls, refl, templateMerge);
      if Matches(refl, cls, last.0) {
        MergePrependsTags(prev, last.1, templateMerge);
      }
    }
  }

  /** No matching conditional changes `shared` or `abstract`: the definition keeps its own. */
  lemma {:induction false} UnchangedFlagsAreKept(t: Target, conds: OMap<string, Conditional>, cls: string, refl: Reflection,
                                                 templateMerge: (Config, Conditional) -> Config)
    requires forall i :: 0 <= i < |conds| && Matches(refl, cls, conds[i].0) ==> "shared" !in conds[i].1.changes
    ensures ApplyConditionals(t, conds, cls, refl, templateMerge).shared == t.shared
    decreases |conds|
  {
    if conds != [] {
      var init := conds[..|conds| - 1];
      assert forall i :: 0 <= i < |init| ==> init[i] == conds[i];
      UnchangedFlagsAreKept(t, init, cls, refl, templateMerge);
    }
  }

  /** `shared` comes from the last matching conditional that changed it. */
  lemma {:induction false} LastSharedChangeWins(t: Target, conds: OMap<string, Conditional>, cls: string, refl: Reflection,
                                                templateMerge: (Config, Conditional) -> Config, i: nat)
    requires i < |conds| && Matches(refl, cls, conds[i].0) && "shared" in conds[i].1.changes
    requires forall k :: i < k < |conds| && Matches(refl, cls, conds[k].0) ==> "shared" !in conds[k].1.changes
    ensures ApplyConditionals(t, conds, cls, refl, templateMerge).shared == conds[i].1.shared
    decreases |conds|
  {
    var init := conds[..|conds| - 1];
    if i < |conds| - 1 {
      assert forall k :: 0 <= k < |init| ==> init[k] == conds[k];
      LastSharedChangeWins(t, init, cls, refl, templateMerge, i);
    }
  }

  /** `abstract` comes from the last matching conditional that changed it. */
  lemma {:induction false} LastAbstractChangeWins(t: Target, conds: OMap<string, Conditional>, cls: string, refl: Reflection,
                                                  templateMerge: (Config, Conditional) -> Config, i: nat)
    requires i < |conds| && Matches(refl, cls, conds[i].0) && "abstract" in conds[i].1.changes
    requires forall k :: i < k < |conds| && Matches(refl, cls, conds[k].0) ==> "abstract" !in conds[k].1.changes
    ensures ApplyConditionals(t, conds, cls, refl, templateMerge).isAbstract == conds[i].1.isAbstract
    decreases |conds|
  {
    var init := conds[..|conds| - 1];
    if i < |conds| - 1 {
      assert forall k :: 0 <= k < |init| ==> init[k] == conds[k];
      LastAbstractChangeWins(t, init, cls, refl, templateMerge, i);
    }
  }

  /** Conditionals for interfaces the class does not implement change nothing. */
  lemma {:induction false} NoMatchNoChange(t: Target, conds: OMap<string, Conditional>, cls: string, refl: Reflection,
                                           templateMerge: (Config, Conditional) -> Config)
    requires forall i :: 0 <= i < |conds| ==> !Matches(refl, cls, conds[i].0)
    ensures ApplyConditionals(t, conds, cls, refl, templateMerge) == t
    decreases |conds|
  {
    if conds != [] {
      var init := conds[..|conds| - 1];
      assert forall i :: 0 <= i < |init| ==> init[i] == conds[i];
      NoMatchNoChange(t, init, cls, refl, templateMerge);
    }
  }

  /** Whether `processValue` goes on to the conditionals: a truthy class without `%`, and some conditionals. */
  predicate HasConditionalsToApply(cls: Option<string>, instanceof: OMap<string, Conditional>) {
    TruthyClass(cls) && '%' !in cls.value && instanceof != []
  }

  /** The pass, with the container it runs on and the template merge it delegates to. */
  class ResolveDefinitionInheritancePass {
    const container: ContainerBuilder
    /** `ResolveDefinitionTemplatesPass::mergeDefinition`, which is not part of this model. */
    const templateMerge: (Config, Conditional) -> Config

    constructor (container: ContainerBuilder, templateMerge: (Config, Conditional) -> Config)
      ensures this.container == container && this.templateMerge == templateMerge
    {
      this.container := container;
      this.templateMerge := templateMerge;
    }

    /** The definitions above `d` on its parent chain. */
    ghost function Chain(d: Definition): (r: set<Definition>)
      requires container.ParentsAcyclic() && container.ParentBelow(d)
      reads container
      ensures forall x :: x in r ==> x in container.defs.Values && x.rank < d.rank && container.ParentBelow(x) && Chain(x) <= r
      decreases d.rank
    {
      if d.isChild && d.parent in container.defs then
        var p := container.defs[d.parent];
        {p} + Chain(p)
      else {}
    }

    /**
     * The class `resolveDefinition` returns: nothing when the parent is not registered,
     * otherwise the child's own class when truthy, else the parent's (resolved) class.
     */
    ghost function ResolvedClass(d: Definition): (r: Option<string>)
      requires container.ParentsAcyclic() && container.ParentBelow(d) && d.isChild
      reads container, {d} + Chain(d)
      ensures d.parent !in container.defs ==> r == None
      ensures d.parent in container.defs && TruthyClass(d.cls) ==> r == d.cls
      ensures r.Some? ==> r == d.cls || exists x :: x in Chain(d) && r == x.cls
      decreases d.rank
    {
      if d.parent !in container.defs then None
      else
        var p := container.defs[d.parent];
        var inherited := if p.isChild then ResolvedClass(p) else p.cls;
        if TruthyClass(d.cls) then d.cls else inherited
    }

    /**
     * The tags `resolveDefinition` leaves on `d`: when `inheritTags` is set and the parent
     * is registered, the parent's (resolved) tags are appended to the child's.
     */
    ghost function NewTags(d: Definition): Tags
      requires container.ParentsAcyclic() && container.ParentBelow(d)
      reads container, {d} + Chain(d)
      decreases d.rank
    {
      if d.isChild && d.parent in container.defs && d.inheritTags then
        WithTags(d.tags, NewTags(container.defs[d.parent]))
      else d.tags
    }

    /** Tag lists of every definition on the chain keep one entry per name. */
    ghost predicate ChainTagsDistinct(d: Definition)
      requires container.ParentsAcyclic() && container.ParentBelow(d)
      reads container, {d} + Chain(d)
    {
      forall x :: x in {d} + Chain(d) ==> DistinctKeys(x.tags)
    }

    /**
     * With `inheritTags`, each tag name of the child lists the child's own occurrences,
     * then all of the parent's; no occurrence is dropped or merged.
     */
    lemma {:induction false} InheritedTagsFollowOwn(d: Definition)
      requires container.ParentsAcyclic() && container.ParentBelow(d) && ChainTagsDistinct(d)
      ensures DistinctKeys(NewTags(d))
      ensures d.isChild && d.parent in container.defs && d.inheritTags ==>
        forall n :: ListAt(NewTags(d), n) == ListAt(d.tags, n) + ListAt(NewTags(container.defs[d.parent]), n)
      decreases d.rank
    {
      if d.isChild && d.parent in container.defs {
        var p := container.defs[d.parent];
        InheritedTagsFollowOwn(p);
        if d.inheritTags {
          WithTagsAppends(d.tags, NewTags(p));
        }
      }
    }

    /**
     * `resolveDefinition($definition)`: returns the chain's class and appends inherited
     * tags on the way back down, switching `inheritTags` off where it did so.
     */
    method ResolveDefinition(d: Definition) returns (cls: Option<string>)
      requires container.ParentsAcyclic() && container.ParentBelow(d) && d.isChild
      modifies ({d} + Chain(d))`tags, ({d} + Chain(d))`inheritTags
      ensures cls == old(ResolvedClass(d))
      ensures d.tags == old(NewTags(d))
      ensures d.inheritTags == (old(d.inheritTags) && d.parent !in container.defs)
      ensures forall x :: x in old(Chain(d)) ==>
        x.tags == old(NewTags(x)) &&
        x.inheritTags == (old(x.inheritTags) && !(x.isChild && x.parent in container.defs))
      decreases d.rank
    {
      if d.parent !in container.defs {
        return None;
      }
      var parentDef := container.defs[d.parent];
      var inherited: Option<string>;
      if parentDef.isChild {
        inherited := ResolveDefinition(parentDef);
      } else {
        inherited := parentDef.cls;
      }
      cls := if TruthyClass(d.cls) then d.cls else inherited;
      InheritTags(d, parentDef.tags);
    }

    /** The tail of `resolveDefinition`: the parent's tags appended once, then `inheritTags` off. */
    method InheritTags(d: Definition, parentTags: Tags)
      modifies d`tags, d`inheritTags
      ensures d.tags == (if old(d.inheritTags) then WithTags(old(d.tags), parentTags) else old(d.tags))
      ensures !d.inheritTags
    {
      if d.inheritTags {
        d.inheritTags := false;
        d.AddTags(parentTags);
      }
    }

    /** The class `resolveDefinition` returns depends on the classes along the chain and nothing else. */
    twostate lemma {:induction false} ResolvedClassReadsOnlyClasses(d: Definition)
      requires unchanged(container)
      requires old(container.ParentsAcyclic() && container.ParentBelow(d)) && d.isChild
      requires forall x :: x in old({d} + Chain(d)) ==> x.cls == old(x.cls)
      ensures container.ParentsAcyclic() && container.ParentBelow(d)
      ensures ResolvedClass(d) == old(ResolvedClass(d))
      decreases d.rank
    {
      if d.parent in container.defs {
        var p := container.defs[d.parent];
        if p.isChild {
          ResolvedClassReadsOnlyClasses(p);
        }
      }
    }

    /** The class `processValue` works with, and the state the conditionals are merged into. */
    ghost function StartClass(d: Definition): Option<string>
      requires container.ParentsAcyclic() && container.ParentBelow(d)
      reads container, {d} + Chain(d)
    {
      if d.isChild then ResolvedClass(d) else d.cls
    }

    ghost function StartTarget(d: Definition): Target
      requires container.ParentsAcyclic() && container.ParentBelow(d)
      reads container, {d} + Chain(d)
    {
      Target(d.shared, d.isAbstract, NewTags(d), d.CurrentConfig())
    }

    /**
     * Nothing is left for `processValue` to do on `d`: no definition of its chain still has
     * tags to inherit from a registered parent, and it has no conditionals to apply.
     */
    ghost predicate Settled(d: Definition)
      requires container.ParentsAcyclic() && container.ParentBelow(d)
      reads container, {d} + Chain(d)
    {
      (forall x :: x in {d} + Chain(d) ==> !(x.isChild && x.parent in container.defs && x.inheritTags)) &&
      !HasConditionalsToApply(StartClass(d), d.instanceof)
    }

    /** On a settled chain, `resolveDefinition` appends nothing. */
    lemma SettledTagsAreFinal(d: Definition)
      requires container.ParentsAcyclic() && container.ParentBelow(d) && Settled(d)
      ensures forall x :: x in {d} + Chain(d) ==> NewTags(x) == x.tags
    {
      forall x | x in {d} + Chain(d)
        ensures NewTags(x) == x.tags
      {
        assert !(x.isChild && x.parent in container.defs && x.inheritTags);
      }
    }

    /** `mergeDefinition($def, $definition)` on the definition itself. */
    method MergeDefinition(d: Definition, cond: Conditional)
      modifies d
      ensures TargetOf(d) == Merge(old(TargetOf(d)), cond, templateMerge)
      ensures d.instanceof == old(d.instanceof) && d.inheritTags == old(d.inheritTags)
    {
      if "shared" in cond.changes {
        d.shared := cond.shared;
      }
      if "abstract" in cond.changes {
        d.isAbstract := cond.isAbstract;
      }
      d.SetConfig(templateMerge(d.CurrentConfig(), cond));
      var tailTags := d.tags;
      if cond.tags != [] {
        d.tags := cond.tags;
        d.AddTags(tailTags);
      }
    }

    /** The loop over the conditionals, once the definition's own list is cleared. */
    method MergeConditionals(d: Definition, cls: string, instanceof: OMap<string, Conditional>)
      modifies d
      ensures TargetOf(d) == ApplyConditionals(old(TargetOf(d)), instanceof, cls, container.reflection, templateMerge)
      ensures d.instanceof == old(d.instanceof) && d.inheritTags == old(d.inheritTags)
    {
      var refl := container.reflection;
      var i := 0;
      while i < |instanceof|
        invariant 0 <= i <= |instanceof|
        invariant TargetOf(d) == ApplyConditionals(old(TargetOf(d)), instanceof[..i], cls, refl, templateMerge)
        invariant d.instanceof == old(d.instanceof) && d.inheritTags == old(d.inheritTags)
      {
        var iface := instanceof[i].0;
        PrefixSnoc(instanceof, i);
        if iface != cls && (!refl.classExists(iface) || !refl.classExists(cls)) {
        } else if iface == cls || refl.isSubclassOf(cls, iface) {
          MergeDefinition(d, instanceof[i].1);
        }
        i := i + 1;
      }
      assert instanceof[..i] == instanceof;
    }

    /**
     * The first line of `processValue`: the class of a child comes from `resolveDefinition`,
     * which also settles the inherited tags along the chain; other definitions keep theirs.
     */
    method ResolveStart(d: Definition) returns (cls: Option<string>)
      requires container.ParentsAcyclic() && container.ParentBelow(d)
      modifies ({d} + Chain(d))`tags, ({d} + Chain(d))`inheritTags
      ensures cls == old(StartClass(d)) && cls == StartClass(d)
      ensures TargetOf(d) == old(StartTarget(d)) && d.instanceof == old(d.instanceof)
      ensures d.inheritTags == (old(d.inheritTags) && !(d.isChild && d.parent in container.defs))
      ensures forall x :: x in old(Chain(d)) ==>
        x.tags == old(NewTags(x)) &&
        x.inheritTags == (old(x.inheritTags) && !(x.isChild && x.parent in container.defs))
      ensures forall x :: x in {d} + Chain(d) ==> !(x.isChild && x.parent in container.defs && x.inheritTags)
    {
      if d.isChild {
        cls := ResolveDefinition(d);
        ResolvedClassReadsOnlyClasses(d);
      } else {
        cls := d.cls;
      }
    }

    /**
     * `processValue` on a definition: resolves a child's parent chain, then, for a usable
     * class with conditionals, clears them and merges each one that applies. The result is
     * `Settled`, and a settled definition is left exactly as it is, so a second run changes
     * nothing.
     */
    method ProcessDefinition(d: Definition)
      requires container.ParentsAcyclic() && container.ParentBelow(d)
      modifies d, Chain(d)`tags, Chain(d)`inheritTags
      ensures var cls := old(StartClass(d));
        if HasConditionalsToApply(cls, old(d.instanceof)) then
          d.instanceof == [] &&
          TargetOf(d) == ApplyConditionals(old(StartTarget(d)), old(d.instanceof), cls.value, container.reflection, templateMerge)
        else
          d.instanceof == old(d.instanceof) && TargetOf(d) == old(StartTarget(d))
      ensures d.inheritTags == (old(d.inheritTags) && !(d.isChild && d.parent in container.defs))
      ensures forall x :: x in old(Chain(d)) ==>
        x.tags == old(NewTags(x)) &&
        x.inheritTags == (old(x.inheritTags) && !(x.isChild && x.parent in container.defs))
      ensures Settled(d)
      ensures old(Settled(d)) ==>
        TargetOf(d) == old(TargetOf(d)) && d.instanceof == old(d.instanceof) && d.inheritTags == old(d.inheritTags) &&
        forall x :: x in old(Chain(d)) ==> x.tags == old(x.tags) && x.inheritTags == old(x.inheritTags)
    {
      ghost var wasSettled := Settled(d);
      if wasSettled {
        SettledTagsAreFinal(d);
      }
      var cls := ResolveStart(d);
      var instanceof := d.instanceof;
      if !TruthyClass(cls) || '%' in cls.value || instanceof == [] {
        return;
      }
      d.instanceof := [];
      MergeConditionals(d, cls.value, instanceof);
    }

    /** Running the pass twice on a definition leaves it exactly as one run does. */
    method ProcessDefinitionTwice(d: Definition)
      requires container.ParentsAcyclic() && container.ParentBelow(d)
      modifies d, Chain(d)`tags, Chain(d)`inheritTags
      ensures var cls := old(StartClass(d));
        if HasConditionalsToApply(cls, old(d.instanceof)) then
          d.instanceof == [] &&
          TargetOf(d) == ApplyConditionals(old(StartTarget(d)), old(d.instanceof), cls.value, container.reflection, templateMerge)
        else
          d.instanceof == old(d.instanceof) && TargetOf(d) == old(StartTarget(d))
      ensures d.inheritTags == (old(d.inheritTags) && !(d.isChild && d.parent in container.defs))
      ensures forall x :: x in old(Chain(d)) ==>
        x.tags == old(NewTags(x)) &&
        x.inheritTags == (old(x.inheritTags) && !(x.isChild && x.parent in container.defs))
    {
      ProcessDefinition(d);
      ProcessDefinition(d);
    }
  }
}
