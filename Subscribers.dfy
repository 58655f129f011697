/**
 * RegisterServiceSubscribersPass: for each definition tagged `container.service_subscriber`,
 * builds the map of services its class subscribes to, registers a private service locator
 * holding them, and makes the definition's references to `container` point at that locator.
 */
module RegisterServiceSubscribers {
  import opened PhpArrays
  import opened Services

  const SubscriberTag := "container.service_subscriber"
  const LocatorTag := "container.service_locator"
  const SubscriberInterface := "Symfony\\Component\\DependencyInjection\\ServiceSubscriberInterface"
  const ServiceLocatorClass := "Symfony\\Component\\DependencyInjection\\ServiceLocator"

  // ----- Rewriting references to `container` -----

  /**
   * `processValue` on a value while `$this->serviceLocator` is `loc`: a `Reference` or
   * `TypedReference` to `container` becomes a plain `Reference` to the locator; arrays are
   * rewritten entry by entry (keys and order kept) and service closures inside; everything
   * else is kept.
   */
  function RewriteValue(v: Value, loc: Option<string>): Value {
    match v
    case Scalar(_) => v
    case Ref(id, _) => if loc.Some? && Truthy(loc.value) && id == "container" then Ref(loc.value, ExceptionOnInvalidReference) else v
    case TypedRef(id, _, _) => if loc.Some? && Truthy(loc.value) && id == "container" then Ref(loc.value, ExceptionOnInvalidReference) else v
    case ArrayValue(items) =>
      ArrayValue(seq(|items|, i requires 0 <= i < |items| => (items[i].0, RewriteValue(items[i].1, loc))))
    case ServiceClosure(target) => ServiceClosure(RewriteValue(target, loc))
  }

  /** `processValue` on a PHP array of values: every value rewritten, keys and order kept. */
  function RewriteItems(items: PArray<Value>, loc: Option<string>): (r: PArray<Value>)
    ensures |r| == |items|
    ensures forall i :: 0 <= i < |items| ==> r[i] == (items[i].0, RewriteValue(items[i].1, loc))
  {
    RewriteValue(ArrayValue(items), loc).items
  }

  /** The method calls of a definition, each call's arguments rewritten. */
  function RewriteCalls(calls: seq<Call>, loc: Option<string>): (r: seq<Call>)
    ensures |r| == |calls|
    ensures forall i :: 0 <= i < |calls| ==> r[i] == Call(calls[i].name, RewriteItems(calls[i].args, loc))
  {
    seq(|calls|, i requires 0 <= i < |calls| => Call(calls[i].name, RewriteItems(calls[i].args, loc)))
  }

  /** A value holds no `Reference` or `TypedReference` to `container`. */
  predicate NoContainerRef(v: Value) {
    match v
    case Scalar(_) => true
    case Ref(id, _) => id != "container"
    case TypedRef(id, _, _) => id != "container"
    case ArrayValue(items) => forall i :: 0 <= i < |items| ==> NoContainerRef(items[i].1)
    case ServiceClosure(target) => NoContainerRef(target)
  }

  /** Under a locator, no reference to `container` survives the rewrite. */
  lemma {:induction false} RewriteRemovesContainerRefs(v: Value, loc: string)
    requires Truthy(loc) && loc != "container"
    ensures NoContainerRef(RewriteValue(v, Some(loc)))
  {
    match v
    case Scalar(_) =>
    case Ref(_, _) =>
    case TypedRef(_, _, _) =>
    case ArrayValue(items) =>
      forall i | 0 <= i < |items| ensures NoContainerRef(RewriteValue(items[i].1, Some(loc))) {
        RewriteRemovesContainerRefs(items[i].1, loc);
      }
    case ServiceClosure(target) => RewriteRemovesContainerRefs(target, loc);
  }

  /** Outside a subscriber (no locator), and on values without `container` references, nothing changes. */
  lemma {:induction false} RewriteIsIdentityWithoutTarget(v: Value, loc: Option<string>)
    requires loc.None? || NoContainerRef(v)
    ensures RewriteValue(v, loc) == v
  {
    match v
    case Scalar(_) =>
    case Ref(_, _) =>
    case TypedRef(_, _, _) =>
    case ArrayValue(items) =>
      forall i | 0 <= i < |items| ensures RewriteValue(items[i].1, loc) == items[i].1 {
        RewriteIsIdentityWithoutTarget(items[i].1, loc);
      }
      assert RewriteValue(v, loc).items == items;
    case ServiceClosure(target) => RewriteIsIdentityWithoutTarget(target, loc);
  }

  // ----- The `container.service_subscriber` tags -----

  /** The tag's attributes use no key other than `id` and `key`. */
  predicate OnlyIdAndKey(attrs: Attributes) {
    forall i :: 0 <= i < |attrs| ==> attrs[i].0 == StrKey("id") || attrs[i].0 == StrKey("key")
  }

  /**
   * One occurrence of the tag: skipped when empty, else the (key, id) pair it declares
   * (`key` defaulting to `id`), or the exception for a stray attribute or a missing `id`.
   */
  function TagEntry(serviceId: string, attrs: Attributes): (r: Result<Option<(string, string)>, Error>)
    ensures r.Ok? && r.value.Some? <==> attrs != [] && OnlyIdAndKey(attrs) && StrKey("id") in Keys(attrs)
    ensures r == Ok(None) <==> attrs == []
    ensures r.Ok? && r.value.Some? ==> (StrKey("id"), r.value.value.1) in attrs
    ensures r.Ok? && r.value.Some? && StrKey("key") in Keys(attrs) ==> (StrKey("key"), r.value.value.0) in attrs
    ensures r.Ok? && r.value.Some? && StrKey("key") !in Keys(attrs) ==> r.value.value.0 == r.value.value.1
    ensures r.Err? && r.error.InvalidTagAttributes? <==> attrs != [] && !OnlyIdAndKey(attrs)
    ensures r.Err? && r.error.MissingIdAttribute? <==> attrs != [] && OnlyIdAndKey(attrs) && StrKey("id") !in Keys(attrs)
    ensures r.Err? ==> r.error.InvalidTagAttributes? || r.error.MissingIdAttribute?
    ensures r.Err? ==> r.error.serviceId == serviceId
  {
    if attrs == [] then Ok(None)
    else if !OnlyIdAndKey(attrs) then Err(InvalidTagAttributes(serviceId, Keys(attrs)))
    else if StrKey("id") !in Keys(attrs) then
      assert Keys(attrs)[0] == StrKey("key");
      Err(MissingIdAttribute(serviceId, Get(attrs, StrKey("key"))))
    else
      var id := Get(attrs, StrKey("id"));
      Ok(Some((if StrKey("key") in Keys(attrs) then Get(attrs, StrKey("key")) else id, id)))
  }

  /** `$serviceMap` after the loop over the tag's occurrences: the first occurrence of a key wins. */
  function ServiceMapOf(serviceId: string, occurrences: seq<Attributes>): (r: Result<OMap<string, string>, Error>)
    ensures r.Ok? ==> DistinctKeys(r.value)
    decreases |occurrences|
  {
    if occurrences == [] then Ok([])
    else
      var prev := ServiceMapOf(serviceId, occurrences[..|occurrences| - 1]);
      if prev.Err? then prev
      else
        match TagEntry(serviceId, occurrences[|occurrences| - 1])
        case Err(e) => Err(e)
        case Ok(None) => prev
        case Ok(Some((key, id))) =>
          if key in Keys(prev.value) then prev else Ok(Put(prev.value, key, id))
  }

  lemma ServiceMapSnoc(serviceId: string, occurrences: seq<Attributes>, i: nat)
    requires i < |occurrences|
    ensures ServiceMapOf(serviceId, occurrences[..i + 1]) ==
      var prev := ServiceMapOf(serviceId, occurrences[..i]);
      if prev.Err? then prev
      else match TagEntry(serviceId, occurrences[i])
        case Err(e) => Err(e)
        case Ok(None) => prev
        case Ok(Some((key, id))) => if key in Keys(prev.value) then prev else Ok(Put(prev.value, key, id))
  {
    PrefixSnoc(occurrences, i);
  }

  lemma {:induction false} ServiceMapErrorPersists(serviceId: string, occurrences: seq<Attributes>, i: nat)
    requires i <= |occurrences| && ServiceMapOf(serviceId, occurrences[..i]).Err?
    ensures ServiceMapOf(serviceId, occurrences) == ServiceMapOf(serviceId, occurrences[..i])
    decreases |occurrences| - i
  {
    if i < |occurrences| {
      ServiceMapSnoc(serviceId, occurrences, i);
      ServiceMapErrorPersists(serviceId, occurrences, i + 1);
    } else {
      assert occurrences[..i] == occurrences;
    }
  }

  /** Whether an occurrence of the tag declares key `k`. */
  predicate Declares(serviceId: string, attrs: Attributes, k: string) {
    var e := TagEntry(serviceId, attrs);
    e.Ok? && e.value.Some? && e.value.value.0 == k
  }

  /** Occurrence `j` declares a key that no earlier occurrence declares. */
  predicate IsFirstDeclaration(serviceId: string, occurrences: seq<Attributes>, j: int) {
    0 <= j < |occurrences| &&
    var e := TagEntry(serviceId, occurrences[j]);
    e.Ok? && e.value.Some? && forall i :: 0 <= i < j ==> !Declares(serviceId, occurrences[i], e.value.value.0)
  }

  /** The tag's occurrences are accepted exactly when each one is. */
  lemma {:induction false} ServiceMapOkIff(serviceId: string, occurrences: seq<Attributes>)
    ensures ServiceMapOf(serviceId, occurrences).Ok? <==>
      forall j :: 0 <= j < |occurrences| ==> TagEntry(serviceId, occurrences[j]).Ok?
    decreases |occurrences|
  {
    if occurrences != [] {
      var init := occurrences[..|occurrences| - 1];
      ServiceMapOkIff(serviceId, init);
      assert forall j :: 0 <= j < |init| ==> init[j] == occurrences[j];
    }
  }

  /** The exception thrown is that of the first rejected occurrence. */
  lemma ServiceMapFailsAtFirstBadTag(serviceId: string, occurrences: seq<Attributes>, i: nat)
    requires i < |occurrences| && TagEntry(serviceId, occurrences[i]).Err?
    requires forall j :: 0 <= j < i ==> TagEntry(serviceId, occurrences[j]).Ok?
    ensures ServiceMapOf(serviceId, occurrences) == Err(TagEntry(serviceId, occurrences[i]).error)
  {
    var init := occurrences[..i];
    assert forall j :: 0 <= j < |init| ==> init[j] == occurrences[j];
    ServiceMapOkIff(serviceId, init);
    ServiceMapSnoc(serviceId, occurrences, i);
    ServiceMapErrorPersists(serviceId, occurrences, i + 1);
  }

  /** The keys the tag's occurrences declare. */
  function DeclaredKeys(serviceId: string, occurrences: seq<Attributes>): set<string>
    decreases |occurrences|
  {
    if occurrences == [] then {}
    else
      var e := TagEntry(serviceId, occurrences[|occurrences| - 1]);
      DeclaredKeys(serviceId, occurrences[..|occurrences| - 1]) + (if e.Ok? && e.value.Some? then {e.value.value.0} else {})
  }

  /** A key is declared exactly when some occurrence declares it. */
  lemma {:induction false} DeclaredKeysAt(serviceId: string, occurrences: seq<Attributes>)
    ensures forall k :: k in DeclaredKeys(serviceId, occurrences) <==>
      exists j :: 0 <= j < |occurrences| && Declares(serviceId, occurrences[j], k)
    decreases |occurrences|
  {
    if occurrences != [] {
      var init := occurrences[..|occurrences| - 1];
      DeclaredKeysAt(serviceId, init);
      assert forall j :: 0 <= j < |init| ==> init[j] == occurrences[j];
    }
  }

  /**
   * The service map holds exactly the declared keys, each mapped to the id of the first
   * occurrence that declares it.
   */
  lemma FirstOccurrenceWins(serviceId: string, occurrences: seq<Attributes>)
    requires ServiceMapOf(serviceId, occurrences).Ok?
    ensures var sm := ServiceMapOf(serviceId, occurrences).value;
      forall k :: k in Keys(sm) <==> exists j :: 0 <= j < |occurrences| && Declares(serviceId, occurrences[j], k)
    ensures var sm := ServiceMapOf(serviceId, occurrences).value;
      forall j :: IsFirstDeclaration(serviceId, occurrences, j) ==>
        var e := TagEntry(serviceId, occurrences[j]).value.value;
        e.0 in Keys(sm) && Get(sm, e.0) == e.1
  {
    ServiceMapKeys(serviceId, occurrences);
    DeclaredKeysAt(serviceId, occurrences);
    ServiceMapValues(serviceId, occurrences);
  }

  /** The service map's keys are the declared keys. */
  lemma {:induction false} ServiceMapKeys(serviceId: string, occurrences: seq<Attributes>)
    requires ServiceMapOf(serviceId, occurrences).Ok?
    ensures forall k :: k in Keys(ServiceMapOf(serviceId, occurrences).value) <==> k in DeclaredKeys(serviceId, occurrences)
    decreases |occurrences|
  {
    if occurrences != [] {
      ServiceMapKeys(serviceId, occurrences[..|occurrences| - 1]);
    }
  }

  /** Each first declaration's id is what the service map holds for its key. */
  lemma {:induction false} ServiceMapValues(serviceId: string, occurrences: seq<Attributes>)
    requires ServiceMapOf(serviceId, occurrences).Ok?
    ensures var sm := ServiceMapOf(serviceId, occurrences).value;
      forall j :: IsFirstDeclaration(serviceId, occurrences, j) ==>
        var e := TagEntry(serviceId, occurrences[j]).value.value;
        e.0 in Keys(sm) && Get(sm, e.0) == e.1
    decreases |occurrences|
  {
    if occurrences != [] {
      var n := |occurrences| - 1;
      ServiceMapValues(serviceId, occurrences[..n]);
      ServiceMapKeys(serviceId, occurrences[..n]);
      DeclaredKeysAt(serviceId, occurrences[..n]);
      InitLast(occurrences);
      ServiceMapValuesStep(serviceId, occurrences, occurrences[..n], occurrences[n]);
    }
  }

  /** The service map after one more occurrence: its key is added unless already present. */
  lemma ServiceMapLast(serviceId: string, occurrences: seq<Attributes>, init: seq<Attributes>, last: Attributes)
    requires occurrences == init + [last] && ServiceMapOf(serviceId, occurrences).Ok?
    ensures ServiceMapOf(serviceId, init).Ok? && TagEntry(serviceId, last).Ok?
    ensures var e := TagEntry(serviceId, last).value;
      var sm0 := ServiceMapOf(serviceId, init).value;
      ServiceMapOf(serviceId, occurrences).value ==
        if e.Some? && e.value.0 !in Keys(sm0) then Put(sm0, e.value.0, e.value.1) else sm0
  {
    SnocPrefix(init, last);
  }

  /** One more occurrence, given what `ServiceMapValues` says of the ones before it. */
  lemma ServiceMapValuesStep(serviceId: string, occurrences: seq<Attributes>, init: seq<Attributes>, last: Attributes)
    requires occurrences == init + [last] && ServiceMapOf(serviceId, occurrences).Ok?
    requires ServiceMapOf(serviceId, init).Ok?
    requires forall k :: k in Keys(ServiceMapOf(serviceId, init).value) ==>
      exists j :: 0 <= j < |init| && Declares(serviceId, init[j], k)
    requires var sm := ServiceMapOf(serviceId, init).value;
      forall j :: IsFirstDeclaration(serviceId, init, j) ==>
        var e := TagEntry(serviceId, init[j]).value.value;
        e.0 in Keys(sm) && Get(sm, e.0) == e.1
    ensures var sm := ServiceMapOf(serviceId, occurrences).value;
      forall j :: IsFirstDeclaration(serviceId, occurrences, j) ==>
        var e := TagEntry(serviceId, occurrences[j]).value.value;
        e.0 in Keys(sm) && Get(sm, e.0) == e.1
  {
    var n := |init|;
    ServiceMapLast(serviceId, occurrences, init, last);
    var sm0 := ServiceMapOf(serviceId, init).value;
    var sm := ServiceMapOf(serviceId, occurrences).value;
    forall j | IsFirstDeclaration(serviceId, occurrences, j)
      ensures var e := TagEntry(serviceId, occurrences[j]).value.value;
        e.0 in Keys(sm) && Get(sm, e.0) == e.1
    {
      var e := TagEntry(serviceId, occurrences[j]).value.value;
      if j < n {
        assert occurrences[j] == init[j];
        assert IsFirstDeclaration(serviceId, init, j) by {
          forall i | 0 <= i < j ensures !Declares(serviceId, init[i], e.0) {
            assert occurrences[i] == init[i];
          }
        }
      } else {
        assert occurrences[j] == last;
        assert e.0 !in Keys(sm0) by {
          forall i | 0 <= i < n ensures !Declares(serviceId, init[i], e.0) {
            assert occurrences[i] == init[i];
          }
        }
      }
    }
  }

  // ----- The subscribed services -----

  /**
   * The pattern works on the UTF-8 bytes of the string: a byte in `\x7f-\xff` is DEL or part of
   * the encoding of a non-ASCII character, so on characters the class is `a-zA-Z_` and every
   * character from U+007F on.
   */
  predicate IsNameStart(c: char) {
    ('a' <= c <= 'z') || ('A' <= c <= 'Z') || c == '_' || '\U{7f}' <= c
  }

  predicate IsNameChar(c: char) {
    IsNameStart(c) || ('0' <= c <= '9')
  }

  /** `[a-zA-Z_\x7f-\xff][a-zA-Z0-9_\x7f-\xff]*` */
  predicate IsName(s: string) {
    |s| > 0 && IsNameStart(s[0]) && forall i :: 1 <= i < |s| ==> IsNameChar(s[i])
  }

  /** The pieces of `s` between backslashes. */
  function Segments(s: string): (r: seq<string>)
    ensures |r| > 0
    decreases |s|
  {
    if s == [] then [""]
    else
      var rest := Segments(s[1..]);
      if s[0] == '\\' then [""] + rest else [[s[0]] + rest[0]] + rest[1..]
  }

  /** A namespaced class name: names separated by single backslashes. */
  predicate IsQualifiedName(s: string) {
    forall seg :: seg in Segments(s) ==> IsName(seg)
  }

  /** The type pattern without its anchors: an optional `?`, then a qualified name. */
  predicate IsTypeSyntax(t: string) {
    if |t| > 0 && t[0] == '?' then IsQualifiedName(t[1..]) else IsQualifiedName(t)
  }

  /**
   * What `preg_match` accepts: PCRE's `$` without the D modifier also matches before a
   * final newline, so a trailing "\n" is let through.
   */
  predicate ValidType(t: string) {
    IsTypeSyntax(t) || (|t| > 0 && t[|t| - 1] == '\n' && IsTypeSyntax(t[..|t| - 1]))
  }

  /** Namespaced and optional class names match the type pattern. */
  lemma NamespacedTypesAreValid()
    ensures ValidType("A\\B") && ValidType("?A")
  {
    assert Segments("A\\B") == ["A", "B"] by {
      SegmentsOfName("B");
      SegmentsSplit("A", "B");
      assert "A\\B" == "A" + ['\\'] + "B";
    }
    assert IsName("A") && IsName("B");
    SegmentsOfName("A");
    assert "?A"[1..] == "A";
  }

  /** A name made of non-ASCII characters matches, as its UTF-8 bytes all lie in `\x80-\xff`. */
  lemma NonAsciiTypesAreValid()
    ensures ValidType("\U{e9}t\U{e9}") && ValidType("\U{20ac}") && ValidType("\U{1f600}")
  {
    SegmentsOfName("\U{e9}t\U{e9}");
    SegmentsOfName("\U{20ac}");
    SegmentsOfName("\U{1f600}");
  }

  /** PCRE's `$` lets a final newline through. */
  lemma TrailingNewlineIsValidType()
    ensures ValidType("Foo\n") && !IsTypeSyntax("Foo\n")
  {
    SegmentsOfName("Foo");
    SegmentsOfName("Foo\n");
    assert "Foo\n"[..3] == "Foo";
    assert !IsName("Foo\n") by {
      assert !IsNameChar("Foo\n"[3]);
    }
  }

  /** A leading digit, a doubled `?` and the empty string do not match. */
  lemma MalformedTypesAreInvalid()
    ensures !ValidType("1Foo") && !ValidType("??Foo") && !ValidType("")
  {
    SegmentsOfName("1Foo");
    assert "1Foo" in Segments("1Foo") && !IsNameStart("1Foo"[0]);
    assert "??Foo"[1..] == "?Foo";
    SegmentsOfName("?Foo");
    assert "?Foo" in Segments("?Foo") && !IsNameStart("?Foo"[0]);
    SegmentsOfName("");
    assert "" in Segments("");
  }

  /** A trailing or doubled backslash leaves an empty segment, which does not match. */
  lemma StrayBackslashesAreInvalid()
    ensures !ValidType("Foo\\") && !ValidType("A\\\\B")
  {
    SegmentsOfName("");
    SegmentsSplit("Foo", "");
    assert "Foo\\" == "Foo" + ['\\'] + "";
    assert !IsName("");
    assert "" in Segments("Foo\\");
    SegmentsOfName("B");
    SegmentsSplit("", "B");
    assert "\\B" == "" + ['\\'] + "B";
    SegmentsSplit("A", "\\B");
    assert "A\\\\B" == "A" + ['\\'] + "\\B";
    assert "" in Segments("A\\\\B");
  }

  /** A string without backslashes is a single segment. */
  lemma {:induction false} SegmentsOfName(s: string)
    requires '\\' !in s
    ensures Segments(s) == [s]
  {
    if s != [] {
      SegmentsOfName(s[1..]);
      assert [s[0]] + s[1..] == s;
    }
  }

  /** A backslash ends the first segment. */
  lemma {:induction false} SegmentsSplit(a: string, b: string)
    requires '\\' !in a
    ensures Segments(a + ['\\'] + b) == [a] + Segments(b)
  {
    var s := a + ['\\'] + b;
    if a == [] {
      assert s[1..] == b;
    } else {
      assert s[1..] == a[1..] + ['\\'] + b;
      SegmentsSplit(a[1..], b);
      assert [a[0]] + a[1..] == a;
    }
  }

  /** The segments joined back with backslashes. */
  function JoinSegments(segs: seq<string>): string
    requires |segs| > 0
  {
    if |segs| == 1 then segs[0] else segs[0] + ['\\'] + JoinSegments(segs[1..])
  }

  /** Splitting on backslashes loses nothing: joining the segments gives the string back. */
  lemma {:induction false} SegmentsRoundTrip(s: string)
    ensures JoinSegments(Segments(s)) == s
    decreases |s|
  {
    if s != [] {
      var rest := Segments(s[1..]);
      SegmentsRoundTrip(s[1..]);
      if s[0] == '\\' {
        assert Segments(s) == [""] + rest;
        assert (([""] + rest)[1..]) == rest;
        assert s == "" + ['\\'] + s[1..];
      } else {
        var segs := [[s[0]] + rest[0]] + rest[1..];
        assert Segments(s) == segs;
        if |rest| == 1 {
          assert JoinSegments(segs) == [s[0]] + rest[0];
        } else {
          assert segs[1..] == rest[1..];
          assert JoinSegments(segs) == ([s[0]] + rest[0]) + ['\\'] + JoinSegments(rest[1..]);
        }
      }
    }
  }

  /** `$type` after a leading `?` is stripped. */
  function StripOptional(t: string): string {
    if |t| > 0 && t[0] == '?' then t[1..] else t
  }

  /** The key an entry of `getSubscribedServices()` is stored under: the type for an integer key. */
  function SubscribedKey(key: Key, t: string): string {
    if key.IntKey? then StripOptional(t) else key.s
  }

  function Behavior(t: string): InvalidBehavior {
    if |t| > 0 && t[0] == '?' then IgnoreOnInvalidReference else ExceptionOnInvalidReference
  }

  /** The state of the second loop: `$subscriberMap` and what is left of `$serviceMap`. */
  datatype Maps = Maps(subscriberMap: OMap<string, Value>, serviceMap: OMap<string, string>)

  /** A well-formed entry of `getSubscribedServices()`: a string matching the type pattern. */
  predicate ValidEntry(entry: (Key, SubscribedType)) {
    entry.1.TypeString? && ValidType(entry.1.name)
  }

  /** The exception for an entry that is not a valid type. */
  function TypeError(serviceId: string, cls: string, entry: (Key, SubscribedType)): Error {
    InvalidSubscribedType(serviceId, cls, entry.0, if entry.1.NotAString? then entry.1.phpType else entry.1.name)
  }

  /** The key a well-formed entry is stored under. */
  function EntryKey(entry: (Key, SubscribedType)): string
    requires entry.1.TypeString?
  {
    SubscribedKey(entry.0, entry.1.name)
  }

  /**
   * What a well-formed entry subscribes to under the tag's service map `serviceMap`:
   * the explicit mapping of its key if there is one, else the service named by its type.
   */
  function Subscribed(serviceMap: OMap<string, string>, entry: (Key, SubscribedType)): Value
    requires entry.1.TypeString?
  {
    var key := EntryKey(entry);
    var t := StripOptional(entry.1.name);
    ServiceClosure(TypedRef(if key in Keys(serviceMap) then Get(serviceMap, key) else t, t, Behavior(entry.1.name)))
  }

  /** One entry of `getSubscribedServices()`. */
  function SubscribeStep(m: Maps, entry: (Key, SubscribedType), serviceId: string, cls: string): (r: Result<Maps, Error>)
    ensures r.Err? <==> !ValidEntry(entry)
    ensures r.Err? ==> r.error == TypeError(serviceId, cls, entry)
    ensures r.Ok? ==>
      var key := EntryKey(entry);
      key in Keys(r.value.subscriberMap) && Get(r.value.subscriberMap, key) == Subscribed(m.serviceMap, entry) &&
      (forall k :: k in Keys(r.value.subscriberMap) <==> k == key || k in Keys(m.subscriberMap)) &&
      (forall k :: k != key && k in Keys(m.subscriberMap) ==> Get(r.value.subscriberMap, k) == Get(m.subscriberMap, k)) &&
      (forall k :: k in Keys(r.value.serviceMap) <==> k != key && k in Keys(m.serviceMap))
    ensures r.Ok? && DistinctKeys(m.serviceMap) ==>
      DistinctKeys(r.value.serviceMap) &&
      forall k :: k in Keys(r.value.serviceMap) ==> Get(r.value.serviceMap, k) == Get(m.serviceMap, k)
    ensures r.Ok? && DistinctKeys(m.subscriberMap) ==> DistinctKeys(r.value.subscriberMap)
  {
    match entry.1
    case NotAString(phpType) => Err(InvalidSubscribedType(serviceId, cls, entry.0, phpType))
    case TypeString(given) =>
      if !ValidType(given) then Err(InvalidSubscribedType(serviceId, cls, entry.0, given))
      else
        var t := StripOptional(given);
        var key := SubscribedKey(entry.0, given);
        var serviceMap := if key in Keys(m.serviceMap) then m.serviceMap else Put(m.serviceMap, key, t);
        var target := Get(serviceMap, key);
        var rest := Remove(serviceMap, key);
        assert DistinctKeys(m.serviceMap) ==> forall k :: k in Keys(rest) ==> Get(rest, k) == Get(m.serviceMap, k) by {
          if DistinctKeys(m.serviceMap) {
            forall k | k in Keys(rest) ensures Get(rest, k) == Get(m.serviceMap, k) {
              RemoveKeepsOthers(serviceMap, key, k);
            }
          }
        }
        Ok(Maps(Put(m.subscriberMap, key, ServiceClosure(TypedRef(target, t, Behavior(given)))),
                rest))
  }

  /** The loop over `$class::getSubscribedServices()`. */
  function SubscribeAll(m: Maps, types: PArray<SubscribedType>, serviceId: string, cls: string): Result<Maps, Error>
    decreases |types|
  {
    if types == [] then Ok(m)
    else
      var prev := SubscribeAll(m, types[..|types| - 1], serviceId, cls);
      if prev.Err? then prev else SubscribeStep(prev.value, types[|types| - 1], serviceId, cls)
  }

  lemma SubscribeAllSnoc(m: Maps, types: PArray<SubscribedType>, serviceId: string, cls: string, i: nat)
    requires i < |types|
    ensures SubscribeAll(m, types[..i + 1], serviceId, cls) ==
      var prev := SubscribeAll(m, types[..i], serviceId, cls);
      if prev.Err? then prev else SubscribeStep(prev.value, types[i], serviceId, cls)
  {
    PrefixSnoc(types, i);
  }

  lemma {:induction false} SubscribeErrorPersists(m: Maps, types: PArray<SubscribedType>, serviceId: string, cls: string, i: nat)
    requires i <= |types| && SubscribeAll(m, types[..i], serviceId, cls).Err?
    ensures SubscribeAll(m, types, serviceId, cls) == SubscribeAll(m, types[..i], serviceId, cls)
    decreases |types| - i
  {
    if i < |types| {
      SubscribeAllSnoc(m, types, serviceId, cls, i);
      SubscribeErrorPersists(m, types, serviceId, cls, i + 1);
    } else {
      assert types[..i] == types;
    }
  }

  /** Every entry of `getSubscribedServices()` is well-formed. */
  predicate AllValid(types: PArray<SubscribedType>) {
    forall i :: 0 <= i < |types| ==> ValidEntry(types[i])
  }

  /** The keys the entries are stored under, in order. */
  function EntryKeys(types: PArray<SubscribedType>): (ks: seq<string>)
    requires AllValid(types)
    ensures |ks| == |types|
    decreases |types|
  {
    if types == [] then []
    else
      var init := types[..|types| - 1];
      assert forall i :: 0 <= i < |init| ==> init[i] == types[i];
      EntryKeys(init) + [EntryKey(types[|types| - 1])]
  }

  /** The loop completes exactly when every entry is well-formed. */
  lemma {:induction false} SubscribeAllOkIff(m: Maps, types: PArray<SubscribedType>, serviceId: string, cls: string)
    ensures SubscribeAll(m, types, serviceId, cls).Ok? <==> AllValid(types)
    decreases |types|
  {
    if types != [] {
      var n := |types| - 1;
      SubscribeAllOkIff(m, types[..n], serviceId, cls);
      AllValidSnoc(types);
      var prev := SubscribeAll(m, types[..n], serviceId, cls);
      if prev.Ok? {
        var step := SubscribeStep(prev.value, types[n], serviceId, cls);
        assert step.Ok? <==> ValidEntry(types[n]);
      }
    }
  }

  lemma AllValidSnoc(types: PArray<SubscribedType>)
    requires types != []
    ensures AllValid(types) <==> AllValid(types[..|types| - 1]) && ValidEntry(types[|types| - 1])
  {
    var init := types[..|types| - 1];
    assert forall i :: 0 <= i < |init| ==> init[i] == types[i];
  }

  /** The exception thrown is that of the first ill-formed entry. */
  lemma SubscribeAllFailsAtFirstInvalid(m: Maps, types: PArray<SubscribedType>, serviceId: string, cls: string, i: nat)
    requires i < |types| && !ValidEntry(types[i])
    requires forall j :: 0 <= j < i ==> ValidEntry(types[j])
    ensures SubscribeAll(m, types, serviceId, cls) == Err(TypeError(serviceId, cls, types[i]))
  {
    var init := types[..i];
    assert forall j :: 0 <= j < |init| ==> init[j] == types[j];
    SubscribeAllOkIff(m, init, serviceId, cls);
    SubscribeAllSnoc(m, types, serviceId, cls, i);
    SubscribeErrorPersists(m, types, serviceId, cls, i + 1);
  }

  /**
   * After the loop, the subscriber map holds the earlier keys and every subscribed key, and
   * the leftover service map holds exactly the tag keys that no entry subscribed.
   */
  lemma {:induction false} SubscribeAllKeys(m: Maps, types: PArray<SubscribedType>, serviceId: string, cls: string)
    requires AllValid(types)
    ensures SubscribeAll(m, types, serviceId, cls).Ok?
    ensures var r := SubscribeAll(m, types, serviceId, cls).value;
      (forall k :: k in Keys(r.subscriberMap) <==> k in Keys(m.subscriberMap) || k in EntryKeys(types)) &&
      (forall k :: k in Keys(r.serviceMap) <==> k in Keys(m.serviceMap) && k !in EntryKeys(types))
    decreases |types|
  {
    SubscribeAllOkIff(m, types, serviceId, cls);
    if types != [] {
      var init := types[..|types| - 1];
      assert forall i :: 0 <= i < |init| ==> init[i] == types[i];
      SubscribeAllKeys(m, init, serviceId, cls);
    }
  }

  /** The loop only removes entries from a service map without repeated keys. */
  lemma {:induction false} SubscribeAllConsumes(m: Maps, types: PArray<SubscribedType>, serviceId: string, cls: string)
    requires DistinctKeys(m.serviceMap)
    ensures SubscribeAll(m, types, serviceId, cls).Ok? ==>
      var r := SubscribeAll(m, types, serviceId, cls).value;
      DistinctKeys(r.serviceMap) &&
      forall k :: k in Keys(r.serviceMap) ==> k in Keys(m.serviceMap) && Get(r.serviceMap, k) == Get(m.serviceMap, k)
    decreases |types|
  {
    if types != [] {
      SubscribeAllConsumes(m, types[..|types| - 1], serviceId, cls);
    }
  }

  /** Neither map the loop builds ever holds a key twice. */
  lemma {:induction false} SubscribeAllKeepsKeysDistinct(m: Maps, types: PArray<SubscribedType>, serviceId: string, cls: string)
    requires DistinctKeys(m.subscriberMap) && DistinctKeys(m.serviceMap)
    ensures SubscribeAll(m, types, serviceId, cls).Ok? ==>
      DistinctKeys(SubscribeAll(m, types, serviceId, cls).value.subscriberMap) &&
      DistinctKeys(SubscribeAll(m, types, serviceId, cls).value.serviceMap)
    decreases |types|
  {
    if types != [] {
      SubscribeAllKeepsKeysDistinct(m, types[..|types| - 1], serviceId, cls);
    }
  }

  /**
   * With distinct keys, each entry's key ends up mapped to what the entry subscribes to:
   * the tag's explicit mapping of that key when there is one, else the service named by its type.
   */
  lemma {:induction false} ExplicitMappingWins(m: Maps, types: PArray<SubscribedType>, serviceId: string, cls: string)
    requires AllValid(types) && DistinctKeys(m.serviceMap)
    requires forall i, j :: 0 <= i < j < |types| ==> EntryKey(types[i]) != EntryKey(types[j])
    ensures SubscribeAll(m, types, serviceId, cls).Ok?
    ensures var r := SubscribeAll(m, types, serviceId, cls).value;
      forall i :: 0 <= i < |types| ==>
        EntryKey(types[i]) in Keys(r.subscriberMap) &&
        Get(r.subscriberMap, EntryKey(types[i])) == Subscribed(m.serviceMap, types[i])
    decreases |types|
  {
    SubscribeAllOkIff(m, types, serviceId, cls);
    if types != [] {
      AllValidSnoc(types);
      DistinctEntryKeysInit(types);
      ExplicitMappingWins(m, types[..|types| - 1], serviceId, cls);
      InitLast(types);
      ExplicitMappingStep(m, types, types[..|types| - 1], types[|types| - 1], serviceId, cls);
    }
  }

  lemma DistinctEntryKeysInit(types: PArray<SubscribedType>)
    requires types != [] && AllValid(types)
    requires forall i, j :: 0 <= i < j < |types| ==> EntryKey(types[i]) != EntryKey(types[j])
    ensures AllValid(types[..|types| - 1])
    ensures var init := types[..|types| - 1];
      forall i, j :: 0 <= i < j < |init| ==> EntryKey(init[i]) != EntryKey(init[j])
  {
    var init := types[..|types| - 1];
    assert forall i :: 0 <= i < |init| ==> init[i] == types[i];
  }

  /** The last entry of a list whose other entries already subscribed as `ExplicitMappingWins` says. */
  lemma ExplicitMappingStep(m: Maps, types: PArray<SubscribedType>, init: PArray<SubscribedType>, last: (Key, SubscribedType),
                            serviceId: string, cls: string)
    requires types == init + [last] && AllValid(init) && AllValid(types) && DistinctKeys(m.serviceMap)
    requires forall i, j :: 0 <= i < j < |types| ==> EntryKey(types[i]) != EntryKey(types[j])
    requires SubscribeAll(m, init, serviceId, cls).Ok?
    requires var p := SubscribeAll(m, init, serviceId, cls).value;
      forall i :: 0 <= i < |init| ==>
        EntryKey(init[i]) in Keys(p.subscriberMap) &&
        Get(p.subscriberMap, EntryKey(init[i])) == Subscribed(m.serviceMap, init[i])
    ensures SubscribeAll(m, types, serviceId, cls).Ok?
    ensures var r := SubscribeAll(m, types, serviceId, cls).value;
      forall i :: 0 <= i < |types| ==>
        EntryKey(types[i]) in Keys(r.subscriberMap) &&
        Get(r.subscriberMap, EntryKey(types[i])) == Subscribed(m.serviceMap, types[i])
  {
    var n := |init|;
    SnocPrefix(init, last);
    var p := SubscribeAll(m, init, serviceId, cls).value;
    LaterKeyUntouched(m, types, serviceId, cls);
    var r := SubscribeStep(p, last, serviceId, cls);
    assert SubscribeAll(m, types, serviceId, cls) == r;
    assert r.Ok? && forall i :: 0 <= i < |types| ==> ValidEntry(types[i]);
    forall i | 0 <= i < |types|
      ensures EntryKey(types[i]) in Keys(r.value.subscriberMap) &&
              Get(r.value.subscriberMap, EntryKey(types[i])) == Subscribed(m.serviceMap, types[i])
    {
      if i < n {
        assert init[i] == types[i];
        SubscribeStepKeeps(p, last, serviceId, cls, EntryKey(types[i]));
        assert EntryKey(types[i]) in Keys(r.value.subscriberMap);
        assert Get(r.value.subscriberMap, EntryKey(types[i])) == Get(p.subscriberMap, EntryKey(types[i]));
      } else {
        SubscribeStepSets(p, last, serviceId, cls);
        assert i == n;
      }
    }
  }

  /** The entries before the last leave the last entry's key in the service map as it was. */
  lemma LaterKeyUntouched(m: Maps, types: PArray<SubscribedType>, serviceId: string, cls: string)
    requires types != [] && AllValid(types) && DistinctKeys(m.serviceMap)
    requires forall i, j :: 0 <= i < j < |types| ==> EntryKey(types[i]) != EntryKey(types[j])
    ensures SubscribeAll(m, types[..|types| - 1], serviceId, cls).Ok?
    ensures Subscribed(SubscribeAll(m, types[..|types| - 1], serviceId, cls).value.serviceMap, types[|types| - 1]) ==
            Subscribed(m.serviceMap, types[|types| - 1])
  {
    var n := |types| - 1;
    var init := types[..n];
    AllValidSnoc(types);
    SubscribeAllKeys(m, init, serviceId, cls);
    SubscribeAllConsumes(m, init, serviceId, cls);
    var p := SubscribeAll(m, init, serviceId, cls).value;
    var key := EntryKey(types[n]);
    EntryKeysAt(init);
    assert key !in EntryKeys(init) by {
      forall i | 0 <= i < n ensures EntryKey(init[i]) != key {
        assert init[i] == types[i];
      }
    }
    SubscribedAgrees(p.serviceMap, m.serviceMap, types[n]);
  }

  /** A later entry with another key leaves an earlier subscription as it was. */
  lemma SubscribeStepKeeps(p: Maps, entry: (Key, SubscribedType), serviceId: string, cls: string, k: string)
    requires ValidEntry(entry) && k in Keys(p.subscriberMap) && k != EntryKey(entry)
    ensures SubscribeStep(p, entry, serviceId, cls).Ok?
    ensures var r := SubscribeStep(p, entry, serviceId, cls).value;
      k in Keys(r.subscriberMap) && Get(r.subscriberMap, k) == Get(p.subscriberMap, k)
  {
  }

  /** A well-formed entry's key is mapped to what it subscribes to. */
  lemma SubscribeStepSets(p: Maps, entry: (Key, SubscribedType), serviceId: string, cls: string)
    requires ValidEntry(entry)
    ensures SubscribeStep(p, entry, serviceId, cls).Ok?
    ensures var r := SubscribeStep(p, entry, serviceId, cls).value;
      EntryKey(entry) in Keys(r.subscriberMap) && Get(r.subscriberMap, EntryKey(entry)) == Subscribed(p.serviceMap, entry)
  {
  }

  /** What an entry subscribes to depends only on its own key's mapping. */
  lemma SubscribedAgrees(a: OMap<string, string>, b: OMap<string, string>, entry: (Key, SubscribedType))
    requires entry.1.TypeString?
    requires EntryKey(entry) in Keys(a) <==> EntryKey(entry) in Keys(b)
    requires EntryKey(entry) in Keys(a) ==> Get(a, EntryKey(entry)) == Get(b, EntryKey(entry))
    ensures Subscribed(a, entry) == Subscribed(b, entry)
  {
  }

  /** Position `i` of `EntryKeys` is the key of entry `i`. */
  lemma {:induction false} EntryKeysAt(types: PArray<SubscribedType>)
    requires AllValid(types)
    ensures forall k :: k in EntryKeys(types) <==> exists i :: 0 <= i < |types| && EntryKey(types[i]) == k
    decreases |types|
  {
    if types != [] {
      var init := types[..|types| - 1];
      assert forall i :: 0 <= i < |init| ==> init[i] == types[i];
      EntryKeysAt(init);
    }
  }

  /**
   * Two consecutive entries stored under the same key: the first consumes the tag's mapping
   * of that key, so the second, which overwrites the first, targets the service named by its
   * own type whatever the tag mapped the key to.
   */
  lemma DuplicateKeyLosesExplicitMapping(m: Maps, e0: (Key, SubscribedType), e1: (Key, SubscribedType),
                                         serviceId: string, cls: string)
    requires ValidEntry(e0) && ValidEntry(e1) && EntryKey(e0) == EntryKey(e1)
    ensures var r := SubscribeAll(m, [e0, e1], serviceId, cls);
      var t := StripOptional(e1.1.name);
      r.Ok? && EntryKey(e1) in Keys(r.value.subscriberMap) &&
      Get(r.value.subscriberMap, EntryKey(e1)) == ServiceClosure(TypedRef(t, t, Behavior(e1.1.name)))
  {
    var first := SubscribeStep(m, e0, serviceId, cls);
    assert first.Ok? && EntryKey(e1) !in Keys(first.value.serviceMap);
    SubscribeStepSets(first.value, e1, serviceId, cls);
    SubscribeTwo(m, e0, e1, serviceId, cls);
  }

  /** The loop over two entries. */
  lemma SubscribeTwo(m: Maps, e0: (Key, SubscribedType), e1: (Key, SubscribedType), serviceId: string, cls: string)
    ensures SubscribeAll(m, [e0, e1], serviceId, cls) ==
      var first := SubscribeStep(m, e0, serviceId, cls);
      if first.Err? then first else SubscribeStep(first.value, e1, serviceId, cls)
  {
    SubscribeAllSnoc(m, [e0, e1], serviceId, cls, 0);
    SubscribeAllSnoc(m, [e0, e1], serviceId, cls, 1);
    assert [e0, e1][..0] == [] && [e0, e1][..2] == [e0, e1];
  }

  /** With the tag mapping `a` to `svc`, a string key `a` and an integer-keyed type `a` end up targeting `a`. */
  lemma DuplicateKeyExample()
    ensures var r := SubscribeAll(Maps([], [("a", "svc")]), [(StrKey("a"), TypeString("A")), (IntKey(0), TypeString("a"))],
                                  "app.handler", "Handler");
      r.Ok? && "a" in Keys(r.value.subscriberMap) &&
      Get(r.value.subscriberMap, "a") == ServiceClosure(TypedRef("a", "a", ExceptionOnInvalidReference))
  {
    var e0 := (StrKey("a"), TypeString("A"));
    var e1 := (IntKey(0), TypeString("a"));
    assert ValidEntry(e0) && EntryKey(e0) == "a" by {
      SegmentsOfName("A");
    }
    assert ValidEntry(e1) && EntryKey(e1) == "a" by {
      SegmentsOfName("a");
    }
    DuplicateKeyLosesExplicitMapping(Maps([], [("a", "svc")]), e0, e1, "app.handler", "Handler");
  }

  /** The class check: a subscriber class, or which of the two exceptions. */
  function CheckSubscriberClass(refl: Reflection, serviceId: string, cls: Option<string>): (r: Outcome<Error>)
    ensures r == Pass <==> cls.Some? && refl.isSubclassOf(cls.value, SubscriberInterface)
    ensures r.Fail? ==> (r.error.SubscriberClassNotFound? <==> cls.None? || !refl.classDefined(cls.value))
    ensures r.Fail? ==> (r.error.NotAServiceSubscriber? <==> cls.Some? && refl.classDefined(cls.value))
    ensures r.Fail? ==> r.error.serviceId == serviceId
  {
    if cls.Some? && refl.isSubclassOf(cls.value, SubscriberInterface) then Pass
    else if cls.None? || !refl.classDefined(cls.value) then Fail(SubscriberClassNotFound(serviceId, ClassName(cls)))
    else Fail(NotAServiceSubscriber(serviceId))
  }

  /**
   * Everything `processValue` computes for a subscriber before registering the locator:
   * the subscriber map and the leftover keys of the tag's service map.
   */
  function Subscription(refl: Reflection, serviceId: string, occurrences: seq<Attributes>, cls: Option<string>)
    : Result<Maps, Error>
  {
    var serviceMap := ServiceMapOf(serviceId, occurrences);
    if serviceMap.Err? then Err(serviceMap.error)
    else
      var check := CheckSubscriberClass(refl, serviceId, cls);
      if check.Fail? then Err(check.error)
      else SubscribeAll(Maps([], serviceMap.value), refl.subscribedServices(cls.value), serviceId, cls.value)
  }

  /**
   * A subscriber is accepted exactly when every tag occurrence is, its class implements
   * `ServiceSubscriberInterface` and every subscribed type is well-formed.
   */
  lemma SubscriptionOkIff(refl: Reflection, serviceId: string, occurrences: seq<Attributes>, cls: Option<string>)
    ensures Subscription(refl, serviceId, occurrences, cls).Ok? <==>
      (forall j :: 0 <= j < |occurrences| ==> TagEntry(serviceId, occurrences[j]).Ok?) &&
      cls.Some? && refl.isSubclassOf(cls.value, SubscriberInterface) &&
      AllValid(refl.subscribedServices(cls.value))
  {
    ServiceMapOkIff(serviceId, occurrences);
    var sm := ServiceMapOf(serviceId, occurrences);
    if sm.Ok? && cls.Some? {
      SubscribeAllOkIff(Maps([], sm.value), refl.subscribedServices(cls.value), serviceId, cls.value);
    }
  }

  /**
   * For an accepted subscriber, the locator's keys are exactly the subscribed keys, and the
   * keys left to log are exactly the tag keys that no subscribed service uses.
   */
  lemma LeftoverKeysAreUnsubscribed(refl: Reflection, serviceId: string, occurrences: seq<Attributes>, cls: Option<string>)
    requires Subscription(refl, serviceId, occurrences, cls).Ok?
    ensures cls.Some? && AllValid(refl.subscribedServices(cls.value))
    ensures var maps := Subscription(refl, serviceId, occurrences, cls).value;
      var types := refl.subscribedServices(cls.value);
      (forall k :: k in Keys(maps.subscriberMap) <==> k in EntryKeys(types)) &&
      (forall k :: k in Keys(maps.serviceMap) <==> k in DeclaredKeys(serviceId, occurrences) && k !in EntryKeys(types))
  {
    SubscriptionOkIff(refl, serviceId, occurrences, cls);
    var sm := ServiceMapOf(serviceId, occurrences).value;
    ServiceMapKeys(serviceId, occurrences);
    SubscribeAllKeys(Maps([], sm), refl.subscribedServices(cls.value), serviceId, cls.value);
  }

  /** The locator's map and the map of leftover keys hold each key once. */
  lemma SubscriptionKeysAreDistinct(refl: Reflection, serviceId: string, occurrences: seq<Attributes>, cls: Option<string>)
    requires Subscription(refl, serviceId, occurrences, cls).Ok?
    ensures DistinctKeys(Subscription(refl, serviceId, occurrences, cls).value.subscriberMap)
    ensures DistinctKeys(Subscription(refl, serviceId, occurrences, cls).value.serviceMap)
  {
    var sm := ServiceMapOf(serviceId, occurrences).value;
    SubscribeAllKeepsKeysDistinct(Maps([], sm), refl.subscribedServices(cls.value), serviceId, cls.value);
  }

  /** `$subscriberMap` as the PHP array given to the locator. */
  function StringKeyed(m: OMap<string, Value>): (r: PArray<Value>)
    ensures |r| == |m| && forall i :: 0 <= i < |m| ==> r[i] == (StrKey(m[i].0), m[i].1)
  {
    seq(|m|, i requires 0 <= i < |m| => (StrKey(m[i].0), m[i].1))
  }

  /** Whether `processValue` treats the definition as a subscriber. */
  predicate IsSubscriber(isAbstract: bool, synthetic: bool, tags: Tags) {
    !isAbstract && !synthetic && SubscriberTag in Keys(tags)
  }

  /** `'container.'.$this->currentId.'.'.md5(serialize($value))`, the digest being given. */
  function LocatorId(currentId: string, hash: string): (r: string)
    ensures Truthy(r) && r != "container"
  {
    var r := "container." + currentId + "." + hash;
    assert r[..10] == "container.";
    r
  }

  /**
   * What the locator definition registered for a subscriber holds: the subscriber map as its
   * only argument (`FreshLocatorContents` spells both lists out), the four settings chained
   * onto `register`, and `register`'s defaults for everything else.
   */
  ghost predicate LocatorIsRegistered(locator: Definition, subscriberMap: OMap<string, Value>, autowired: bool)
    reads locator
  {
    locator.cls == Some(ServiceLocatorClass) &&
    locator.arguments == Append([], ArrayValue(StringKeyed(subscriberMap))) &&
    !locator.public && locator.autowired == autowired &&
    locator.tags == WithTag([], LocatorTag, []) &&
    locator.calls == [] && locator.properties == [] && locator.instanceof == [] &&
    locator.shared && !locator.isAbstract && !locator.synthetic && !locator.isChild && !locator.inheritTags
  }

  /** The log line for tag keys no subscribed service consumed, if any. */
  function UnusedKeysLog(serviceId: string, cls: Option<string>, leftover: OMap<string, string>): seq<LogEntry> {
    if leftover == [] then [] else [UnusedSubscriberKeys(serviceId, ClassName(cls), Keys(leftover))]
  }

  /** The definition's arguments, properties and method calls after `parent::processValue`. */
  ghost predicate Rewritten(d: Definition, arguments: PArray<Value>, properties: PArray<Value>, calls: seq<Call>,
                            loc: Option<string>)
    reads d
  {
    d.arguments == RewriteItems(arguments, loc) &&
    d.properties == RewriteItems(properties, loc) &&
    d.calls == RewriteCalls(calls, loc)
  }

  /** On a fresh definition, `addArgument` gives index 0 and `addTag` the tag's only occurrence. */
  lemma FreshLocatorContents(argument: Value)
    ensures Append([], argument) == [(IntKey(0), argument)]
    ensures WithTag([], LocatorTag, []) == [(LocatorTag, [[]])]
  {
    var tags: Tags := [];
    Displays((IntKey(0), argument), (IntKey(0), argument));
    var none: Attributes := [];
    Displays(none, none);
    assert Keys(tags) == [];
    Displays((LocatorTag, [none]), (LocatorTag, [none]));
  }

  // ----- The pass -----

  class RegisterServiceSubscribersPass {
    const container: ContainerBuilder
    var currentId: string
    var serviceLocator: Option<string>

    constructor (container: ContainerBuilder)
      ensures this.container == container && currentId == "" && serviceLocator == None
    {
      this.container := container;
      currentId := "";
      serviceLocator := None;
    }

    /** The first `foreach`: the tag's occurrences into `$serviceMap`, first key wins. */
    method BuildServiceMap(occurrences: seq<Attributes>) returns (r: Result<OMap<string, string>, Error>)
      ensures r == ServiceMapOf(currentId, occurrences)
    {
      var serviceMap: OMap<string, string> := [];
      var i := 0;
      while i < |occurrences|
        invariant 0 <= i <= |occurrences|
        invariant ServiceMapOf(currentId, occurrences[..i]) == Ok(serviceMap)
      {
        var attributes := occurrences[i];
        ServiceMapSnoc(currentId, occurrences, i);
        if attributes != [] {
          if !OnlyIdAndKey(attributes) {
            ServiceMapErrorPersists(currentId, occurrences, i + 1);
            return Err(InvalidTagAttributes(currentId, Keys(attributes)));
          }
          if StrKey("id") !in Keys(attributes) {
            assert Keys(attributes)[0] == StrKey("key");
            ServiceMapErrorPersists(currentId, occurrences, i + 1);
            return Err(MissingIdAttribute(currentId, Get(attributes, StrKey("key"))));
          }
          var id := Get(attributes, StrKey("id"));
          var key := if StrKey("key") in Keys(attributes) then Get(attributes, StrKey("key")) else id;
          if key !in Keys(serviceMap) {
            serviceMap := Put(serviceMap, key, id);
          }
        }
        i := i + 1;
      }
      assert occurrences[..i] == occurrences;
      return Ok(serviceMap);
    }

    /** The body of the second `foreach`, for one subscribed service. */
    method SubscribeEntry(m: Maps, key: Key, ty: SubscribedType, cls: string) returns (r: Result<Maps, Error>)
      ensures r == SubscribeStep(m, (key, ty), currentId, cls)
    {
      if ty.NotAString? {
        return Err(InvalidSubscribedType(currentId, cls, key, ty.phpType));
      }
      if !ValidType(ty.name) {
        return Err(InvalidSubscribedType(currentId, cls, key, ty.name));
      }
      var t := ty.name;
      var optionalBehavior := |t| > 0 && t[0] == '?';
      if optionalBehavior {
        t := t[1..];
      }
      var k := if key.IntKey? then t else key.s;
      var services := m.serviceMap;
      if k !in Keys(services) {
        services := Put(services, k, t);
      }
      var behavior := if optionalBehavior then IgnoreOnInvalidReference else ExceptionOnInvalidReference;
      var subscribers := Put(m.subscriberMap, k, ServiceClosure(TypedRef(Get(services, k), t, behavior)));
      return Ok(Maps(subscribers, Remove(services, k)));
    }

    /** The second `foreach`: the subscribed services into `$subscriberMap`, consuming `$serviceMap`. */
    method BuildSubscriberMap(serviceMap: OMap<string, string>, types: PArray<SubscribedType>, cls: string)
      returns (r: Result<Maps, Error>)
      ensures r == SubscribeAll(Maps([], serviceMap), types, currentId, cls)
    {
      var m := Maps([], serviceMap);
      var i := 0;
      while i < |types|
        invariant 0 <= i <= |types|
        invariant SubscribeAll(Maps([], serviceMap), types[..i], currentId, cls) == Ok(m)
      {
        SubscribeAllSnoc(Maps([], serviceMap), types, currentId, cls, i);
        var next := SubscribeEntry(m, types[i].0, types[i].1, cls);
        if next.Err? {
          SubscribeErrorPersists(Maps([], serviceMap), types, currentId, cls, i + 1);
          return next;
        }
        m := next.value;
        i := i + 1;
      }
      assert types[..i] == types;
      return Ok(m);
    }

    /** `parent::processValue($value)` on a definition: its arguments, properties and calls rewritten. */
    method RewriteDefinition(d: Definition)
      modifies d`arguments, d`properties, d`calls
      ensures Rewritten(d, old(d.arguments), old(d.properties), old(d.calls), serviceLocator)
    {
      d.arguments := RewriteItems(d.arguments, serviceLocator);
      d.properties := RewriteItems(d.properties, serviceLocator);
      d.calls := RewriteCalls(d.calls, serviceLocator);
    }

    /**
     * The locator definition: a private `ServiceLocator` holding the subscriber map,
     * autowired like the subscriber, tagged `container.service_locator`.
     */
    method RegisterLocator(loc: string, subscriberMap: OMap<string, Value>, autowired: bool) returns (locator: Definition)
      modifies container`defs
      ensures fresh(locator) && container.defs == old(container.defs)[loc := locator]
      ensures LocatorIsRegistered(locator, subscriberMap, autowired)
    {
      locator := container.Register(loc, ServiceLocatorClass);
      var argument := ArrayValue(StringKeyed(subscriberMap));
      locator.arguments := Append(locator.arguments, argument);
      locator.public := false;
      locator.autowired := autowired;
      locator.AddTag(LocatorTag, []);
    }

    /**
     * `processValue` on a definition. A subscriber gets its locator registered and its
     * `container` references pointed at it; unused tag keys are logged. Nothing changes
     * when an exception is thrown.
     */
    method ProcessDefinition(d: Definition, hash: string) returns (r: Outcome<Error>)
      modifies this`serviceLocator, container`defs, container`log, d`arguments, d`properties, d`calls
      ensures serviceLocator == old(serviceLocator)
      ensures !old(IsSubscriber(d.isAbstract, d.synthetic, d.tags)) ==>
        r == Pass && container.defs == old(container.defs) && container.log == old(container.log) &&
        Rewritten(d, old(d.arguments), old(d.properties), old(d.calls), serviceLocator)
      ensures (old(IsSubscriber(d.isAbstract, d.synthetic, d.tags)) &&
               old(Subscription(container.reflection, currentId, ListAt(d.tags, SubscriberTag), d.cls)).Err?) ==>
        r == Fail(old(Subscription(container.reflection, currentId, ListAt(d.tags, SubscriberTag), d.cls)).error) &&
        container.defs == old(container.defs) && container.log == old(container.log) &&
        d.arguments == old(d.arguments) && d.properties == old(d.properties) && d.calls == old(d.calls)
      ensures (old(IsSubscriber(d.isAbstract, d.synthetic, d.tags)) &&
               old(Subscription(container.reflection, currentId, ListAt(d.tags, SubscriberTag), d.cls)).Ok?) ==>
        var maps := old(Subscription(container.reflection, currentId, ListAt(d.tags, SubscriberTag), d.cls)).value;
        var loc := LocatorId(currentId, hash);
        r == Pass &&
        container.log == old(container.log) + UnusedKeysLog(currentId, old(d.cls), maps.serviceMap) &&
        loc in container.defs && container.defs == old(container.defs)[loc := container.defs[loc]] &&
        fresh(container.defs[loc]) &&
        LocatorIsRegistered(container.defs[loc], maps.subscriberMap, old(d.autowired)) &&
        Rewritten(d, old(d.arguments), old(d.properties), old(d.calls), Some(loc))
    {
      if d.isAbstract || d.synthetic || SubscriberTag !in Keys(d.tags) {
        RewriteDefinition(d);
        return Pass;
      }
      var serviceMap := BuildServiceMap(ListAt(d.tags, SubscriberTag));
      if serviceMap.Err? {
        return Fail(serviceMap.error);
      }
      var cls := d.cls;
      var check := CheckSubscriberClass(container.reflection, currentId, cls);
      if check.Fail? {
        return Fail(check.error);
      }
      var maps := BuildSubscriberMap(serviceMap.value, container.reflection.subscribedServices(cls.value), cls.value);
      if maps.Err? {
        return Fail(maps.error);
      }
      if maps.value.serviceMap != [] {
        container.Log(UnusedSubscriberKeys(currentId, cls.value, Keys(maps.value.serviceMap)));
      }
      var saved := serviceLocator;
      var loc := LocatorId(currentId, hash);
      serviceLocator := Some(loc);
      var locator := RegisterLocator(loc, maps.value.subscriberMap, d.autowired);
      RewriteDefinition(d);
      serviceLocator := saved;
      return Pass;
    }
  }
}
