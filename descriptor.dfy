/** The binding-descriptor parser of DomEventHandler: a handler name such as
    `<prefix><domEvent>click<name>touchend<path>ref<path>.item <check> enter <check> after(log x)`
    is cut into event names, a target reference, delegate selector segments and
    modifier keywords, and the keywords are sorted into guard buckets. */
module Descriptor {
  import opened Text
  import opened Component

  /** The four separators of the handler-name grammar (`CHECK_SAPARATOR`,
      `DOM_EVENT_SAPARATOR`, `SAPARATOR`, `NAME_SAPARATOR`), whose values are defined
      outside this model: distinct, non-empty strings. */
  datatype Grammar = Grammar(check: String, domEvent: String, path: String, name: String)
  {
    predicate Valid()
    {
      |check| > 0 && |domEvent| > 0 && |path| > 0 && |name| > 0
      && check != domEvent && check != path && check != name
      && domEvent != path && domEvent != name && path != name
    }
  }

  /** `{target, param}`: a hook or rate-limit keyword split into the member it names and its argument. */
  datatype MethodRef = MethodRef(target: String, param: String)

  const AfterWord: String := "after"
  const BeforeWord: String := "before"
  const DebounceWord: String := "debounce"
  const ThrottleWord: String := "throttle"
  const CaptureWord: String := "capture"

  /** The object `getDefaultEventObject` returns. */
  datatype EventObject = EventObject(
    eventName: String,
    codes: seq<String>,
    captures: seq<String>,
    afterMethods: seq<MethodRef>,
    beforeMethods: seq<MethodRef>,
    debounceMethods: seq<MethodRef>,
    throttleMethods: seq<MethodRef>,
    checkMethodList: seq<String>)

  /** Which wrapper `bindingEvent` puts around the user callback, with the text of its millis. */
  datatype Limiter = NoLimiter | Debounce(millis: String) | Throttle(millis: String)

  /** The third argument of the native `addEventListener`: the boolean `capture`, or
      `{passive: true, capture}`. */
  datatype ListenerOptions = UseCapture(capture: bool) | Passive(capture: bool)

  /** A parsed binding: the event object with its resolved element (`dom`), its joined
      delegate selector, the handler member it calls and the limiter around that call. */
  datatype BoundEvent = BoundEvent(
    obj: EventObject,
    dom: Option<NodeId>,
    delegate: String,
    handler: String,
    limiter: Limiter)

  /** The first two steps of `parseEvent`: the trimmed keyword list and the
      `SAPARATOR`-split event segment (event spec, target ref, delegate segments). */
  datatype Header = Header(arr: seq<String>, filters: seq<String>)

  /** A parse that either yields a value or stops on a handler name without the
      `DOM_EVENT_SAPARATOR` (where the source reads `undefined.split` and throws). */
  datatype Parse<T> = Parsed(value: T) | Malformed(key: String)

  // ---------------------------------------------------------------------------
  // Keyword classification

  /** Stand-in for `BaseHandler.splitMethodByKeyword`'s record: the text after the
      keyword, without its surrounding parentheses, is `target param`. */
  function ParseMethodRef(keyword: String, k: String): (m: MethodRef)
    requires IsPrefix(keyword, k)
  {
    var rest := k[|keyword|..];
    var inner := if |rest| > 0 && rest[0] == '(' then rest[1..] else rest;
    var body := if |inner| > 0 && inner[|inner| - 1] == ')' then inner[..|inner| - 1] else inner;
    var words := Split(Trim(body), " ");
    MethodRef(words[0], if |words| > 1 then words[1] else [])
  }

  /** `splitMethodByKeyword(arr, keyword)`: the keywords of the category, in order, and
      one `{target, param}` record for each. */
  function SplitMethodByKeyword(arr: seq<String>, keyword: String): (r: (seq<String>, seq<MethodRef>))
    ensures |r.0| == |r.1|
  {
    var keys := Filter((k: String) => IsPrefix(keyword, k), arr);
    assert forall i :: 0 <= i < |keys| ==> IsPrefix(keyword, keys[i]) by {
      FilterMembers((k: String) => IsPrefix(keyword, k), arr);
      forall i | 0 <= i < |keys| ensures IsPrefix(keyword, keys[i]) { assert keys[i] in keys; }
    }
    (keys, seq(|keys|, i requires 0 <= i < |keys| => ParseMethodRef(keyword, keys[i])))
  }

  /** The keywords of a category are exactly the keywords with its prefix. */
  lemma KeywordMembers(arr: seq<String>, keyword: String)
    ensures forall k :: k in SplitMethodByKeyword(arr, keyword).0 <==> k in arr && IsPrefix(keyword, k)
  {
    FilterMembers((k: String) => IsPrefix(keyword, k), arr);
  }

  /** A keyword some bucket other than the keycodes takes: a truthy member of the
      component, or one of the five categories. */
  predicate Claimed(members: map<String, Member>, k: String)
  {
    Lookup(members, k).IsTruthy()
    || IsPrefix(AfterWord, k) || IsPrefix(BeforeWord, k) || IsPrefix(DebounceWord, k)
    || IsPrefix(ThrottleWord, k) || IsPrefix(CaptureWord, k)
  }

  function LowerAll(s: seq<String>): (r: seq<String>)
  {
    seq(|s|, i requires 0 <= i < |s| => ToLower(s[i]))
  }

  /** `getDefaultEventObject(eventName, checkMethodFilters)` with the component's members
      at bind time. */
  function GetDefaultEventObject(eventName: String, arr: seq<String>, members: map<String, Member>): (r: EventObject)
    ensures r.eventName == eventName && |r.codes| <= |arr| && |r.checkMethodList| <= |arr|
  {
    var checkMethodList := Filter((code: String) => Lookup(members, code).IsTruthy(), arr);
    var (afters, afterMethods) := SplitMethodByKeyword(arr, AfterWord);
    var (befores, beforeMethods) := SplitMethodByKeyword(arr, BeforeWord);
    var (debounces, debounceMethods) := SplitMethodByKeyword(arr, DebounceWord);
    var (throttles, throttleMethods) := SplitMethodByKeyword(arr, ThrottleWord);
    var (captures, _) := SplitMethodByKeyword(arr, CaptureWord);
    var filteredList := checkMethodList + afters + befores + debounces + throttles + captures;
    var codes := LowerAll(Filter((code: String) => code !in filteredList, arr));
    EventObject(eventName, codes, captures, afterMethods, beforeMethods,
                debounceMethods, throttleMethods, checkMethodList)
  }

  /** The codes are exactly the keywords no other bucket claims, lower-cased, in their
      original order; the check-method list holds exactly the keywords whose member is
      truthy; the buckets are not exclusive of each other. */
  lemma Classify(eventName: String, arr: seq<String>, members: map<String, Member>)
    ensures var obj := GetDefaultEventObject(eventName, arr, members);
      && obj.eventName == eventName
      && obj.codes == LowerAll(Filter((k: String) => !Claimed(members, k), arr))
      && (forall k :: k in obj.checkMethodList <==> k in arr && Lookup(members, k).IsTruthy())
      && (forall k :: k in obj.captures <==> k in arr && IsPrefix(CaptureWord, k))
      && |obj.afterMethods| == |Filter((k: String) => IsPrefix(AfterWord, k), arr)|
      && |obj.beforeMethods| == |Filter((k: String) => IsPrefix(BeforeWord, k), arr)|
  {
    var checkMethodList := Filter((code: String) => Lookup(members, code).IsTruthy(), arr);
    var afters := SplitMethodByKeyword(arr, AfterWord).0;
    var befores := SplitMethodByKeyword(arr, BeforeWord).0;
    var debounces := SplitMethodByKeyword(arr, DebounceWord).0;
    var throttles := SplitMethodByKeyword(arr, ThrottleWord).0;
    var captures := SplitMethodByKeyword(arr, CaptureWord).0;
    var filteredList := checkMethodList + afters + befores + debounces + throttles + captures;
    FilterMembers((code: String) => Lookup(members, code).IsTruthy(), arr);
    KeywordMembers(arr, AfterWord);
    KeywordMembers(arr, BeforeWord);
    KeywordMembers(arr, DebounceWord);
    KeywordMembers(arr, ThrottleWord);
    KeywordMembers(arr, CaptureWord);
    forall k | k in arr ensures (k !in filteredList) == !Claimed(members, k) {
    }
    FilterCongruent((code: String) => code !in filteredList, (k: String) => !Claimed(members, k), arr);
  }

  /** `bindingEvent`'s choice of wrapper: debounce whenever a debounce keyword is
      present, with the millis of the first one; otherwise throttle with the first
      throttle keyword; otherwise none. */
  function ChooseLimiter(obj: EventObject): (r: Limiter)
    ensures r.NoLimiter? <==> |obj.debounceMethods| == 0 && |obj.throttleMethods| == 0
  {
    if |obj.debounceMethods| > 0 then Debounce(obj.debounceMethods[0].target)
    else if |obj.throttleMethods| > 0 then Throttle(obj.throttleMethods[0].target)
    else NoLimiter
  }

  /** The first keyword of `arr` with prefix `word`. */
  ghost predicate FirstWith(arr: seq<String>, word: String, j: int)
  {
    0 <= j < |arr| && IsPrefix(word, arr[j]) && forall i :: 0 <= i < j ==> !IsPrefix(word, arr[i])
  }

  lemma FirstRecord(arr: seq<String>, word: String)
    requires exists k :: k in arr && IsPrefix(word, k)
    ensures var (keys, refs) := SplitMethodByKeyword(arr, word);
      |refs| > 0 && exists j :: FirstWith(arr, word, j) && refs[0] == ParseMethodRef(word, arr[j])
  {
    var p := (k: String) => IsPrefix(word, k);
    var k :| k in arr && IsPrefix(word, k);
    FilterMembers(p, arr);
    assert k in Filter(p, arr);
    FilterHead(p, arr);
    var j :| 0 <= j < |arr| && p(arr[j]) && Filter(p, arr)[0] == arr[j] && forall i :: 0 <= i < j ==> !p(arr[i]);
    assert FirstWith(arr, word, j);
  }

  lemma RateBuckets(eventName: String, arr: seq<String>, members: map<String, Member>)
    ensures var obj := GetDefaultEventObject(eventName, arr, members);
      && obj.debounceMethods == SplitMethodByKeyword(arr, DebounceWord).1
      && obj.throttleMethods == SplitMethodByKeyword(arr, ThrottleWord).1
  {
  }

  /** The record list of a category is empty exactly when no keyword has its prefix, and
      otherwise starts with the record of the first such keyword. */
  lemma FirstRecordIff(arr: seq<String>, word: String)
    ensures var refs := SplitMethodByKeyword(arr, word).1;
      && (|refs| > 0 <==> exists k :: k in arr && IsPrefix(word, k))
      && (|refs| > 0 ==> exists j :: FirstWith(arr, word, j) && refs[0] == ParseMethodRef(word, arr[j]))
  {
    var (keys, refs) := SplitMethodByKeyword(arr, word);
    KeywordMembers(arr, word);
    if |keys| > 0 {
      assert keys[0] in keys;
      FirstRecord(arr, word);
    }
  }

  /** Debounce takes precedence over throttle, and each takes its millis from the first
      keyword of its kind. */
  lemma LimiterChoice(eventName: String, arr: seq<String>, members: map<String, Member>)
    ensures var l := ChooseLimiter(GetDefaultEventObject(eventName, arr, members));
      && (l.Debounce? <==> exists k :: k in arr && IsPrefix(DebounceWord, k))
      && (l.Throttle? <==> (forall k :: k in arr ==> !IsPrefix(DebounceWord, k))
                           && exists k :: k in arr && IsPrefix(ThrottleWord, k))
      && (l.Debounce? ==> exists j :: FirstWith(arr, DebounceWord, j)
                                     && l.millis == ParseMethodRef(DebounceWord, arr[j]).target)
      && (l.Throttle? ==> exists j :: FirstWith(arr, ThrottleWord, j)
                                     && l.millis == ParseMethodRef(ThrottleWord, arr[j]).target)
  {
    RateBuckets(eventName, arr, members);
    FirstRecordIff(arr, DebounceWord);
    FirstRecordIff(arr, ThrottleWord);
  }

  // ---------------------------------------------------------------------------
  // Dispatch policy

  /** The own keys of `scrollBlockingEvents`, each mapped to `true`. */
  const ScrollBlockingEvents: set<String> :=
    {"touchstart", "touchmove", "mousedown", "mouseup", "mousemove", "wheel", "mousewheel"}

  /** The properties every plain object literal inherits from `Object.prototype`; each is
      a function or, for `__proto__`, an object, so reading one is truthy. */
  const ObjectPrototypeNames: set<String> :=
    {"constructor", "hasOwnProperty", "isPrototypeOf", "propertyIsEnumerable", "toLocaleString",
     "toString", "valueOf", "__defineGetter__", "__defineSetter__", "__lookupGetter__",
     "__lookupSetter__", "__proto__"}

  /** `scrollBlockingEvents[eventName]` is truthy: an own key or an inherited property. */
  predicate ScrollBlocking(eventName: String)
  {
    eventName in ScrollBlockingEvents || eventName in ObjectPrototypeNames
  }

  /** The listener options `addEvent` passes: capture exactly when a capture keyword was
      given, and passive exactly when the `scrollBlockingEvents` lookup is truthy, which
      holds for the seven scroll-blocking events and for inherited property names. */
  function ListenerOptionsFor(eventName: String, captures: seq<String>): (o: ListenerOptions)
    ensures o.capture <==> |captures| > 0
    ensures o.Passive? <==> eventName in ScrollBlockingEvents + ObjectPrototypeNames
  {
    var capture := |captures| > 0;
    if ScrollBlocking(eventName) then Passive(capture) else UseCapture(capture)
  }

  // ---------------------------------------------------------------------------
  // Target resolution

  /** `getDefaultDomElement(dom)`: a non-empty reference name is looked up in `refs`,
      then among the component's members, then in the injected global scope; without
      one the root is `el`, else `$el`, else `$root`. A truthy member that is not an
      element stops the lookup with no element. */
  function GetDefaultDomElement(ctx: Context, dom: String): (r: Option<NodeId>)
    ensures dom == [] ==> r == (if ctx.el.Some? then ctx.el else if ctx.dollarEl.Some? then ctx.dollarEl else ctx.root)
    ensures dom != [] && dom in ctx.refs ==> r == Some(ctx.refs[dom])
    ensures dom != [] && dom !in ctx.refs && Lookup(ctx.members, dom).Element? ==> r == Some(Lookup(ctx.members, dom).node)
    ensures dom != [] && dom !in ctx.refs && !Lookup(ctx.members, dom).IsTruthy() ==>
      r == (if dom in ctx.globals then Some(ctx.globals[dom]) else None)
  {
    if dom != [] then
      if dom in ctx.refs then Some(ctx.refs[dom])
      else
        var m := Lookup(ctx.members, dom);
        if m.IsTruthy() then (if m.Element? then Some(m.node) else None)
        else if dom in ctx.globals then Some(ctx.globals[dom])
        else None
    else if ctx.el.Some? then ctx.el
    else if ctx.dollarEl.Some? then ctx.dollarEl
    else ctx.root
  }

  // ---------------------------------------------------------------------------
  // Parsing a handler name

  /** `bindingEvent([eventName, dom, ...delegate], checkMethodFilters, callback)` up to
      the point where it hands the event object to `addEvent`. */
  function BindingEvent(arr: seq<String>, filters: seq<String>, handler: String, ctx: Context, g: Grammar): (r: BoundEvent)
    requires |arr| >= 1
    ensures r.obj.eventName == arr[0] && r.handler == handler
    ensures |arr| <= 2 ==> r.delegate == []
  {
    var obj := GetDefaultEventObject(arr[0], filters, ctx.members);
    var dom := GetDefaultDomElement(ctx, if |arr| > 1 then arr[1] else []);
    var delegate := Join(if |arr| > 2 then arr[2..] else [], g.path);
    BoundEvent(obj, dom, delegate, handler, ChooseLimiter(obj))
  }

  /** The trimmed `CHECK_SAPARATOR` segments of a handler name. */
  function TrimmedSegments(key: String, g: Grammar): (r: seq<String>)
    requires g.Valid()
    ensures |r| >= 1
  {
    var parts := Split(key, g.check);
    seq(|parts|, i requires 0 <= i < |parts| => Trim(parts[i]))
  }

  /** Lines 273-278 of `parseEvent`: the keywords after the first `CHECK_SAPARATOR`
      segment, and the `SAPARATOR` split of what follows the first `DOM_EVENT_SAPARATOR`. */
  function ParseHeader(key: String, g: Grammar): (r: Parse<Header>)
    requires g.Valid()
    ensures r.Parsed? ==> |r.value.arr| >= 1
  {
    var segments := TrimmedSegments(key, g);
    var parts := Split(segments[0], g.domEvent);
    if |parts| < 2 then Malformed(key)
    else Parsed(Header(Split(parts[1], g.path), segments[1..]))
  }

  /** A handler name is malformed exactly when its first segment has no
      `DOM_EVENT_SAPARATOR`. */
  lemma MalformedIff(key: String, g: Grammar)
    requires g.Valid()
    ensures ParseHeader(key, g).Malformed? <==> Free(TrimmedSegments(key, g)[0], g.domEvent)
  {
    var p := TrimmedSegments(key, g)[0];
    if Free(p, g.domEvent) {
      SplitFree(p, g.domEvent);
    } else {
      var parts := Split(p, g.domEvent);
      if |parts| < 2 {
        SplitJoin(p, g.domEvent);
        SplitPiecesFree(p, g.domEvent);
      }
    }
  }

  /** The loop of `parseEvent`: `bindingEvent` once per event name of the event spec,
      with the event name in place of the spec. */
  function FanOutEvents(h: Header, key: String, ctx: Context, g: Grammar): (r: seq<BoundEvent>)
    requires g.Valid() && |h.arr| >= 1
  {
    var names := Split(h.arr[0], g.name);
    seq(|names|, i requires 0 <= i < |names| => BindingEvent(h.arr[0 := names[i]], h.filters, key, ctx, g))
  }

  /** `parseEvent(key)`: one binding per event name of the event spec, in order. */
  function ParseKey(key: String, g: Grammar, ctx: Context): (r: Parse<seq<BoundEvent>>)
    requires g.Valid()
    ensures r.Malformed? ==> r.key == key
  {
    match ParseHeader(key, g)
    case Malformed(k) => Malformed(k)
    case Parsed(h) => Parsed(FanOutEvents(h, key, ctx, g))
  }

  /** Fan-out: a well-formed handler name yields one binding per `NAME_SAPARATOR`-separated
      event name, in order; the names contain no separator and join back to the event
      spec; the bindings differ only in their event name. */
  lemma FanOut(key: String, g: Grammar, ctx: Context)
    requires g.Valid() && ParseHeader(key, g).Parsed?
    ensures var h := ParseHeader(key, g).value;
      var names := Split(h.arr[0], g.name);
      var bs := ParseKey(key, g, ctx);
      && bs.Parsed?
      && |bs.value| == |names|
      && Join(names, g.name) == h.arr[0]
      && (forall i :: 0 <= i < |names| ==> Free(names[i], g.name))
      && (forall i :: 0 <= i < |names| ==> bs.value[i].obj.eventName == names[i])
      && (forall i :: 0 <= i < |names| ==>
            bs.value[i] == bs.value[0].(obj := bs.value[0].obj.(eventName := names[i])))
  {
    var h := ParseHeader(key, g).value;
    var names := Split(h.arr[0], g.name);
    SplitJoin(h.arr[0], g.name);
    SplitPiecesFree(h.arr[0], g.name);
    Renamed(h, key, ctx, g);
  }

  /** Binding `i` of a well-formed handler name is what `bindingEvent` builds for the
      `i`-th event name: the classified keywords of that name, the target resolved from
      the second part, the remaining parts joined as the delegate selector, the handler
      name itself as handler, and the limiter chosen from the classified keywords. */
  lemma ParsedBinding(key: String, g: Grammar, ctx: Context, i: int)
    requires g.Valid() && ParseHeader(key, g).Parsed?
    requires 0 <= i < |Split(ParseHeader(key, g).value.arr[0], g.name)|
    ensures var h := ParseHeader(key, g).value;
      var names := Split(h.arr[0], g.name);
      var b := ParseKey(key, g, ctx).value[i];
      && b.obj == GetDefaultEventObject(names[i], h.filters, ctx.members)
      && b.dom == GetDefaultDomElement(ctx, if |h.arr| > 1 then h.arr[1] else [])
      && b.delegate == Join(if |h.arr| > 2 then h.arr[2..] else [], g.path)
      && b.handler == key
      && b.limiter == ChooseLimiter(b.obj)
  {
    var h := ParseHeader(key, g).value;
    var names := Split(h.arr[0], g.name);
    var arr := h.arr[0 := names[i]];
    assert |arr| > 1 ==> arr[1] == h.arr[1];
    assert |arr| > 2 ==> arr[2..] == h.arr[2..];
  }

  /** The bindings of the fan-out differ from the first only in their event name. */
  lemma Renamed(h: Header, key: String, ctx: Context, g: Grammar)
    requires g.Valid() && |h.arr| >= 1
    ensures var names := Split(h.arr[0], g.name);
      var bs := FanOutEvents(h, key, ctx, g);
      forall i :: 0 <= i < |names| ==> bs[i] == bs[0].(obj := bs[0].obj.(eventName := names[i]))
  {
    var names := Split(h.arr[0], g.name);
    var bs := FanOutEvents(h, key, ctx, g);
    forall i | 0 <= i < |names|
      ensures bs[i] == bs[0].(obj := bs[0].obj.(eventName := names[i]))
    {
      RenameEvent(h.arr[0 := names[0]], names[i], h.filters, key, ctx, g);
      assert h.arr[0 := names[0]][0 := names[i]] == h.arr[0 := names[i]];
    }
  }

  /** Putting another event name in place of the first element of `arr` changes only the
      event name of the binding. */
  lemma RenameEvent(arr: seq<String>, name: String, filters: seq<String>, handler: String, ctx: Context, g: Grammar)
    requires |arr| >= 1
    ensures var b := BindingEvent(arr, filters, handler, ctx, g);
      BindingEvent(arr[0 := name], filters, handler, ctx, g) == b.(obj := b.obj.(eventName := name))
  {
    assert arr[0 := name][1..] == arr[1..];
  }

  /** `parseEvent` applied to each candidate handler name. */
  function ParseAll(keys: seq<String>, g: Grammar, ctx: Context): (r: seq<Parse<seq<BoundEvent>>>)
    requires g.Valid()
    ensures |r| == |keys|
  {
    seq(|keys|, i requires 0 <= i < |keys| => ParseKey(keys[i], g, ctx))
  }

  /** `initialize`'s loop over the parses of the candidate names: the bindings of every
      name up to the first malformed one, and that name (the source throws there). */
  function Collect<T>(rs: seq<Parse<seq<T>>>): (r: (seq<T>, Option<String>))
    decreases |rs|
  {
    if rs == [] then ([], None)
    else match rs[0]
      case Malformed(k) => ([], Some(k))
      case Parsed(bs) =>
        var rest := Collect(rs[1..]);
        (bs + rest.0, rest.1)
  }

  /** Collecting stops at the first malformed parse and reports its name; without one
      every binding list is kept, in order. */
  lemma {:induction false} CollectOutcome<T>(rs: seq<Parse<seq<T>>>)
    ensures var r := Collect(rs);
      && (r.1.None? <==> forall i :: 0 <= i < |rs| ==> rs[i].Parsed?)
      && (r.1.Some? ==> exists i :: 0 <= i < |rs| && rs[i] == Malformed(r.1.value)
                                    && forall j :: 0 <= j < i ==> rs[j].Parsed?)
    decreases |rs|
  {
    if rs != [] {
      CollectOutcome(rs[1..]);
      var r := Collect(rs);
      if rs[0].Parsed? {
        if r.1.Some? {
          var i :| 0 <= i < |rs[1..]| && rs[1..][i] == Malformed(r.1.value)
                   && forall j :: 0 <= j < i ==> rs[1..][j].Parsed?;
          assert rs[i + 1] == Malformed(r.1.value);
          forall j | 0 <= j < i + 1 ensures rs[j].Parsed? {
            if j > 0 { assert rs[j] == rs[1..][j - 1]; }
          }
        } else {
          forall i | 0 <= i < |rs| ensures rs[i].Parsed? {
            if i > 0 { assert rs[i] == rs[1..][i - 1]; }
          }
        }
      }
    }
  }

  /** Appending one more parse to a prefix with no malformed name: the step of
      `initialize`'s loop. */
  lemma {:induction false} CollectSnoc<T>(rs: seq<Parse<seq<T>>>, x: Parse<seq<T>>)
    requires Collect(rs).1.None?
    ensures Collect(rs + [x]) ==
      match x
      case Malformed(k) => (Collect(rs).0, Some(k))
      case Parsed(bs) => (Collect(rs).0 + bs, None)
    decreases |rs|
  {
    if rs == [] {
      assert rs + [x] == [x] && [x][0] == x && [x][1..] == [];
      match x
      case Malformed(k) =>
      case Parsed(bs) =>
        var empty: seq<Parse<seq<T>>> := [];
        assert Collect(empty) == ([], None);
        assert Collect([x]) == (bs + Collect(empty).0, Collect(empty).1);
        assert bs + [] == bs && [] + bs == bs;
    } else {
      assert (rs + [x])[0] == rs[0] && (rs + [x])[1..] == rs[1..] + [x];
      var head := rs[0].value;
      CollectSnoc(rs[1..], x);
      match x
      case Malformed(k) =>
      case Parsed(bs) =>
        assert head + (Collect(rs[1..]).0 + bs) == (head + Collect(rs[1..]).0) + bs;
    }
  }
}
