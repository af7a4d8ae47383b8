/** The listener DomEventHandler builds around a user callback: delegation by walking up
    the ancestor chain, before hooks, the keycode and check-method guards, the (possibly
    rate-limited) callback, and after hooks. One dispatch is a pure function of the event,
    the binding, the component's members and the values the invoked members return. */
module Pipeline {
  import opened Text
  import opened Component
  import opened Descriptor

  /** One invocation the listener makes during a dispatch. */
  datatype Call =
    | Before(hook: MethodRef)                                          // `context[target].call(context, e, param)`
    | Check(name: String)                                              // `context[field].call(context, e)`
    | Handler(name: String, delegateTarget: Option<NodeId>, limiter: Limiter) // the wrapped user callback
    | After(hook: MethodRef)

  /** What one dispatch did: the invocations in order, and the listener's return value. */
  datatype Outcome = Outcome(calls: seq<Call>, result: JsValue)

  // ---------------------------------------------------------------------------
  // Delegation

  /** `matchPath(el, selector)` walked along `el`'s inclusive ancestor chain: the nearest
      element that matches, or none when no element of the chain does. */
  function MatchPath(doc: Document, chain: seq<NodeId>, selector: String): (r: Option<NodeId>)
    ensures r.Some? ==> exists i :: 0 <= i < |chain| && chain[i] == r.value && doc.Matches(r.value, selector)
                                    && forall j :: 0 <= j < i ==> !doc.Matches(chain[j], selector)
    ensures r.None? <==> forall i :: 0 <= i < |chain| ==> !doc.Matches(chain[i], selector)
    decreases |chain|
  {
    if chain == [] then None
    else if doc.Matches(chain[0], selector) then Some(chain[0])
    else
      var r := MatchPath(doc, chain[1..], selector);
      assert forall i :: 1 <= i < |chain| ==> chain[i] == chain[1..][i - 1];
      r
  }

  /** `hasDelegate(e, eventObject)`: the nearest element from the event's target upwards
      that matches the delegate selector. */
  function HasDelegate(doc: Document, e: Event, b: BoundEvent): (r: Option<NodeId>)
    ensures r.Some? ==> r.value in e.chain && doc.Matches(r.value, b.delegate)
    ensures r.None? <==> forall n :: n in e.chain ==> !doc.Matches(n, b.delegate)
  {
    MatchPath(doc, e.chain, b.delegate)
  }

  // ---------------------------------------------------------------------------
  // Before hooks

  /** `beforeMethods.every(...)`: the hooks are invoked in order until one returns a
      falsy value. */
  function RunBefores(hooks: seq<MethodRef>, answer: Call -> JsValue): (calls: seq<Call>)
    ensures |calls| <= |hooks|
    ensures forall i :: 0 <= i < |calls| ==> calls[i] == Before(hooks[i])
    ensures forall i :: 0 <= i < |calls| - 1 ==> answer(calls[i]).IsTruthy()
    ensures |calls| < |hooks| ==> |calls| > 0 && !answer(calls[|calls| - 1]).IsTruthy()
    decreases |hooks|
  {
    if hooks == [] then []
    else if answer(Before(hooks[0])).IsTruthy() then [Before(hooks[0])] + RunBefores(hooks[1..], answer)
    else [Before(hooks[0])]
  }

  // ---------------------------------------------------------------------------
  // Guards

  /** The keycode guard: no codes, or the lower-cased `e.code` or `e.key` (when present)
      is one of them. */
  predicate HasKeyCode(e: Event, codes: seq<String>)
  {
    |codes| == 0 || (e.code != [] && ToLower(e.code) in codes) || (e.key != [] && ToLower(e.key) in codes)
  }

  /** Whether one check entry passes: a method passes when its result is truthy, a
      defined value when it is truthy, and an undefined member always passes. */
  predicate CheckEntry(members: map<String, Member>, name: String, answer: Call -> JsValue)
  {
    match Lookup(members, name)
    case Method => answer(Check(name)).IsTruthy()
    case Element(_) => true
    case Data(v) => v.Undefined? || v.IsTruthy()
  }

  /** The invocations a check entry makes: only a method entry is called. */
  function CheckCalls(members: map<String, Member>, names: seq<String>): seq<Call>
    decreases |names|
  {
    if names == [] then []
    else (if Lookup(members, names[0]).Method? then [Check(names[0])] else []) + CheckCalls(members, names[1..])
  }

  /** `checkMethodList.every(...)`: the verdict and the calls made, stopping at the
      first entry that fails. */
  function EveryCheck(names: seq<String>, members: map<String, Member>, answer: Call -> JsValue): (r: (bool, seq<Call>))
    ensures r.0 <==> forall i :: 0 <= i < |names| ==> CheckEntry(members, names[i], answer)
    decreases |names|
  {
    if names == [] then (true, [])
    else
      var called := if Lookup(members, names[0]).Method? then [Check(names[0])] else [];
      if CheckEntry(members, names[0], answer) then
        var rest := EveryCheck(names[1..], members, answer);
        assert forall i :: 1 <= i < |names| ==> names[i] == names[1..][i - 1];
        (rest.0, called + rest.1)
      else (false, called)
  }

  /** The entries of `names` up to `k` were evaluated, producing the calls `r.1`; every
      entry before the last evaluated one passed; the verdict `r.0` is true exactly when
      all entries were evaluated and the last one passed too. */
  ghost predicate StopsAt(names: seq<String>, members: map<String, Member>, answer: Call -> JsValue,
                          r: (bool, seq<Call>), k: int)
  {
    && 0 <= k <= |names| && r.1 == CheckCalls(members, names[..k])
    && (forall j :: 0 <= j < k && (r.0 || j < k - 1) ==> CheckEntry(members, names[j], answer))
    && (r.0 ==> k == |names|)
    && (!r.0 ==> k > 0 && !CheckEntry(members, names[k - 1], answer))
  }

  /** The checks stop at the first failing entry: the calls made are those of the entries
      up to and including it, and every entry before it passed. */
  lemma {:induction false} EveryCheckShortCircuit(names: seq<String>, members: map<String, Member>, answer: Call -> JsValue)
    ensures exists k :: StopsAt(names, members, answer, EveryCheck(names, members, answer), k)
    decreases |names|
  {
    var r := EveryCheck(names, members, answer);
    if names == [] {
      assert names[..0] == [];
      assert StopsAt(names, members, answer, r, 0);
    } else if CheckEntry(members, names[0], answer) {
      EveryCheckShortCircuit(names[1..], members, answer);
      var k :| StopsAt(names[1..], members, answer, EveryCheck(names[1..], members, answer), k);
      ShortCircuitStep(names, members, answer, k);
    } else {
      assert names[..1] == [names[0]] && names[..1][1..] == [];
      assert StopsAt(names, members, answer, r, 1);
    }
  }

  lemma ShortCircuitStep(names: seq<String>, members: map<String, Member>, answer: Call -> JsValue, k: int)
    requires names != [] && CheckEntry(members, names[0], answer)
    requires StopsAt(names[1..], members, answer, EveryCheck(names[1..], members, answer), k)
    ensures StopsAt(names, members, answer, EveryCheck(names, members, answer), k + 1)
  {
    var r := EveryCheck(names, members, answer);
    var rest := EveryCheck(names[1..], members, answer);
    assert r.0 == rest.0;
    StepCalls(names, members, answer, k);
    StepPasses(names, members, answer, k, rest.0);
  }

  /** The calls of the checks before the stopping point, one entry further on. */
  lemma StepCalls(names: seq<String>, members: map<String, Member>, answer: Call -> JsValue, k: int)
    requires names != [] && CheckEntry(members, names[0], answer) && 0 <= k < |names|
    requires EveryCheck(names[1..], members, answer).1 == CheckCalls(members, names[1..][..k])
    ensures EveryCheck(names, members, answer).1 == CheckCalls(members, names[..k + 1])
  {
    assert names[..k + 1][0] == names[0] && names[..k + 1][1..] == names[1..][..k];
  }

  /** The entries before the stopping point passed, one entry further on. */
  lemma StepPasses(names: seq<String>, members: map<String, Member>, answer: Call -> JsValue, k: int, all: bool)
    requires names != [] && CheckEntry(members, names[0], answer) && 0 <= k < |names|
    requires forall j :: 0 <= j < k && (all || j < k - 1) ==> CheckEntry(members, names[1..][j], answer)
    requires !all ==> k > 0 && !CheckEntry(members, names[1..][k - 1], answer)
    ensures forall j :: 0 <= j < k + 1 && (all || j < k) ==> CheckEntry(members, names[j], answer)
    ensures !all ==> !CheckEntry(members, names[k], answer)
  {
    forall j | 0 <= j < k + 1 && (all || j < k) ensures CheckEntry(members, names[j], answer) {
      if j > 0 { assert names[j] == names[1..][j - 1]; }
    }
    if !all { assert names[k] == names[1..][k - 1]; }
  }

  /** `checkEventType(e, eventObject)`: the verdict and the check methods it invoked.
      Both guards are evaluated; the check methods run even when the keycode fails. */
  function CheckEventType(e: Event, obj: EventObject, members: map<String, Member>, answer: Call -> JsValue): (r: (bool, seq<Call>))
    ensures |obj.codes| == 0 && |obj.checkMethodList| == 0 ==> r == (true, [])
  {
    var hasKeyCode := HasKeyCode(e, obj.codes);
    var (isAllCheck, calls) := if |obj.checkMethodList| > 0 then EveryCheck(obj.checkMethodList, members, answer) else (true, []);
    (hasKeyCode && isAllCheck, calls)
  }

  /** Reference definition of the guards, with no short-circuit. */
  predicate GuardsPass(e: Event, obj: EventObject, members: map<String, Member>, answer: Call -> JsValue)
  {
    HasKeyCode(e, obj.codes) && forall name :: name in obj.checkMethodList ==> CheckEntry(members, name, answer)
  }

  /** `checkEventType` passes exactly when the keycode guard holds and every check entry
      passes; it invokes only check methods of the list. */
  lemma Guards(e: Event, obj: EventObject, members: map<String, Member>, answer: Call -> JsValue)
    ensures CheckEventType(e, obj, members, answer).0 <==> GuardsPass(e, obj, members, answer)
    ensures forall c :: c in CheckEventType(e, obj, members, answer).1 ==> c.Check? && c.name in obj.checkMethodList
  {
    var names := obj.checkMethodList;
    EveryCheckShortCircuit(names, members, answer);
    var r := EveryCheck(names, members, answer);
    var k :| StopsAt(names, members, answer, r, k);
    CheckCallsAreChecks(members, names[..k]);
    forall name | name in names ensures (exists i :: 0 <= i < |names| && names[i] == name) {
      var i :| 0 <= i < |names| && names[i] == name;
    }
  }

  lemma {:induction false} CheckCallsAreChecks(members: map<String, Member>, names: seq<String>)
    ensures forall c :: c in CheckCalls(members, names) ==> c.Check? && c.name in names
    decreases |names|
  {
    if names != [] {
      CheckCallsAreChecks(members, names[1..]);
      forall c | c in CheckCalls(members, names) ensures c.Check? && c.name in names {
        if c !in CheckCalls(members, names[1..]) {
          assert c == Check(names[0]);
        }
      }
    }
  }

  // ---------------------------------------------------------------------------
  // The listener

  /** `afterMethods.forEach(...)`: one invocation per after hook, in order. */
  function AfterCalls(hooks: seq<MethodRef>): seq<Call>
  {
    seq(|hooks|, i requires 0 <= i < |hooks| => After(hooks[i]))
  }

  /** `runEventCallback(e, eventObject, callback)`: the callback receives the event's
      current delegate target `e.$dt`. */
  function RunEventCallback(e: Event, b: BoundEvent, members: map<String, Member>, answer: Call -> JsValue): (r: Outcome)
    ensures r.result == Undefined || r.result == answer(Handler(b.handler, e.dt, b.limiter))
  {
    var befores := if |b.obj.beforeMethods| > 0 then RunBefores(b.obj.beforeMethods, answer) else [];
    var (pass, checks) := CheckEventType(e, b.obj, members, answer);
    if pass then
      var call := Handler(b.handler, e.dt, b.limiter);
      var returnValue := answer(call);
      var afters := if returnValue != False && |b.obj.afterMethods| > 0 then AfterCalls(b.obj.afterMethods) else [];
      Outcome(befores + checks + [call] + afters, returnValue)
    else
      Outcome(befores + checks, Undefined)
  }

  /** The listener `makeCallback` builds: `makeDelegateCallback` when the joined delegate
      selector is non-empty, `makeDefaultCallback` otherwise. Besides what the run did,
      the result holds the event object as the listener leaves it: a delegated listener
      that finds its target writes it to `e.$dt`. */
  function Dispatch(doc: Document, e: Event, b: BoundEvent, members: map<String, Member>, answer: Call -> JsValue): (r: (Outcome, Event))
    ensures r.1.chain == e.chain && r.1.code == e.code && r.1.key == e.key
    ensures b.delegate == [] ==> r.1 == e
  {
    if b.delegate != [] then
      match HasDelegate(doc, e, b)
      case None => (Outcome([], Undefined), e)
      case Some(t) =>
        var stamped := e.(dt := Some(t));
        (RunEventCallback(stamped, b, members, answer), stamped)
    else (RunEventCallback(e, b, members, answer), e)
  }

  /** The shape of one run: the before hooks that ran and the check methods invoked,
      then, only when the guards pass, the callback and the after hooks it lets run. */
  lemma RunShape(e: Event, b: BoundEvent, members: map<String, Member>, answer: Call -> JsValue)
    ensures var o := RunEventCallback(e, b, members, answer);
      var head := RunBefores(b.obj.beforeMethods, answer) + CheckEventType(e, b.obj, members, answer).1;
      var call := Handler(b.handler, e.dt, b.limiter);
      && (forall c :: c in head ==> c.Before? || c.Check?)
      && (GuardsPass(e, b.obj, members, answer) ==>
            o == Outcome(head + [call] + (if answer(call) == False then [] else AfterCalls(b.obj.afterMethods)), answer(call)))
      && (!GuardsPass(e, b.obj, members, answer) ==> o == Outcome(head, Undefined))
  {
    var befores := RunBefores(b.obj.beforeMethods, answer);
    var checks := CheckEventType(e, b.obj, members, answer).1;
    Guards(e, b.obj, members, answer);
    assert |b.obj.beforeMethods| == 0 ==> befores == [];
    assert |b.obj.afterMethods| == 0 ==> AfterCalls(b.obj.afterMethods) == [];
    forall c: Call | c in befores + checks ensures c.Before? || c.Check? {
      if c in befores {
        var i :| 0 <= i < |befores| && befores[i] == c;
      }
    }
  }

  /** Hook order, guards failing: the before hooks still ran, in order and up to the
      first falsy one; the callback and the after hooks do not run; the result is
      `undefined`. */
  lemma HookOrderGuardsFail(e: Event, b: BoundEvent, members: map<String, Member>, answer: Call -> JsValue)
    requires !GuardsPass(e, b.obj, members, answer)
    ensures var o := RunEventCallback(e, b, members, answer);
      var befores := RunBefores(b.obj.beforeMethods, answer);
      && |befores| <= |o.calls| && o.calls[..|befores|] == befores
      && o.result == Undefined
      && forall c :: c in o.calls ==> !c.Handler? && !c.After?
  {
    RunShape(e, b, members, answer);
  }

  /** Hook order, guards passing: the before hooks come first, then the callback runs
      exactly once, its value is the result, and all after hooks follow it in order
      unless it returned exactly `false`. */
  lemma HookOrderGuardsPass(e: Event, b: BoundEvent, members: map<String, Member>, answer: Call -> JsValue)
    requires GuardsPass(e, b.obj, members, answer)
    ensures var o := RunEventCallback(e, b, members, answer);
      var befores := RunBefores(b.obj.beforeMethods, answer);
      var call := Handler(b.handler, e.dt, b.limiter);
      var afters := if o.result == False then [] else AfterCalls(b.obj.afterMethods);
      && |befores| <= |o.calls| && o.calls[..|befores|] == befores
      && o.result == answer(call)
      && |afters| < |o.calls| && o.calls[|o.calls| - |afters| - 1..] == [call] + afters
      && forall i :: 0 <= i < |o.calls| && o.calls[i].Handler? ==> i == |o.calls| - |afters| - 1
  {
    RunShape(e, b, members, answer);
    var o := RunEventCallback(e, b, members, answer);
    var befores := RunBefores(b.obj.beforeMethods, answer);
    var checks := CheckEventType(e, b.obj, members, answer).1;
    var call := Handler(b.handler, e.dt, b.limiter);
    var afters := if o.result == False then [] else AfterCalls(b.obj.afterMethods);
    forall c | c in afters ensures c.After? {
      var i :| 0 <= i < |afters| && afters[i] == c;
    }
    CallsLayout(befores, checks, call, afters);
  }

  /** Where the callback sits in a run that reaches it: after the before hooks and the
      checks, which never include it, and before the after hooks, which never do either. */
  lemma CallsLayout(befores: seq<Call>, checks: seq<Call>, call: Call, afters: seq<Call>)
    requires forall c :: c in befores + checks ==> c.Before? || c.Check?
    requires forall c :: c in afters ==> c.After?
    ensures var calls := befores + checks + [call] + afters;
      && calls[..|befores|] == befores
      && calls[|calls| - |afters| - 1..] == [call] + afters
      && forall i :: 0 <= i < |calls| && calls[i].Handler? ==> i == |calls| - |afters| - 1
  {
    var head := befores + checks;
    var calls := head + [call] + afters;
    assert calls[..|befores|] == befores;
    forall i | 0 <= i < |head| ensures !calls[i].Handler? {
      assert calls[i] == head[i] && head[i] in head;
    }
    forall i | |head| < i < |calls| ensures !calls[i].Handler? {
      assert calls[i] == afters[i - |head| - 1] && afters[i - |head| - 1] in afters;
    }
  }

  /** Delegation: a delegated listener runs the pipeline only when some element of the
      target's inclusive ancestor chain matches the selector, with the nearest such
      element as the delegate target, which it also leaves on the event; otherwise it
      invokes nothing and returns `undefined`. A listener without a delegate selector
      always runs the pipeline with the delegate target the event already carries. */
  lemma Delegation(doc: Document, e: Event, b: BoundEvent, members: map<String, Member>, answer: Call -> JsValue)
    ensures b.delegate == [] ==> Dispatch(doc, e, b, members, answer) == (RunEventCallback(e, b, members, answer), e)
    ensures b.delegate != [] && (forall i :: 0 <= i < |e.chain| ==> !doc.Matches(e.chain[i], b.delegate)) ==>
      Dispatch(doc, e, b, members, answer) == (Outcome([], Undefined), e)
    ensures b.delegate != [] && (exists i :: 0 <= i < |e.chain| && doc.Matches(e.chain[i], b.delegate)) ==>
      exists i :: 0 <= i < |e.chain| && doc.Matches(e.chain[i], b.delegate)
        && (forall j :: 0 <= j < i ==> !doc.Matches(e.chain[j], b.delegate))
        && Dispatch(doc, e, b, members, answer).1 == e.(dt := Some(e.chain[i]))
        && Dispatch(doc, e, b, members, answer).0 == RunEventCallback(e.(dt := Some(e.chain[i])), b, members, answer)
  {
    if b.delegate != [] && (exists i :: 0 <= i < |e.chain| && doc.Matches(e.chain[i], b.delegate)) {
      var m := MatchPath(doc, e.chain, b.delegate);
      var i :| 0 <= i < |e.chain| && e.chain[i] == m.value && doc.Matches(m.value, b.delegate)
               && forall j :: 0 <= j < i ==> !doc.Matches(e.chain[j], b.delegate);
    }
  }

  /** The event object is shared along propagation: when a delegated listener has found
      its target, a listener without a delegate selector that the same event reaches next
      hands that target to its callback. */
  lemma SharedDelegateTarget(doc: Document, e: Event, first: BoundEvent, second: BoundEvent,
                             members: map<String, Member>, answer: Call -> JsValue)
    requires first.delegate != [] && second.delegate == []
    requires HasDelegate(doc, e, first).Some?
    ensures var next := Dispatch(doc, e, first, members, answer).1;
      && next.dt == HasDelegate(doc, e, first)
      && Dispatch(doc, next, second, members, answer).0 == RunEventCallback(e.(dt := HasDelegate(doc, e, first)), second, members, answer)
  {
  }

  /** A keyword such as `enter` that no bucket claims and no member names is a keycode
      and nothing else. */
  lemma EnterIsCode(members: map<String, Member>)
    requires "enter" !in members
    ensures var o := GetDefaultEventObject("click", ["enter"], members);
      o.codes == ["enter"] && o.checkMethodList == [] && o.beforeMethods == [] && o.afterMethods == []
  {
    Classify("click", ["enter"], members);
    var keep := (k: String) => !Claimed(members, k);
    assert "enter"[0] == 'e';
    assert !IsPrefix(AfterWord, "enter") && !IsPrefix(BeforeWord, "enter") && !IsPrefix(DebounceWord, "enter")
      && !IsPrefix(ThrottleWord, "enter") && !IsPrefix(CaptureWord, "enter") by {
      assert AfterWord[0] == 'a' && BeforeWord[0] == 'b' && DebounceWord[0] == 'd';
      assert ThrottleWord[0] == 't' && CaptureWord[0] == 'c';
    }
    assert keep("enter");
    assert Filter(keep, ["enter"]) == ["enter"];
    assert ToLower("enter") == "enter";
    var p := (code: String) => Lookup(members, code).IsTruthy();
    assert Filter(p, ["enter"]) == [];
  }

  /** A click bound with the keyword `enter`: a click carrying key `Enter` passes the
      guard and reaches the handler, one carrying `Escape` does not. */
  lemma EnterKeyScenario(b: BoundEvent, members: map<String, Member>, answer: Call -> JsValue)
    requires "enter" !in members
    requires b.obj == GetDefaultEventObject("click", ["enter"], members)
    ensures b.obj.codes == ["enter"]
    ensures RunEventCallback(Event([], [], "Enter", None), b, members, answer).calls
              == [Handler(b.handler, None, b.limiter)]
    ensures RunEventCallback(Event([], [], "Escape", None), b, members, answer)
              == Outcome([], Undefined)
  {
    EnterIsCode(members);
    assert ToLower("Enter") == "enter";
    assert ToLower("Escape") != "enter" by { assert ToLower("Escape")[1] == 's'; }
  }
}
