/** The binding registry of DomEventHandler: every parsed binding is recorded in
    `_bindings` and attached as a native listener; `destroy` detaches them all and
    empties the list; `initialize` destroys and then parses every candidate handler
    name again. */
module Registry {
  import opened Text
  import opened Component
  import opened Descriptor

  /** A native listener registration: element, event type, identity of the listener
      closure, and options. */
  datatype Listener = Listener(node: Option<NodeId>, eventName: String, callback: nat, options: ListenerOptions)

  /** One call into the platform: `addEventListener` or `removeEventListener`. */
  datatype NativeCall = Attached(listener: Listener) | Detached(listener: Listener)

  /** A live binding (`eventObject` once `addEvent` has set its `callback`): the parsed
      binding and the identity of the listener closure `makeCallback` built for it. */
  datatype Binding = Binding(event: BoundEvent, callback: nat)

  /** The registration `addEvent` makes for a binding, with the options it chooses. */
  function ListenerOf(b: Binding): (l: Listener)
    ensures l.node == b.event.dom && l.eventName == b.event.obj.eventName && l.callback == b.callback
    ensures l.options.capture <==> |b.event.obj.captures| > 0
    ensures l.options.Passive? <==> b.event.obj.eventName in ScrollBlockingEvents + ObjectPrototypeNames
  {
    Listener(b.event.dom, b.event.obj.eventName, b.callback,
             ListenerOptionsFor(b.event.obj.eventName, b.event.obj.captures))
  }

  function ListenersOf(bs: seq<Binding>): multiset<Listener>
    decreases |bs|
  {
    if bs == [] then multiset{} else multiset{ListenerOf(bs[0])} + ListenersOf(bs[1..])
  }

  function Attachments(bs: seq<Binding>): seq<NativeCall>
    decreases |bs|
  {
    if bs == [] then [] else [Attached(ListenerOf(bs[0]))] + Attachments(bs[1..])
  }

  function Detachments(bs: seq<Binding>): seq<NativeCall>
    decreases |bs|
  {
    if bs == [] then [] else [Detached(ListenerOf(bs[0]))] + Detachments(bs[1..])
  }

  function EventsOf(bs: seq<Binding>): (r: seq<BoundEvent>)
    decreases |bs|
  {
    if bs == [] then [] else [bs[0].event] + EventsOf(bs[1..])
  }

  /** The listeners, calls and events of a concatenation are those of its parts. */
  lemma Concat(a: seq<Binding>, b: seq<Binding>)
    ensures ListenersOf(a + b) == ListenersOf(a) + ListenersOf(b)
    ensures Attachments(a + b) == Attachments(a) + Attachments(b)
    ensures Detachments(a + b) == Detachments(a) + Detachments(b)
    ensures EventsOf(a + b) == EventsOf(a) + EventsOf(b)
  {
    ConcatListeners(a, b);
    ConcatAttachments(a, b);
    ConcatDetachments(a, b);
    ConcatEvents(a, b);
  }

  lemma {:induction false} ConcatListeners(a: seq<Binding>, b: seq<Binding>)
    ensures ListenersOf(a + b) == ListenersOf(a) + ListenersOf(b)
    decreases |a|
  {
    if a == [] {
      assert a + b == b;
    } else {
      assert (a + b)[0] == a[0] && (a + b)[1..] == a[1..] + b;
      ConcatListeners(a[1..], b);
    }
  }

  lemma {:induction false} ConcatAttachments(a: seq<Binding>, b: seq<Binding>)
    ensures Attachments(a + b) == Attachments(a) + Attachments(b)
    decreases |a|
  {
    if a == [] {
      assert a + b == b;
    } else {
      assert (a + b)[0] == a[0] && (a + b)[1..] == a[1..] + b;
      ConcatAttachments(a[1..], b);
    }
  }

  lemma {:induction false} ConcatDetachments(a: seq<Binding>, b: seq<Binding>)
    ensures Detachments(a + b) == Detachments(a) + Detachments(b)
    decreases |a|
  {
    if a == [] {
      assert a + b == b;
    } else {
      assert (a + b)[0] == a[0] && (a + b)[1..] == a[1..] + b;
      ConcatDetachments(a[1..], b);
    }
  }

  lemma {:induction false} ConcatEvents(a: seq<Binding>, b: seq<Binding>)
    ensures EventsOf(a + b) == EventsOf(a) + EventsOf(b)
    decreases |a|
  {
    if a == [] {
      assert a + b == b;
    } else {
      assert (a + b)[0] == a[0] && (a + b)[1..] == a[1..] + b;
      ConcatEvents(a[1..], b);
    }
  }

  /** The platform's table of native listeners, as `Event.addEvent` and
      `Event.removeEvent` change it, and the log of those calls in order. */
  class NativeEvents {
    var listeners: multiset<Listener>
    var log: seq<NativeCall>

    constructor ()
      ensures listeners == multiset{} && log == []
    {
      listeners := multiset{};
      log := [];
    }

    /** `Event.addEvent(dom, eventName, callback, options)` */
    method AddEvent(l: Listener)
      modifies this
      ensures listeners == old(listeners) + multiset{l}
      ensures log == old(log) + [Attached(l)]
    {
      listeners := listeners + multiset{l};
      log := log + [Attached(l)];
    }

    /** `Event.removeEvent(dom, eventName, callback)`: removing a listener that is not
        there changes nothing. */
    method RemoveEvent(l: Listener)
      modifies this
      ensures listeners == old(listeners) - multiset{l}
      ensures log == old(log) + [Detached(l)]
    {
      listeners := listeners - multiset{l};
      log := log + [Detached(l)];
    }
  }

  class DomEventHandler {
    /** The platform the listeners are attached to. */
    const native: NativeEvents
    /** The separators of the handler-name grammar. */
    const grammar: Grammar
    /** `this.context`: the owning component. */
    var context: Context
    /** `this._bindings` and whether it has been created yet. */
    var bindings: seq<Binding>
    var hasBindings: bool
    /** `this._domEvents`: the candidate handler names, computed on the first `initialize`. */
    var domEvents: Option<seq<String>>
    /** Identity of the next listener closure `makeCallback` creates. */
    var nextCallback: nat

    ghost predicate Valid()
      reads this
    {
      && grammar.Valid()
      && (!hasBindings ==> bindings == [])
      && forall i :: 0 <= i < |bindings| ==> bindings[i].callback < nextCallback
    }

    constructor (native: NativeEvents, grammar: Grammar, context: Context)
      requires grammar.Valid()
      ensures Valid() && this.native == native && this.grammar == grammar && this.context == context
      ensures bindings == [] && !hasBindings && domEvents.None?
    {
      this.native := native;
      this.grammar := grammar;
      this.context := context;
      bindings := [];
      hasBindings := false;
      domEvents := None;
      nextCallback := 0;
    }

    /** `getBindings()`: creates the list on first use. */
    method GetBindings() returns (bs: seq<Binding>)
      requires Valid()
      modifies this`bindings, this`hasBindings
      ensures Valid() && hasBindings
      ensures bindings == old(bindings) && bs == bindings
    {
      if !hasBindings {
        InitBindings();
      }
      bs := bindings;
    }

    /** `addBinding(obj)`: appends, without looking for an equal entry. */
    method AddBinding(b: Binding)
      requires Valid() && b.callback < nextCallback
      modifies this`bindings, this`hasBindings
      ensures Valid() && hasBindings
      ensures bindings == old(bindings) + [b]
    {
      var bs := GetBindings();
      bindings := bs + [b];
    }

    /** `initBindings()` */
    method InitBindings()
      requires Valid()
      modifies this`bindings, this`hasBindings
      ensures Valid()
      ensures bindings == [] && hasBindings
    {
      bindings := [];
      hasBindings := true;
    }

    /** `removeEvent({eventName, dom, callback})` */
    method RemoveEvent(b: Binding)
      modifies native
      ensures native.listeners == old(native.listeners) - multiset{ListenerOf(b)}
      ensures native.log == old(native.log) + [Detached(ListenerOf(b))]
    {
      native.RemoveEvent(ListenerOf(b));
    }

    /** `removeEventAll()`: detaches every recorded binding, in order, then empties the
        list; with nothing recorded it changes no listener. */
    method RemoveEventAll()
      requires Valid()
      modifies this`bindings, this`hasBindings, native
      ensures Valid() && bindings == [] && hasBindings
      ensures native.listeners == old(native.listeners) - ListenersOf(old(bindings))
      ensures native.log == old(native.log) + Detachments(old(bindings))
      ensures old(bindings) == [] ==> native.listeners == old(native.listeners)
    {
      var bs := GetBindings();
      var i := 0;
      while i < |bs|
        invariant 0 <= i <= |bs| && bindings == bs && Valid()
        invariant native.listeners == old(native.listeners) - ListenersOf(bs[..i])
        invariant native.log == old(native.log) + Detachments(bs[..i])
      {
        RemoveEvent(bs[i]);
        RemovalStep(old(native.listeners), old(native.log), bs, i);
        i := i + 1;
      }
      assert bs[..i] == bs;
      InitBindings();
    }

    /** `destroy()` */
    method Destroy()
      requires Valid()
      modifies this`bindings, this`hasBindings, native
      ensures Valid() && bindings == [] && hasBindings
      ensures native.listeners == old(native.listeners) - ListenersOf(old(bindings))
      ensures native.log == old(native.log) + Detachments(old(bindings))
    {
      RemoveEventAll();
    }

    /** `addEvent(eventObject, callback)`: builds a new listener closure, records the
        binding, and attaches the listener with the options of the dispatch policy. */
    method AddEvent(ev: BoundEvent) returns (b: Binding)
      requires Valid()
      modifies this`bindings, this`hasBindings, this`nextCallback, native
      ensures Valid()
      ensures b == Binding(ev, old(nextCallback)) && nextCallback == old(nextCallback) + 1
      ensures bindings == old(bindings) + [b]
      ensures native.listeners == old(native.listeners) + multiset{ListenerOf(b)}
      ensures native.log == old(native.log) + [Attached(ListenerOf(b))]
    {
      b := Binding(ev, nextCallback);
      nextCallback := nextCallback + 1;
      AddBinding(b);
      var options := ListenerOptionsFor(ev.obj.eventName, ev.obj.captures);
      native.AddEvent(Listener(ev.dom, ev.obj.eventName, b.callback, options));
    }

    /** `bindingEvent([eventName, dom, ...delegate], checkMethodFilters, callback)` */
    method BindingEvent(arr: seq<String>, filters: seq<String>, handler: String) returns (b: Binding)
      requires Valid() && |arr| >= 1
      modifies this`bindings, this`hasBindings, this`nextCallback, native
      ensures Valid()
      ensures b == Binding(Descriptor.BindingEvent(arr, filters, handler, context, grammar), old(nextCallback))
      ensures nextCallback == old(nextCallback) + 1
      ensures bindings == old(bindings) + [b]
      ensures native.listeners == old(native.listeners) + multiset{ListenerOf(b)}
      ensures native.log == old(native.log) + [Attached(ListenerOf(b))]
    {
      b := AddEvent(Descriptor.BindingEvent(arr, filters, handler, context, grammar));
    }

    /** `getEventNames(eventName)`: the `NAME_SAPARATOR` pieces of the event spec (each
        piece is split once more, which leaves it whole). */
    method GetEventNames(eventName: String) returns (results: seq<String>)
      requires grammar.Valid()
      ensures results == Split(eventName, grammar.name)
    {
      var pieces := Split(eventName, grammar.name);
      SplitPiecesFree(eventName, grammar.name);
      results := [];
      var i := 0;
      while i < |pieces|
        invariant 0 <= i <= |pieces|
        invariant results == pieces[..i]
      {
        SplitFree(pieces[i], grammar.name);
        var arr := Split(pieces[i], grammar.name);
        results := results + arr;
        assert pieces[..i + 1] == pieces[..i] + [pieces[i]];
        i := i + 1;
      }
      assert pieces[..i] == pieces;
    }

    /** `parseEvent(key)`: binds one listener per event name of the handler name, in
        order; a handler name without the event separator binds nothing and fails. */
    method ParseEvent(key: String) returns (ok: bool)
      requires Valid()
      modifies this`bindings, this`hasBindings, this`nextCallback, native
      ensures Valid()
      ensures ok == ParseKey(key, grammar, context).Parsed?
      ensures |old(bindings)| <= |bindings| && bindings[..|old(bindings)|] == old(bindings)
      ensures ok ==> EventsOf(bindings[|old(bindings)|..]) == ParseKey(key, grammar, context).value
      ensures !ok ==> bindings == old(bindings)
      ensures native.listeners == old(native.listeners) + ListenersOf(bindings[|old(bindings)|..])
      ensures native.log == old(native.log) + Attachments(bindings[|old(bindings)|..])
    {
      var header := ParseHeader(key, grammar);
      if header.Malformed? {
        assert bindings[|bindings|..] == [];
        return false;
      }
      BindEventNames(header.value, key);
      return true;
    }

    /** The loop of `parseEvent`: for each event name, put it in place of the event spec
        (`arr[0] = eventName`) and call `bindingEvent`. */
    method BindEventNames(h: Header, key: String)
      requires Valid() && |h.arr| >= 1
      modifies this`bindings, this`hasBindings, this`nextCallback, native
      ensures Valid()
      ensures |old(bindings)| <= |bindings| && bindings[..|old(bindings)|] == old(bindings)
      ensures EventsOf(bindings[|old(bindings)|..]) == FanOutEvents(h, key, context, grammar)
      ensures native.listeners == old(native.listeners) + ListenersOf(bindings[|old(bindings)|..])
      ensures native.log == old(native.log) + Attachments(bindings[|old(bindings)|..])
    {
      ghost var added: seq<Binding> := [];
      var arr := h.arr;
      var eventNames := GetEventNames(arr[0]);
      var i := 0;
      while i < |eventNames|
        invariant 0 <= i <= |eventNames| && Valid()
        invariant |arr| == |h.arr| && arr[1..] == h.arr[1..]
        invariant bindings == old(bindings) + added
        invariant EventsOf(added) == FanOutEvents(h, key, context, grammar)[..i]
        invariant native.listeners == old(native.listeners) + ListenersOf(added)
        invariant native.log == old(native.log) + Attachments(added)
      {
        arr := arr[0 := eventNames[i]];
        var b := BindOne(h, key, arr, i, added, old(native.listeners), old(native.log));
        Assoc(old(bindings), added, [b]);
        added := added + [b];
        i := i + 1;
      }
      assert FanOutEvents(h, key, context, grammar)[..i] == FanOutEvents(h, key, context, grammar);
      assert bindings[|old(bindings)|..] == added;
    }

    /** One turn of `parseEvent`'s loop: `bindingEvent` with the `i`-th event name in
        place of the event spec, which adds the `i`-th binding of the fan-out. */
    method BindOne(h: Header, key: String, arr: seq<String>, ghost i: nat, ghost added: seq<Binding>,
                   ghost m: multiset<Listener>, ghost log: seq<NativeCall>) returns (b: Binding)
      requires Valid() && |h.arr| >= 1
      requires i < |Split(h.arr[0], grammar.name)| && arr == h.arr[0 := Split(h.arr[0], grammar.name)[i]]
      requires EventsOf(added) == FanOutEvents(h, key, context, grammar)[..i]
      requires native.listeners == m + ListenersOf(added)
      requires native.log == log + Attachments(added)
      modifies this`bindings, this`hasBindings, this`nextCallback, native
      ensures Valid()
      ensures bindings == old(bindings) + [b]
      ensures EventsOf(added + [b]) == FanOutEvents(h, key, context, grammar)[..i + 1]
      ensures native.listeners == m + ListenersOf(added + [b])
      ensures native.log == log + Attachments(added + [b])
    {
      ghost var expected := FanOutEvents(h, key, context, grammar);
      b := BindingEvent(arr, h.filters, key);
      AppendStep(m, log, added, b, expected, i);
    }

    /** `initialize()`: destroys every binding, takes the candidate handler names (kept
        from the first call), and parses each in turn; a malformed name stops the loop
        and is reported. Afterwards the registry holds exactly the bindings parsed in
        this call. */
    method Initialize(candidates: seq<String>) returns (failed: Option<String>)
      requires Valid()
      modifies this`bindings, this`hasBindings, this`nextCallback, this`domEvents, native
      ensures Valid()
      ensures domEvents == if old(domEvents).Some? then old(domEvents) else Some(candidates)
      ensures (EventsOf(bindings), failed) == Collect(ParseAll(domEvents.value, grammar, context))
      ensures native.listeners == old(native.listeners) - ListenersOf(old(bindings)) + ListenersOf(bindings)
      ensures native.log == old(native.log) + Detachments(old(bindings)) + Attachments(bindings)
    {
      Destroy();
      if domEvents.None? {
        domEvents := Some(candidates);
      }
      failed := ParseKeys(domEvents.value);
    }

    /** The loop of `initialize`, run on an empty registry: parses every key in order and
        stops at the first malformed one, which it reports. */
    method ParseKeys(keys: seq<String>) returns (failed: Option<String>)
      requires Valid() && bindings == []
      modifies this`bindings, this`hasBindings, this`nextCallback, native
      ensures Valid()
      ensures (EventsOf(bindings), failed) == Collect(ParseAll(keys, grammar, context))
      ensures native.listeners == old(native.listeners) + ListenersOf(bindings)
      ensures native.log == old(native.log) + Attachments(bindings)
    {
      ghost var m := native.listeners;
      ghost var log := native.log;
      ghost var rs := ParseAll(keys, grammar, context);
      var i := 0;
      assert rs[..0] == [];
      while i < |keys|
        invariant 0 <= i <= |keys| && Valid()
        invariant Collect(rs[..i]) == (EventsOf(bindings), None)
        invariant native.listeners == m + ListenersOf(bindings)
        invariant native.log == log + Attachments(bindings)
      {
        var ok := ParseOne(keys, i, m, log);
        if !ok {
          return Some(keys[i]);
        }
        i := i + 1;
      }
      assert rs[..i] == rs;
      return None;
    }

    /** One turn of `initialize`'s loop: `parseEvent` on the `i`-th candidate name, which
        either extends what has been collected or ends the collection with that name. */
    method ParseOne(keys: seq<String>, i: nat, ghost m: multiset<Listener>, ghost log: seq<NativeCall>) returns (ok: bool)
      requires Valid() && i < |keys|
      requires Collect(ParseAll(keys, grammar, context)[..i]) == (EventsOf(bindings), None)
      requires native.listeners == m + ListenersOf(bindings)
      requires native.log == log + Attachments(bindings)
      modifies this`bindings, this`hasBindings, this`nextCallback, native
      ensures Valid()
      ensures ok ==> Collect(ParseAll(keys, grammar, context)[..i + 1]) == (EventsOf(bindings), None)
      ensures !ok ==> Collect(ParseAll(keys, grammar, context)) == (EventsOf(bindings), Some(keys[i]))
      ensures native.listeners == m + ListenersOf(bindings)
      ensures native.log == log + Attachments(bindings)
    {
      ghost var rs := ParseAll(keys, grammar, context);
      ghost var before := bindings;
      ok := ParseEvent(keys[i]);
      SuffixStep(before, bindings, m, log);
      KeyStep(rs, i, EventsOf(before), EventsOf(bindings), ok);
    }
  }

  lemma RemovalStep(m: multiset<Listener>, log: seq<NativeCall>, bs: seq<Binding>, i: nat)
    requires i < |bs|
    ensures m - ListenersOf(bs[..i]) - multiset{ListenerOf(bs[i])} == m - ListenersOf(bs[..i + 1])
    ensures log + Detachments(bs[..i]) + [Detached(ListenerOf(bs[i]))] == log + Detachments(bs[..i + 1])
  {
    assert bs[..i + 1] == bs[..i] + [bs[i]];
    Concat(bs[..i], [bs[i]]);
    assert ListenersOf([bs[i]]) == multiset{ListenerOf(bs[i])};
    assert Detachments([bs[i]]) == [Detached(ListenerOf(bs[i]))];
  }

  lemma AppendStep(m: multiset<Listener>, log: seq<NativeCall>, added: seq<Binding>,
                   b: Binding, expected: seq<BoundEvent>, i: nat)
    requires i < |expected| && EventsOf(added) == expected[..i] && b.event == expected[i]
    ensures EventsOf(added + [b]) == expected[..i + 1]
    ensures m + ListenersOf(added) + multiset{ListenerOf(b)} == m + ListenersOf(added + [b])
    ensures log + Attachments(added) + [Attached(ListenerOf(b))] == log + Attachments(added + [b])
  {
    AppendEvent(added, b, expected, i);
    AppendListener(m, added, b);
    AppendAttachment(log, added, b);
  }

  lemma AppendEvent(added: seq<Binding>, b: Binding, expected: seq<BoundEvent>, i: nat)
    requires i < |expected| && EventsOf(added) == expected[..i] && b.event == expected[i]
    ensures EventsOf(added + [b]) == expected[..i + 1]
  {
    ConcatEvents(added, [b]);
    assert EventsOf([b]) == [b.event];
    assert expected[..i + 1] == expected[..i] + [expected[i]];
  }

  lemma AppendListener(m: multiset<Listener>, added: seq<Binding>, b: Binding)
    ensures m + ListenersOf(added) + multiset{ListenerOf(b)} == m + ListenersOf(added + [b])
  {
    ConcatListeners(added, [b]);
    assert ListenersOf([b]) == multiset{ListenerOf(b)};
  }

  lemma AppendAttachment(log: seq<NativeCall>, added: seq<Binding>, b: Binding)
    ensures log + Attachments(added) + [Attached(ListenerOf(b))] == log + Attachments(added + [b])
  {
    ConcatAttachments(added, [b]);
    assert Attachments([b]) == [Attached(ListenerOf(b))];
  }

  /** Concatenation is associative; stated on its own so that proofs using it need not
      unfold the functions that build the operands. */
  lemma Assoc<T>(a: seq<T>, b: seq<T>, c: seq<T>)
    ensures a + b + c == a + (b + c)
  {
  }

  /** One key of `initialize`: a parsed key extends what has been collected, a
      malformed one ends the collection. */
  lemma KeyStep<T>(rs: seq<Parse<seq<T>>>, i: nat, done: seq<T>, now: seq<T>, ok: bool)
    requires i < |rs| && Collect(rs[..i]) == (done, None)
    requires ok == rs[i].Parsed?
    requires ok ==> now == done + rs[i].value
    ensures ok ==> Collect(rs[..i + 1]) == (now, None)
    ensures !ok ==> Collect(rs) == (done, Some(rs[i].key))
  {
    if ok {
      assert rs[..i + 1] == rs[..i] + [rs[i]];
      CollectSnoc(rs[..i], rs[i]);
    } else {
      CollectStops(rs, i);
    }
  }

  /** The listeners and calls of an extended binding list are those of its prefix
      followed by those of the extension. */
  lemma SuffixStep(before: seq<Binding>, after: seq<Binding>, m: multiset<Listener>, log: seq<NativeCall>)
    requires |before| <= |after| && after[..|before|] == before
    ensures after == before + after[|before|..]
    ensures EventsOf(after) == EventsOf(before) + EventsOf(after[|before|..])
    ensures m + ListenersOf(before) + ListenersOf(after[|before|..]) == m + ListenersOf(after)
    ensures log + Attachments(before) + Attachments(after[|before|..]) == log + Attachments(after)
  {
    var added := after[|before|..];
    assert after == before + added;
    ExtendListeners(m, before, added);
    ExtendAttachments(log, before, added);
    ConcatEvents(before, added);
  }

  lemma ExtendListeners(m: multiset<Listener>, a: seq<Binding>, b: seq<Binding>)
    ensures m + ListenersOf(a) + ListenersOf(b) == m + ListenersOf(a + b)
  {
    ConcatListeners(a, b);
  }

  lemma ExtendAttachments(log: seq<NativeCall>, a: seq<Binding>, b: seq<Binding>)
    ensures log + Attachments(a) + Attachments(b) == log + Attachments(a + b)
  {
    ConcatAttachments(a, b);
    Assoc(log, Attachments(a), Attachments(b));
  }

  /** Once a malformed parse is reached, what follows it is not collected. */
  lemma {:induction false} CollectStops<T>(rs: seq<Parse<seq<T>>>, i: nat)
    requires i < |rs| && rs[i].Malformed? && Collect(rs[..i]).1.None?
    ensures Collect(rs) == (Collect(rs[..i]).0, Some(rs[i].key))
    decreases i
  {
    if i == 0 {
      assert rs[..0] == [];
    } else {
      assert rs[..i][0] == rs[0] && rs[..i][1..] == rs[1..][..i - 1];
      CollectStops(rs[1..], i - 1);
    }
  }
}
