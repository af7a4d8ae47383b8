# DomEventHandler: declarative DOM event bindings

This project models the event-binding layer of the sapa UI library,
`src/util/handler/DomEventHandler.js`. A component declares handler methods whose names
describe a binding. Examples are "click on the element `ref`, delegated to `.item`, only
for the Enter key" and "after the callback, call `log` with `x`". The handler:

1. parses each such name into one binding per event name;
2. sorts its modifier keywords into guard buckets;
3. resolves the target element;
4. wraps the user callback in a listener;
5. keeps every live binding in a registry that `destroy` drains and `initialize` rebuilds.

The model has five modules:

- `Text` covers the JavaScript string and array built-ins the handler relies on. These are `split` with a string separator, `join`, `trim`, `toLowerCase` and `filter`.
- `Component` covers what the handler sees of its surroundings:
  - JavaScript values, by truthiness;
  - the component's members, `refs` and root element candidates;
  - elements as node ids, with a selector-matching relation;
  - native events, each with its target's inclusive ancestor chain.
- `Descriptor` covers parsing. It has the handler-name parser (`parseEvent` up to the `bindingEvent` calls, and `getEventNames`), the keyword classifier (`getDefaultEventObject`), the limiter choice, the listener options and target resolution. All of these are functions with lemmas.
- `Pipeline` covers the listener `makeCallback` builds: delegation (`matchPath`), before hooks, the keycode and check-method guards, the callback and the after hooks. One dispatch is a pure function of:
  - the event;
  - the binding;
  - the members;
  - an oracle that gives the value each invoked member returns.

  Its observable effect is the ordered list of invocations.
- `Registry` covers the registry. It is the class `DomEventHandler`: its `bindings` sequence is appended to by `addBinding` and reset by `initBindings`. Its methods carry the source's loops (`removeEventAll`, `initialize`, `parseEvent`, `getEventNames`). Native listeners live in a `NativeEvents` object, a multiset of registrations plus a log of `addEventListener`/`removeEventListener` calls in order.

The separator constants `CHECK_SAPARATOR`, `DOM_EVENT_SAPARATOR`, `SAPARATOR` and `NAME_SAPARATOR` are defined in `src/util/Event.js`, which is not part of this model. They are parameters here, given as four distinct non-empty strings (`Descriptor.Grammar`).

`splitMethodByKeyword` lives in `BaseHandler`, which is not part of this model either. It is represented by a stand-in:
- a keyword belongs to a category exactly when it starts with the category word;
- its record `{target, param}` comes from the rest of the keyword, without surrounding parentheses and trimmed, split at every space: `target` is the first word, `param` the second (or empty), and any later words are dropped.

### Where the code may be surprising

- **Buckets are not exclusive.** A keyword can be both a check method and an `after…` keyword (lines 184-191). What holds is that the keycodes are exactly the keywords no bucket claims (`Descriptor.Classify`).
- **A falsy before hook does not abort the dispatch.** The result of `beforeMethods.every` is discarded (lines 113-117). A falsy hook only stops the hooks after it. The guards and the callback are still evaluated (`Pipeline.HookOrderGuardsPass`).
- **Before hooks run before the guards.** They run even when the guards then fail (`Pipeline.HookOrderGuardsFail`).
- **Both guards are always evaluated.** The check methods are invoked even when the keycode guard has already failed, because `hasKeyCode && isAllCheck` is computed after both (lines 135-159).
- **Debounce and throttle wrap only the user callback.** They do not wrap the whole pipeline (lines 248-254), so hooks and guards run on every event. The model records the chosen limiter on the `Handler` invocation.
- **Removing a binding cancels no pending timer** (lines 41-43).
- **The scroll-blocking lookup sees inherited properties.** `scrollBlockingEvents[eventName]` (line 226) reads a plain object literal, so an event named `constructor`, `toString` or any other `Object.prototype` property also gets `{passive: true, capture}` (`Descriptor.ListenerOptionsFor`).
- **`e.$dt` is shared along propagation.** A listener without a delegate selector passes the `$dt` the event object already carries (line 120). That may be the target an earlier delegated listener wrote at line 99 (`Pipeline.SharedDelegateTarget`).

## Model

| member | source | states |
|---|---|---|
| Text.SplitJoin | src/util/handler/DomEventHandler.js:262 | joining the pieces of `eventName.split(NAME_SAPARATOR)` with the separator gives back the event spec |
| Text.SplitPiecesFree | src/util/handler/DomEventHandler.js:262 | no piece of a split contains the separator |
| Text.SplitFree | src/util/handler/DomEventHandler.js:263 | splitting a piece that contains no separator again yields that piece alone, so the second split in `getEventNames` changes nothing |
| Text.FilterMembers | src/util/handler/DomEventHandler.js:184 | `arr.filter(p)` keeps exactly the elements of `arr` that satisfy `p` |
| Text.FilterHead | src/util/handler/DomEventHandler.js:249 | the first element a filter keeps is the first element of the list that satisfies the predicate |
| Text.ToLower | src/util/handler/DomEventHandler.js:205 | `toLowerCase` keeps the length, leaves no ASCII upper-case letter, keeps every other character in place and turns each upper-case letter into its lower-case form |
| Text.ToLowerIdempotent | src/util/handler/DomEventHandler.js:205 | lower-casing twice is lower-casing once, and a string with no upper-case letter is unchanged |
| Text.TrimStart | src/util/handler/DomEventHandler.js:273 | `trim` drops only white space at the front, and the result starts with a non-space |
| Text.TrimEnd | src/util/handler/DomEventHandler.js:273 | `trim` drops only white space at the back, and the result ends with a non-space |
| Descriptor.KeywordMembers | src/util/handler/DomEventHandler.js:187-191 | the keywords `splitMethodByKeyword` assigns to a category are exactly the keywords that start with its word |
| Descriptor.SplitMethodByKeyword | src/util/handler/DomEventHandler.js:187-191 | one `{target, param}` record per keyword of the category |
| Descriptor.Classify | src/util/handler/DomEventHandler.js:179-217 | codes are the keywords claimed by no bucket, lower-cased, in order; the check-method list holds exactly the keywords naming a truthy member; `captures` holds exactly the `capture` keywords; one after/before record per keyword of that category |
| Descriptor.GetDefaultEventObject | src/util/handler/DomEventHandler.js:179-217 | keeps the event name, and neither the keycodes nor the check-method list outnumber the keywords; the buckets are stated by Classify |
| Descriptor.ChooseLimiter | src/util/handler/DomEventHandler.js:248-254 | no wrapper iff there is neither a debounce nor a throttle keyword; which wrapper and its millis are stated by LimiterChoice |
| Descriptor.BindingEvent | src/util/handler/DomEventHandler.js:241-246 | the binding has event name `arr[0]` and the given handler, and a name with no delegate parts gets an empty delegate selector, hence a non-delegated listener |
| Descriptor.LimiterChoice | src/util/handler/DomEventHandler.js:248-254 | debounce iff some debounce keyword is present; throttle iff none is and some throttle keyword is; the millis come from the first keyword of the chosen kind |
| Descriptor.FirstRecordIff | src/util/handler/DomEventHandler.js:249-252 | a category's record list is non-empty iff some keyword has its word, and then its first record is that of the first such keyword |
| Descriptor.ListenerOptionsFor | src/util/handler/DomEventHandler.js:224-231 | the capture flag is set iff a capture keyword was given; the options are `{passive: true, capture}` iff the event is one of the seven scroll-blocking events of lines 7-15 or a property name every object inherits from `Object.prototype` |
| Descriptor.GetDefaultDomElement | src/util/handler/DomEventHandler.js:162-177 | a reference is looked up in `refs`, then among the members, then in the global scope; with no reference the root is `el`, else `$el`, else `$root` |
| Descriptor.TrimmedSegments | src/util/handler/DomEventHandler.js:273 | the trimmed `CHECK_SAPARATOR` split has at least one segment |
| Descriptor.ParseHeader | src/util/handler/DomEventHandler.js:273-278 | a well-formed name yields at least one `SAPARATOR` piece; the event spec `arr[0]` may be empty, and then fans out to one binding with event name `""` |
| Descriptor.MalformedIff | src/util/handler/DomEventHandler.js:275-278 | a handler name fails exactly when its first segment has no `DOM_EVENT_SAPARATOR` |
| Descriptor.ParseKey | src/util/handler/DomEventHandler.js:271-286 | a failing parse reports the handler name itself |
| Descriptor.FanOut | src/util/handler/DomEventHandler.js:279-285 | a well-formed name yields one binding per event name, in order; the names contain no `NAME_SAPARATOR` and join back to the event spec; the bindings differ only in their event name |
| Descriptor.ParsedBinding | src/util/handler/DomEventHandler.js:241-257 | binding `i` of a well-formed name has the keyword classification of the `i`-th event name, the target resolved from the second part, the remaining parts joined with `SAPARATOR` as delegate selector, the handler name as handler, and the limiter chosen from its classified keywords |
| Descriptor.Renamed | src/util/handler/DomEventHandler.js:282-285 | every binding of the fan-out equals the first with its event name replaced |
| Descriptor.RenameEvent | src/util/handler/DomEventHandler.js:283 | putting another name in `arr[0]` changes only the event name of the binding `bindingEvent` builds |
| Descriptor.CollectOutcome | src/util/handler/DomEventHandler.js:26 | `initialize`'s loop reports no failure iff every candidate name parses; otherwise it reports the first malformed name, and all names before it parsed |
| Descriptor.CollectSnoc | src/util/handler/DomEventHandler.js:26 | one more parsed name appends its bindings; one more malformed name ends the collection with that name |
| Pipeline.MatchPath | src/util/handler/DomEventHandler.js:62-70 | the result is the nearest element of the inclusive ancestor chain that matches the selector, and there is none iff no element of the chain matches |
| Pipeline.Delegation | src/util/handler/DomEventHandler.js:72-107 | with no delegate selector the pipeline always runs with the `$dt` the event already carries and leaves the event unchanged; with one, the nearest matching ancestor is written to `e.$dt` and the pipeline runs with it, or nothing is invoked and `undefined` is returned when none matches |
| Pipeline.SharedDelegateTarget | src/util/handler/DomEventHandler.js:95-104 | after a delegated listener found its target, a non-delegated listener reached next by the same event hands that target to its callback |
| Pipeline.HasDelegate | src/util/handler/DomEventHandler.js:72-74 | the result is an element of the target's ancestor chain matching the selector, and there is none iff no element of the chain matches |
| Pipeline.Dispatch | src/util/handler/DomEventHandler.js:76-107 | a listener changes only `e.$dt` of the event, and a non-delegated one changes nothing; what it invokes is stated by Delegation |
| Pipeline.CheckEventType | src/util/handler/DomEventHandler.js:132-160 | with no keycodes and no check methods it passes and invokes nothing; its verdict is characterised by Guards |
| Pipeline.RunEventCallback | src/util/handler/DomEventHandler.js:109-130 | the listener returns `undefined` or the callback's value; the order of invocations is stated by RunShape and the HookOrder lemmas |
| Pipeline.RunBefores | src/util/handler/DomEventHandler.js:113-117 | the before hooks are invoked in order, each after a truthy one, stopping right after the first falsy one |
| Pipeline.EveryCheck | src/util/handler/DomEventHandler.js:144-157 | the check verdict holds iff every entry passes |
| Pipeline.EveryCheckShortCircuit | src/util/handler/DomEventHandler.js:145-156 | the checks stop at the first failing entry: only the entries up to it are evaluated, and all before it passed |
| Pipeline.Guards | src/util/handler/DomEventHandler.js:132-160 | `checkEventType` holds iff the keycode guard holds and every check entry passes; it invokes only members of the check-method list |
| Pipeline.CheckCallsAreChecks | src/util/handler/DomEventHandler.js:147-149 | the checks invoke only check methods named in the list |
| Pipeline.RunShape | src/util/handler/DomEventHandler.js:109-130 | one run is the before hooks and the checks, then, when the guards pass, the callback and the after hooks unless it returned exactly `false` |
| Pipeline.HookOrderGuardsFail | src/util/handler/DomEventHandler.js:113-129 | when the guards fail, the before hooks still ran first, neither the callback nor an after hook runs, and the result is `undefined` |
| Pipeline.HookOrderGuardsPass | src/util/handler/DomEventHandler.js:113-128 | when the guards pass, the before hooks come first and the callback runs exactly once; its value is the result, and every after hook follows it in order unless it returned exactly `false` |
| Pipeline.CallsLayout | src/util/handler/DomEventHandler.js:119-125 | the callback sits after the hooks and checks and before the after hooks, and nowhere else |
| Pipeline.EnterIsCode | src/util/handler/DomEventHandler.js:203-205 | the keyword `enter`, claimed by no bucket, becomes the only keycode |
| Pipeline.EnterKeyScenario | src/util/handler/DomEventHandler.js:136-140 | a click with key `Enter` reaches the callback; one with key `Escape` invokes nothing and returns `undefined` |
| Registry.ListenerOf | src/util/handler/DomEventHandler.js:224-238 | the native registration carries the binding's element, its event name and its listener closure; capture iff a capture keyword was given; passive iff the event is scroll-blocking or an inherited `Object.prototype` name |
| Registry.Concat | src/util/handler/DomEventHandler.js:35-37 | the listeners, calls and events of a concatenation are those of its parts |
| Registry.NativeEvents.AddEvent | src/util/handler/DomEventHandler.js:233-238 | attaching adds the registration to the native table and logs the call |
| Registry.NativeEvents.RemoveEvent | src/util/handler/DomEventHandler.js:42 | detaching removes one copy of the registration and logs the call |
| Registry.DomEventHandler.GetBindings | src/util/handler/DomEventHandler.js:45-51 | creates the list on first use and otherwise returns it unchanged |
| Registry.DomEventHandler.AddBinding | src/util/handler/DomEventHandler.js:53-55 | appends the binding at the end, with no deduplication |
| Registry.DomEventHandler.InitBindings | src/util/handler/DomEventHandler.js:57-59 | the list is empty afterwards |
| Registry.DomEventHandler.RemoveEvent | src/util/handler/DomEventHandler.js:41-43 | detaches exactly the binding's registration |
| Registry.DomEventHandler.RemoveEventAll | src/util/handler/DomEventHandler.js:34-39 | detaches every recorded binding, in order, and leaves the list empty; with nothing recorded no listener changes |
| Registry.DomEventHandler.Destroy | src/util/handler/DomEventHandler.js:29-31 | the same as `removeEventAll` |
| Registry.DomEventHandler.AddEvent | src/util/handler/DomEventHandler.js:220-239 | a fresh listener closure; the binding is appended to the list and exactly its registration is attached |
| Registry.DomEventHandler.BindingEvent | src/util/handler/DomEventHandler.js:241-257 | records and attaches exactly the binding the parser builds for `arr` |
| Registry.DomEventHandler.GetEventNames | src/util/handler/DomEventHandler.js:259-269 | the result is the `NAME_SAPARATOR` split of the event spec |
| Registry.DomEventHandler.ParseEvent | src/util/handler/DomEventHandler.js:271-286 | succeeds iff the name is well-formed; keeps the old bindings as a prefix and appends exactly the fan-out bindings, attaching each; a malformed name changes nothing |
| Registry.DomEventHandler.BindEventNames | src/util/handler/DomEventHandler.js:279-285 | puts each event name in `arr[0]` in turn and appends exactly the fan-out bindings, in order |
| Registry.DomEventHandler.BindOne | src/util/handler/DomEventHandler.js:283-284 | one turn of that loop appends the next binding of the fan-out |
| Registry.DomEventHandler.Initialize | src/util/handler/DomEventHandler.js:20-27 | destroys first; computes the candidate names only on the first call; afterwards the registry holds exactly the bindings of the candidate names up to the first malformed one, which is reported; the native table loses the old bindings and gains the new ones |
| Registry.DomEventHandler.ParseKeys | src/util/handler/DomEventHandler.js:26 | parses every candidate name in order into an empty registry, stopping at the first malformed one |
| Registry.DomEventHandler.ParseOne | src/util/handler/DomEventHandler.js:26 | one turn of that loop extends what has been collected, or ends the collection with the failing name |

## Left out

- `src/util/Dom.js` is not part of this model. Elements are node ids, and `el.matches(selector)` is a given relation (`Component.Document`). The `Dom` wrapper (`instanceof Dom`, `getElement`, `Dom.create` for `e.$dt`) is identified with the element it wraps.
- `Event.addEvent`, `Event.removeEvent` and `Event.posXY` (`src/util/Event.js`) are not part of this model. Native listeners are a multiset of registrations plus a call log. Removing a registration takes it off with its options, and the pointer coordinates `e.xy` are not modelled.
- Registry.DomEventHandler.RemoveEventAll: its contract says every recorded registration is taken off the native table. Line 42 passes no options to `Event.removeEvent`, while lines 224-238 attach a binding that has a `capture` keyword with capture `true`. `removeEventListener` matches on the capture flag. So unless `Event.removeEvent` supplies that flag, such a binding stays attached in the source.
- Registry.DomEventHandler.Destroy: the same gap as `RemoveEventAll`: a capture binding may stay attached in the source.
- Registry.DomEventHandler.Initialize: the same gap. The old capture bindings may stay attached in the source, next to the new ones.
- Registry.DomEventHandler.RemoveEvent: removes the registration regardless of its capture flag, which the source's `removeEventListener` call may not do, for the reason above.
- `isNotUndefined` and `isFunction` (`src/util/functions/func.js`) are not part of this model. The model takes `isNotUndefined(v)` to mean `v !== undefined`, so `null` counts as defined. It takes `isFunction(v)` to mean that `v` is a function. Under that reading a check member holding `null` fails its check (line 150), and a listener whose callback returns `null` returns `null` (lines 85-88, 100-103).
- The timing of `debounce` and `throttle` (`src/util/functions/func.js`) is not modelled. Only the chosen limiter and its millis are recorded. The millis stay as text: the numeric conversion `+target` is not modelled.
- `.bind` and `.call` on user members are not modelled. Every member invocation returns the value an oracle `answer` gives for it. A hook whose member is not a function throws in the source; the model does not represent that error.
- `filterProps` (in `BaseHandler`) reflects over the component's keys. Its result is the `candidates` parameter of `Initialize`.
- `window[dom]` is an injected map of global elements.
- `splitMethodByKeyword` is a stand-in, as described above.
- `trim` removes the ASCII white space characters plus U+00A0 and U+FEFF, not every Unicode space. `toLowerCase` lower-cases ASCII letters only.
- Descriptor.GetDefaultDomElement: a truthy member that is not an element stops the lookup with no element. The source would pass that value on as the element.
- A handler name without `DOM_EVENT_SAPARATOR` throws in the source, which aborts `initialize`. The model reports that name as a failure instead. The bindings made before it stay attached in both.
- `addBinding` runs before the native attach. That order is not observable in the model's post-states, so it is not stated.
- Event.addEvent on an element that did not resolve is recorded like any other registration, with no element.
