/** What the handler sees of its surroundings: JavaScript values by truthiness, the
    owning component (its members, `refs`, root element), native elements as node ids
    with a selector-matching relation, and native events. */
module Component {
  import opened Text

  /** A native element. */
  type NodeId = nat

  /** A JavaScript value as far as the handler distinguishes it: `undefined`, the exact
      value `false`, any other falsy value (`null`, `0`, `NaN`, `""`) and truthy values. */
  datatype JsValue = Undefined | False | OtherFalsy | Truthy
  {
    /** `!!v` */
    predicate IsTruthy() { Truthy? }
  }

  /** A member of the owning component, `context[name]`. */
  datatype Member =
    | Method                    // a function: calling it goes through the call oracle
    | Element(node: NodeId)     // an element handle
    | Data(value: JsValue)      // any other value, `undefined` when missing
  {
    /** `!!context[name]` */
    predicate IsTruthy()
    {
      match this
      case Method => true
      case Element(_) => true
      case Data(v) => v.IsTruthy()
    }
  }

  /** `context[name]`: a missing member reads as `undefined`. */
  function Lookup(members: map<String, Member>, name: String): Member
  {
    if name in members then members[name] else Data(Undefined)
  }

  /** The owning component: its members, its `refs`, its root element candidates
      (`el`, `$el`, `$root`), and the ambient `window` lookup injected as a map. */
  datatype Context = Context(
    members: map<String, Member>,
    refs: map<String, NodeId>,
    globals: map<String, NodeId>,
    el: Option<NodeId>,
    dollarEl: Option<NodeId>,
    root: Option<NodeId>)

  /** The document as far as delegation needs it: which elements match which selector
      (`el.matches(selector)`). */
  datatype Document = Document(matching: set<(NodeId, String)>)
  {
    predicate Matches(n: NodeId, selector: String) { (n, selector) in matching }
  }

  /** A native event: `chain` is its target followed by the target's `parentElement`
      ancestors up to the root (empty when the event has neither `target` nor
      `srcElement`); `code` and `key` are `e.code` and `e.key`, `""` when absent; `dt` is
      the delegate target `e.$dt` the event object carries. The event object is shared by
      every listener it reaches, so a `$dt` written by one listener is seen by the next. */
  datatype Event = Event(chain: seq<NodeId>, code: String, key: String, dt: Option<NodeId>)
}
