/** Slang's surface tree, the events a lexer reports for it, and run-time values. */
module Slang {
  import opened Common

  datatype Literal =
    | IntLit(i: int)
    | DoubleLit(bits: nat)
    | StrLit(s: string)
    | NameLit(id: string)

  /** A group without an operation name is legal text: `()` or `( f 1)`. */
  datatype Node =
    | Leaf(lit: Literal)
    | Group(op: Option<string>, kids: seq<Node>)

  datatype Event =
    | BeginOp(name: string)
    | EndOp
    | IntValue(i: int)
    | DoubleValue(bits: nat)
    | StrValue(s: string)
    | UnhandledValue(term: string)
    | CustomData(token: nat)

  function LiteralEvent(lit: Literal): Event {
    match lit
    case IntLit(i) => IntValue(i)
    case DoubleLit(bits) => DoubleValue(bits)
    case StrLit(s) => StrValue(s)
    case NameLit(id) => UnhandledValue(id)
  }

  /** Preorder events of a tree. */
  function Events(n: Node): seq<Event>
    decreases n, 0
  {
    match n
    case Leaf(lit) => [LiteralEvent(lit)]
    case Group(None, kids) => EventsAll(kids) + [EndOp]
    case Group(Some(op), kids) => [BeginOp(op)] + EventsAll(kids) + [EndOp]
  }

  function EventsAll(ns: seq<Node>): seq<Event>
    decreases ns, 1
  {
    if ns == [] then [] else Events(ns[0]) + EventsAll(ns[1..])
  }

  /** What a lexer callback answers: the handler's next state and an error message, if any. */
  datatype HandlerResult<H> = HandlerResult(state: H, error: Option<string>)

  type Handler<!H> = (H, Event) -> HandlerResult<H>

  /** Events reach the handler one after another until it refuses one. */
  function Deliver<H>(handler: Handler<H>, h: H, events: seq<Event>): HandlerResult<H> {
    if events == [] then HandlerResult(h, None)
    else
      var r := handler(h, events[0]);
      if r.error.Some? then r else Deliver(handler, r.state, events[1..])
  }

  lemma DeliverOne<H>(handler: Handler<H>, h: H, event: Event)
    ensures Deliver(handler, h, [event]) == handler(h, event)
  {
    var r := handler(h, event);
    var events := [event];
    assert events[0] == event && events[1..] == [];
    assert r.error.None? ==> r == HandlerResult(r.state, None);
    assert Deliver(handler, r.state, []) == HandlerResult(r.state, None);
  }

  lemma DeliverConcat<H>(handler: Handler<H>, h: H, a: seq<Event>, b: seq<Event>)
    ensures Deliver(handler, h, a + b)
         == var r := Deliver(handler, h, a);
            if r.error.Some? then r else Deliver(handler, r.state, b)
  {
    if a == [] {
      assert a + b == b;
    } else {
      assert (a + b)[1..] == a[1..] + b;
      var r := handler(h, a[0]);
      if r.error.None? {
        DeliverConcat(handler, r.state, a[1..], b);
      }
    }
  }

  datatype Value =
    | IntVal(i: int)
    | DoubleVal(bits: nat)
    | StrVal(s: string)
    | FieldVal(name: string)
    | ObjectVal(schema: nat, address: nat)

  /** A stack cell: either the frame barrier or a value. */
  datatype TypedValue = FrameBarrier | Data(v: Value)
}
