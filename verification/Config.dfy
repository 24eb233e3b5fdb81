/** config/config.cc: a handler of lexer events that flattens nested groups into dotted keys. */
module Config {
  import opened Common
  import opened Slang
  import opened LexerSpec
  import opened RoundTrip

  /** A list node; Unset is one whose value was never assigned. */
  datatype ConfigValue =
    | Unset
    | IntNode(i: int)
    | DoubleNode(bits: nat)
    | BoolNode(b: bool)
    | StrNode(s: string)

  type ConfigMap = map<string, seq<ConfigValue>>

  /** The parser's fields: map, current key with its leading dot, the key lengths to return to,
      the current value list, and whether a sub-key was closed at this level. */
  datatype Parser = Parser(configMap: ConfigMap, curKey: string, keyStack: seq<nat>, values: seq<ConfigValue>, nested: bool)

  /** What closing a key that starts with '@' does. */
  type Directive = Parser -> HandlerResult<Parser>

  const INVALID_LIST := "Invalid list. Lists cannot have nested keys."
  const NESTED_LISTS := "Nested lists are not allowed in config"
  const UNKNOWN_DIRECTIVE := "Unknown directive."
  const NO_KEY := "No key"
  const NO_CUSTOM_DATA := "No custom data is allowed in config"

  function Empty(): Parser {
    Parser(map[], "", [], [], false)
  }

  /** Insertion that keeps what is there. */
  function Emplace(m: ConfigMap, key: string, values: seq<ConfigValue>): ConfigMap {
    if key in m then m else m[key := values]
  }

  function BeginKey(p: Parser, key: string): HandlerResult<Parser> {
    if p.values != [] then HandlerResult(p, Some(INVALID_LIST))
    else HandlerResult(p.(keyStack := p.keyStack + [|p.curKey|], curKey := p.curKey + "." + key, nested := false), None)
  }

  /** The name of the innermost open key. */
  function CurrentOp(p: Parser): string {
    if p.keyStack == [] || p.keyStack[|p.keyStack| - 1] >= |p.curKey| then ""
    else p.curKey[p.keyStack[|p.keyStack| - 1] + 1..]
  }

  function EndKey(d: Directive, p: Parser): HandlerResult<Parser> {
    if p.curKey == "" then HandlerResult(p, Some(NO_KEY))
    else
      var op := CurrentOp(p);
      if op != "" && op[0] == '@' then d(p)
      else
        HandlerResult(CloseKey(if p.values != [] && p.values[0] != Unset
                               then p.(configMap := Emplace(p.configMap, p.curKey[1..], p.values)) else p), None)
  }

  function CloseKey(p: Parser): Parser {
    if p.keyStack == [] then p
    else
      var n := |p.keyStack| - 1;
      p.(values := [],
         curKey := if p.keyStack[n] <= |p.curKey| then p.curKey[..p.keyStack[n]] else p.curKey,
         keyStack := p.keyStack[..n],
         nested := n != 0)
  }

  function AddValues(p: Parser, values: seq<ConfigValue>): HandlerResult<Parser> {
    if p.nested then HandlerResult(p, Some(NESTED_LISTS)) else HandlerResult(p.(values := p.values + values), None)
  }

  /** A bare identifier other than yes and no takes a node and then adds another for its text. */
  function NameNodes(term: string): seq<ConfigValue> {
    if term == "yes" || term == "Yes" then [BoolNode(true)]
    else if term == "no" || term == "No" then [BoolNode(false)]
    else [Unset, StrNode(term)]
  }

  function Handle(d: Directive): Handler<Parser> {
    (p: Parser, e: Event) =>
      match e
      case BeginOp(key) => BeginKey(p, key)
      case EndOp => EndKey(d, p)
      case IntValue(i) => AddValues(p, [IntNode(i)])
      case DoubleValue(bits) => AddValues(p, [DoubleNode(bits)])
      case StrValue(s) => AddValues(p, [StrNode(s)])
      case UnhandledValue(term) => AddValues(p, NameNodes(term))
      case CustomData(_) => HandlerResult(p, Some(NO_CUSTOM_DATA))
  }

  function Unhandled(p: Parser): HandlerResult<Parser> {
    HandlerResult(p, Some(UNKNOWN_DIRECTIVE))
  }

  /** The directives that do something else than fail. */
  predicate Known(op: string) {
    op == "@locate" || op == "@include"
  }

  // ---- What a config text means ----

  function LeafNodes(lit: Literal): seq<ConfigValue> {
    match lit
    case IntLit(i) => [IntNode(i)]
    case DoubleLit(bits) => [DoubleNode(bits)]
    case StrLit(s) => [StrNode(s)]
    case NameLit(id) => NameNodes(id)
  }

  /** The value list of a key: its leaves in order. */
  function ListOf(kids: seq<Node>): seq<ConfigValue> {
    if kids == [] then []
    else (if kids[0].Leaf? then LeafNodes(kids[0].lit) else []) + ListOf(kids[1..])
  }

  datatype Entry = Entry(path: string, values: seq<ConfigValue>)

  function Dotted(path: string, key: string): string {
    if path == "" then key else path + "." + key
  }

  /** Recursive flattening: each key with a list, under its dotted path, in text order. */
  function Entries(path: string, n: Node): seq<Entry>
    decreases n, 0
  {
    match n
    case Leaf(_) => []
    case Group(None, kids) => EntriesAll(path, kids)
    case Group(Some(key), kids) =>
      EntriesAll(Dotted(path, key), kids)
      + (if ListOf(kids) != [] && ListOf(kids)[0] != Unset then [Entry(Dotted(path, key), ListOf(kids))] else [])
  }

  function EntriesAll(path: string, ns: seq<Node>): seq<Entry>
    decreases ns, 1
  {
    if ns == [] then [] else Entries(path, ns[0]) + EntriesAll(path, ns[1..])
  }

  function EmplaceAll(m: ConfigMap, entries: seq<Entry>): ConfigMap
    decreases |entries|
  {
    if entries == [] then m else EmplaceAll(Emplace(m, entries[0].path, entries[0].values), entries[1..])
  }

  /** Index of the first entry under a path. */
  function FirstEntry(entries: seq<Entry>, path: string): (r: Option<nat>)
    ensures r.Some? ==> r.value < |entries| && entries[r.value].path == path
    ensures forall i :: 0 <= i < (if r.Some? then r.value else |entries|) ==> entries[i].path != path
  {
    FirstNamed(entries, (e: Entry) => e.path, path)
  }

  /** The map holds, for each path and no other, the list of its first occurrence. */
  ghost predicate FirstWins(m: ConfigMap, entries: seq<Entry>) {
    forall path :: var first := FirstEntry(entries, path);
      if first.None? then path !in m else path in m && m[path] == entries[first.value].values
  }

  predicate AllLeaves(ns: seq<Node>) {
    forall i :: 0 <= i < |ns| ==> ns[i].Leaf?
  }

  predicate AllKeys(ns: seq<Node>) {
    forall i :: 0 <= i < |ns| ==> ns[i].Group?
  }

  /** Every key holds either values or sub-keys. */
  predicate Unmixed(n: Node)
    decreases n, 0
  {
    match n
    case Leaf(_) => true
    case Group(_, kids) => (AllLeaves(kids) || AllKeys(kids)) && UnmixedAll(kids)
  }

  predicate UnmixedAll(ns: seq<Node>)
    decreases ns, 1
  {
    ns == [] || (Unmixed(ns[0]) && UnmixedAll(ns[1..]))
  }

  /** Every group has a key, and none of them is a directive. */
  predicate Keyed(n: Node)
    decreases n, 0
  {
    match n
    case Leaf(_) => true
    case Group(op, kids) => op.Some? && op.value != "" && op.value[0] != '@' && KeyedAll(kids)
  }

  predicate KeyedAll(ns: seq<Node>)
    decreases ns, 1
  {
    ns == [] || (Keyed(ns[0]) && KeyedAll(ns[1..]))
  }

  // ---- The handler against the meaning ----

  function KeyText(path: string): string {
    if path == "" then "" else "." + path
  }

  lemma {:induction false} EmplaceConcat(m: ConfigMap, a: seq<Entry>, b: seq<Entry>)
    ensures EmplaceAll(m, a + b) == EmplaceAll(EmplaceAll(m, a), b)
    decreases |a|
  {
    if a == [] {
      assert a + b == b;
    } else {
      assert (a + b)[1..] == a[1..] + b;
      EmplaceConcat(Emplace(m, a[0].path, a[0].values), a[1..], b);
    }
  }

  /** Events of a forest, one tree at a time. */
  lemma DeliverForest(h: Handler<Parser>, p: Parser, ns: seq<Node>)
    requires ns != []
    ensures var r := Deliver(h, p, Events(ns[0]));
      Deliver(h, p, EventsAll(ns)) == if r.error.Some? then r else Deliver(h, r.state, EventsAll(ns[1..]))
  {
    DeliverConcat(h, p, Events(ns[0]), EventsAll(ns[1..]));
  }

  lemma LeafRun(d: Directive, p: Parser, n: Node)
    requires n.Leaf?
    ensures Deliver(Handle(d), p, Events(n)) == AddValues(p, LeafNodes(n.lit))
  {
    DeliverOne(Handle(d), p, LiteralEvent(n.lit));
  }

  lemma {:induction false} LeavesRun(d: Directive, p: Parser, ns: seq<Node>)
    requires AllLeaves(ns) && !p.nested
    ensures Deliver(Handle(d), p, EventsAll(ns)) == HandlerResult(p.(values := p.values + ListOf(ns)), None)
    ensures ns != [] ==> ListOf(ns) != []
    decreases |ns|
  {
    if ns == [] {
      assert p.values + [] == p.values;
    } else {
      DeliverForest(Handle(d), p, ns);
      LeafRun(d, p, ns[0]);
      var one := LeafNodes(ns[0].lit);
      var q := p.(values := p.values + one);
      LeavesRun(d, q, ns[1..]);
      assert ListOf(ns) == one + ListOf(ns[1..]);
      assert q.values + ListOf(ns[1..]) == p.values + (one + ListOf(ns[1..]));
    }
  }

  /** Once a list has begun, a sub-key is refused. */
  lemma {:induction false} ListThenKeyFails(d: Directive, p: Parser, ns: seq<Node>)
    requires !p.nested && p.values != [] && !AllLeaves(ns) && KeyedAll(ns)
    ensures Deliver(Handle(d), p, EventsAll(ns)).error.Some?
    decreases |ns|
  {
    DeliverForest(Handle(d), p, ns);
    if ns[0].Leaf? {
      LeafRun(d, p, ns[0]);
      ListThenKeyFails(d, p.(values := p.values + LeafNodes(ns[0].lit)), ns[1..]);
    }
  }

  /** An open key: its text is on the key, its start on the stack. */
  predicate Ready(p: Parser, path: string) {
    p.values == [] && p.curKey == KeyText(path) && (path == "" <==> p.keyStack == [])
    && (p.keyStack == [] ==> !p.nested)
  }

  function Opened(p: Parser, key: string): Parser {
    p.(keyStack := p.keyStack + [|p.curKey|], curKey := p.curKey + "." + key, nested := false)
  }

  lemma OpenedReady(p: Parser, path: string, key: string)
    requires Ready(p, path) && key != ""
    ensures Ready(Opened(p, key), Dotted(path, key)) && !Opened(p, key).nested
    ensures CurrentOp(Opened(p, key)) == key
  {
  }

  /** Cutting the key back to where it was opened. */
  lemma ClosesToOpened(p: Parser, path: string, key: string, q: Parser)
    requires Ready(p, path) && key != ""
    requires q.curKey == Opened(p, key).curKey && q.keyStack == Opened(p, key).keyStack
    ensures CloseKey(q) == Parser(q.configMap, p.curKey, p.keyStack, [], p.keyStack != [])
    ensures q.curKey != "" && q.curKey[1..] == Dotted(path, key)
  {
    assert q.curKey[..|p.curKey|] == p.curKey;
    assert q.keyStack[..|p.keyStack|] == p.keyStack;
  }

  /** What the closing parenthesis of a key makes of the list gathered. */
  lemma ClosedKey(d: Directive, p: Parser, path: string, key: string, q: Parser)
    requires Ready(p, path) && key != "" && key[0] != '@'
    requires q.curKey == Opened(p, key).curKey && q.keyStack == Opened(p, key).keyStack
    ensures EndKey(d, q) == HandlerResult(
      Parser(if q.values != [] && q.values[0] != Unset then Emplace(q.configMap, Dotted(path, key), q.values) else q.configMap,
             p.curKey, p.keyStack, [], p.keyStack != []), None)
  {
    OpenedReady(p, path, key);
    assert CurrentOp(q) == key;
    var kept := if q.values != [] && q.values[0] != Unset
                then q.(configMap := Emplace(q.configMap, Dotted(path, key), q.values)) else q;
    ClosesToOpened(p, path, key, q);
    ClosesToOpened(p, path, key, kept);
  }

  /** A key delivers exactly its entries and leaves the parser as it was, unless it mixes. */
  lemma {:induction false} KeyRun(d: Directive, p: Parser, path: string, n: Node)
    requires n.Group? && Keyed(n) && Ready(p, path)
    ensures var r := Deliver(Handle(d), p, Events(n));
      (r.error.None? <==> Unmixed(n))
      && (Unmixed(n) ==> r.state == p.(configMap := EmplaceAll(p.configMap, Entries(path, n)), nested := p.keyStack != []))
    decreases n, 0
  {
    var key, kids := n.op.value, n.kids;
    var q := Opened(p, key);
    OpenedReady(p, path, key);
    KidsRun(d, q, Dotted(path, key), kids);
    var inner := Deliver(Handle(d), q, EventsAll(kids));
    GroupEvents(d, p, n);
    if inner.error.None? {
      ClosedKey(d, p, path, key, inner.state);
      var own := if ListOf(kids) != [] && ListOf(kids)[0] != Unset then [Entry(Dotted(path, key), ListOf(kids))] else [];
      EmplaceConcat(p.configMap, EntriesAll(Dotted(path, key), kids), own);
      assert own != [] ==> own[1..] == [];
    }
  }

  lemma GroupEvents(d: Directive, p: Parser, n: Node)
    requires n.Group? && n.op.Some? && p.values == []
    ensures var inner := Deliver(Handle(d), Opened(p, n.op.value), EventsAll(n.kids));
      Deliver(Handle(d), p, Events(n)) == if inner.error.Some? then inner else EndKey(d, inner.state)
  {
    var h := Handle(d);
    var begin, body, end := [BeginOp(n.op.value)], EventsAll(n.kids), [EndOp];
    DeliverConcat(h, p, begin + body, end);
    DeliverConcat(h, p, begin, body);
    DeliverOne(h, p, BeginOp(n.op.value));
    var inner := Deliver(h, Opened(p, n.op.value), body);
    if inner.error.None? {
      DeliverOne(h, inner.state, EndOp);
    }
  }

  /** Inside a fresh key: values gather into its list, or sub-keys deliver their entries. */
  lemma {:induction false} KidsRun(d: Directive, p: Parser, path: string, kids: seq<Node>)
    requires KeyedAll(kids) && Ready(p, path) && path != "" && !p.nested
    ensures var r := Deliver(Handle(d), p, EventsAll(kids));
      (r.error.None? <==> (AllLeaves(kids) || AllKeys(kids)) && UnmixedAll(kids))
      && (r.error.None? ==>
            r.state.configMap == EmplaceAll(p.configMap, EntriesAll(path, kids))
            && r.state.values == ListOf(kids)
            && r.state.curKey == p.curKey && r.state.keyStack == p.keyStack)
    decreases kids, 1
  {
    if AllLeaves(kids) {
      LeavesRun(d, p, kids);
      LeavesHaveNoEntries(path, kids);
      assert p.values + ListOf(kids) == ListOf(kids);
    } else if kids[0].Leaf? {
      DeliverForest(Handle(d), p, kids);
      LeafRun(d, p, kids[0]);
      ListThenKeyFails(d, p.(values := p.values + LeafNodes(kids[0].lit)), kids[1..]);
    } else {
      KeysRun(d, p, path, kids);
      if AllKeys(kids) {
        KeysHaveNoList(kids);
      }
    }
  }

  /** From a sub-key on, values are refused. */
  lemma {:induction false} KeysRun(d: Directive, p: Parser, path: string, kids: seq<Node>)
    requires KeyedAll(kids) && Ready(p, path) && path != ""
    requires p.nested || (kids != [] && kids[0].Group?)
    ensures var r := Deliver(Handle(d), p, EventsAll(kids));
      (r.error.None? <==> AllKeys(kids) && UnmixedAll(kids))
      && (r.error.None? ==>
            r.state.configMap == EmplaceAll(p.configMap, EntriesAll(path, kids)) && r.state.values == []
            && r.state.curKey == p.curKey && r.state.keyStack == p.keyStack)
    decreases kids, 0
  {
    if kids != [] {
      DeliverForest(Handle(d), p, kids);
      if kids[0].Leaf? {
        LeafRun(d, p, kids[0]);
      } else {
        KeyRun(d, p, path, kids[0]);
        var first := Deliver(Handle(d), p, Events(kids[0]));
        if first.error.None? {
          KeysRun(d, first.state, path, kids[1..]);
          EmplaceConcat(p.configMap, Entries(path, kids[0]), EntriesAll(path, kids[1..]));
        }
        assert AllKeys(kids) <==> AllKeys(kids[1..]);
      }
    }
  }

  lemma {:induction false} LeavesHaveNoEntries(path: string, ns: seq<Node>)
    requires AllLeaves(ns)
    ensures EntriesAll(path, ns) == [] && UnmixedAll(ns)
  {
    if ns != [] {
      LeavesHaveNoEntries(path, ns[1..]);
    }
  }

  lemma {:induction false} KeysHaveNoList(ns: seq<Node>)
    requires AllKeys(ns)
    ensures ListOf(ns) == []
  {
    if ns != [] {
      KeysHaveNoList(ns[1..]);
    }
  }

  lemma FirstOfRest(entries: seq<Entry>, path: string)
    requires entries != [] && entries[0].path != path
    ensures var later := FirstEntry(entries[1..], path);
      FirstEntry(entries, path) == if later.Some? then Some(later.value + 1) else None
  {
    var first, later := FirstEntry(entries, path), FirstEntry(entries[1..], path);
    assert forall i :: 0 < i < |entries| ==> entries[i] == entries[1..][i - 1];
    if first.Some? {
      assert entries[1..][first.value - 1].path == path;
    }
  }

  lemma {:induction false} EmplacedFirst(m: ConfigMap, entries: seq<Entry>, path: string)
    ensures var r := EmplaceAll(m, entries); var first := FirstEntry(entries, path);
      if path in m then path in r && r[path] == m[path]
      else if first.Some? then path in r && r[path] == entries[first.value].values
      else path !in r
    decreases |entries|
  {
    if entries != [] {
      EmplacedFirst(Emplace(m, entries[0].path, entries[0].values), entries[1..], path);
      if entries[0].path != path {
        FirstOfRest(entries, path);
      }
    }
  }

  lemma {:induction false} TopRun(d: Directive, p: Parser, ns: seq<Node>)
    requires AllKeys(ns) && KeyedAll(ns) && Ready(p, "")
    ensures var r := Deliver(Handle(d), p, EventsAll(ns));
      (r.error.None? <==> UnmixedAll(ns))
      && (r.error.None? ==> r.state == p.(configMap := EmplaceAll(p.configMap, EntriesAll("", ns))))
    decreases |ns|
  {
    if ns != [] {
      DeliverForest(Handle(d), p, ns);
      KeyRun(d, p, "", ns[0]);
      var first := Deliver(Handle(d), p, Events(ns[0]));
      if first.error.None? {
        TopRun(d, first.state, ns[1..]);
        EmplaceConcat(p.configMap, Entries("", ns[0]), EntriesAll("", ns[1..]));
      }
    }
  }

  /** The key stack accepts exactly the configs whose keys do not mix values and sub-keys; it then
      holds the first list of every dotted path, and no key is left open. */
  lemma FlattensExactly(d: Directive, ns: seq<Node>)
    requires AllKeys(ns) && KeyedAll(ns)
    ensures var r := Deliver(Handle(d), Empty(), EventsAll(ns));
      (r.error.None? <==> UnmixedAll(ns))
      && (r.error.None? ==>
            FirstWins(r.state.configMap, EntriesAll("", ns))
            && r.state == Parser(r.state.configMap, "", [], [], false))
  {
    TopRun(d, Empty(), ns);
    forall path ensures var first := FirstEntry(EntriesAll("", ns), path);
      var m := EmplaceAll(map[], EntriesAll("", ns));
      if first.None? then path !in m else path in m && m[path] == EntriesAll("", ns)[first.value].values
    {
      EmplacedFirst(map[], EntriesAll("", ns), path);
    }
  }

  /** The same from text: a printed config file is loaded as its flattening, or refused if it mixes. */
  lemma LoadsPrintedConfig(d: Directive, parseDouble: string -> Option<nat>, ns: seq<Node>)
    requires AllKeys(ns) && KeyedAll(ns) && LegalAll(Setup(Handle(d), parseDouble), ns)
    ensures var o := Lex(Setup(Handle(d), parseDouble), false, Start(Empty()), PrintLines(ns));
      (o.result.Success? <==> UnmixedAll(ns))
      && (o.result.Success? ==> FirstWins(o.h.configMap, EntriesAll("", ns)) && o.rest == "")
  {
    LexLines(Setup(Handle(d), parseDouble), Start(Empty()), ns);
    FlattensExactly(d, ns);
  }

  // ---- Bare identifiers ----

  predicate Word(lit: Literal) {
    lit.NameLit? && lit.id !in ["yes", "Yes", "no", "No"]
  }

  /** One node for each leaf, exactly when no leaf is a bare identifier. */
  lemma {:induction false} OneNodePerLeaf(ns: seq<Node>)
    requires AllLeaves(ns)
    ensures |ListOf(ns)| >= |ns|
    ensures |ListOf(ns)| == |ns| <==> forall i :: 0 <= i < |ns| ==> !Word(ns[i].lit)
  {
    if ns != [] {
      OneNodePerLeaf(ns[1..]);
      assert forall i :: 0 < i < |ns| ==> ns[i] == ns[1..][i - 1];
    }
  }

  /** A list is stored exactly when it is not empty and does not begin with a bare identifier. */
  lemma StoredUnlessWordFirst(path: string, key: string, kids: seq<Node>)
    requires AllLeaves(kids)
    ensures Entries(path, Group(Some(key), kids))
         == if kids != [] && !Word(kids[0].lit) then [Entry(Dotted(path, key), ListOf(kids))] else []
  {
    LeavesHaveNoEntries(Dotted(path, key), kids);
  }

  // ---- Keys and values, read off the tree ----

  /** The nodes a value becomes: yes and Yes are true, no and No false. */
  ghost predicate Holds(lit: Literal, nodes: seq<ConfigValue>) {
    match lit
    case IntLit(i) => nodes == [IntNode(i)]
    case DoubleLit(bits) => nodes == [DoubleNode(bits)]
    case StrLit(s) => nodes == [StrNode(s)]
    case NameLit(id) =>
      if id == "yes" || id == "Yes" then nodes == [BoolNode(true)]
      else if id == "no" || id == "No" then nodes == [BoolNode(false)]
      else nodes == [Unset, StrNode(id)]
  }

  ghost predicate HoldAll(ns: seq<Node>, parts: seq<seq<ConfigValue>>) {
    |parts| == |ns| && forall i :: 0 <= i < |ns| ==> ns[i].Leaf? && Holds(ns[i].lit, parts[i])
  }

  ghost function Flat(parts: seq<seq<ConfigValue>>): seq<ConfigValue> {
    if parts == [] then [] else Flat(parts[..|parts| - 1]) + parts[|parts| - 1]
  }

  lemma {:induction false} FlatFront(part: seq<ConfigValue>, parts: seq<seq<ConfigValue>>)
    ensures Flat([part] + parts) == part + Flat(parts)
    decreases |parts|
  {
    var all := [part] + parts;
    if parts == [] {
      assert all[..0] == [];
    } else {
      var n := |parts| - 1;
      assert all[..|all| - 1] == [part] + parts[..n];
      FlatFront(part, parts[..n]);
    }
  }

  /** The list of a key is what its values become, one after another. */
  lemma {:induction false} ListHoldsValues(ns: seq<Node>) returns (parts: seq<seq<ConfigValue>>)
    requires AllLeaves(ns)
    ensures HoldAll(ns, parts) && ListOf(ns) == Flat(parts)
    decreases |ns|
  {
    if ns == [] {
      parts := [];
    } else {
      var later := ListHoldsValues(ns[1..]);
      var one := LeafNodes(ns[0].lit);
      parts := [one] + later;
      FlatFront(one, later);
      forall i | 0 <= i < |ns| ensures ns[i].Leaf? && Holds(ns[i].lit, parts[i]) {
        if i > 0 {
          assert ns[i] == ns[1..][i - 1] && parts[i] == later[i - 1];
        }
      }
    }
  }

  /** Keys with a dot between each two. */
  ghost function Joined(keys: seq<string>): string
    requires keys != []
  {
    var n := |keys| - 1;
    if n == 0 then keys[0] else Joined(keys[..n]) + "." + keys[n]
  }

  /** The keys lead from the outside in to a group with these kids. */
  ghost predicate Leads(ns: seq<Node>, keys: seq<string>, kids: seq<Node>)
    decreases |keys|
  {
    keys != [] && exists i :: (0 <= i < |ns| && ns[i].Group? && ns[i].op == Some(keys[0])
      && (if |keys| == 1 then kids == ns[i].kids else Leads(ns[i].kids, keys[1..], kids)))
  }

  /** The list of a group that is stored. */
  ghost predicate Storable(kids: seq<Node>) {
    ListOf(kids) != [] && ListOf(kids)[0] != Unset
  }

  /** The path that keys add to a path. */
  ghost function Further(path: string, keys: seq<string>): string
    decreases |keys|
  {
    if keys == [] then path else Further(Dotted(path, keys[0]), keys[1..])
  }

  lemma {:induction false} FurtherConcat(path: string, keys: seq<string>, last: string)
    ensures Further(path, keys + [last]) == Dotted(Further(path, keys), last)
    decreases |keys|
  {
    var all := keys + [last];
    if keys == [] {
      assert all[1..] == [];
    } else {
      assert all[1..] == keys[1..] + [last];
      FurtherConcat(Dotted(path, keys[0]), keys[1..], last);
    }
  }

  lemma {:induction false} FurtherIsJoined(keys: seq<string>)
    requires keys != [] && forall i :: 0 <= i < |keys| ==> keys[i] != ""
    ensures Further("", keys) == Joined(keys) && Joined(keys) != ""
    decreases |keys|
  {
    var n := |keys| - 1;
    assert keys == keys[..n] + [keys[n]];
    FurtherConcat("", keys[..n], keys[n]);
    if n > 0 {
      FurtherIsJoined(keys[..n]);
    }
  }

  lemma {:induction false} LeadingKeys(ns: seq<Node>, keys: seq<string>, kids: seq<Node>)
    requires KeyedAll(ns) && Leads(ns, keys, kids)
    ensures forall i :: 0 <= i < |keys| ==> keys[i] != ""
    decreases |keys|
  {
    var i :| 0 <= i < |ns| && ns[i].Group? && ns[i].op == Some(keys[0])
      && if |keys| == 1 then kids == ns[i].kids else Leads(ns[i].kids, keys[1..], kids);
    KeyedAt(ns, i);
    if |keys| > 1 {
      LeadingKeys(ns[i].kids, keys[1..], kids);
      assert forall j :: 0 < j < |keys| ==> keys[j] == keys[1..][j - 1];
    }
  }

  lemma {:induction false} KeyedAt(ns: seq<Node>, i: nat)
    requires KeyedAll(ns) && i < |ns|
    ensures Keyed(ns[i])
    decreases |ns|
  {
    if i > 0 {
      KeyedAt(ns[1..], i - 1);
    }
  }

  /** An entry of the flattening, seen as keys leading to a storable list. */
  ghost predicate Comes(path: string, ns: seq<Node>, e: Entry, keys: seq<string>, kids: seq<Node>) {
    Leads(ns, keys, kids) && Storable(kids) && e == Entry(Further(path, keys), ListOf(kids))
  }

  lemma LeadsInRest(ns: seq<Node>, keys: seq<string>, kids: seq<Node>)
    requires ns != [] && Leads(ns[1..], keys, kids)
    ensures Leads(ns, keys, kids)
  {
    var i :| 0 <= i < |ns[1..]| && ns[1..][i].Group? && ns[1..][i].op == Some(keys[0])
      && if |keys| == 1 then kids == ns[1..][i].kids else Leads(ns[1..][i].kids, keys[1..], kids);
    assert ns[i + 1] == ns[1..][i];
  }

  /** Every entry comes from a key of the tree. */
  lemma {:induction false} EntryHasKeys(path: string, ns: seq<Node>, e: Entry) returns (keys: seq<string>, kids: seq<Node>)
    requires KeyedAll(ns) && e in EntriesAll(path, ns)
    ensures Comes(path, ns, e, keys, kids)
    decreases ns, 1
  {
    if e in Entries(path, ns[0]) {
      var key := ns[0].op.value;
      if e in EntriesAll(Dotted(path, key), ns[0].kids) {
        var inner;
        inner, kids := EntryHasKeys(Dotted(path, key), ns[0].kids, e);
        keys := [key] + inner;
        assert keys[1..] == inner && Leads(ns, keys, kids);
      } else {
        keys, kids := [key], ns[0].kids;
        assert keys[1..] == [] && Leads(ns, keys, kids);
      }
    } else {
      keys, kids := EntryHasKeys(path, ns[1..], e);
      LeadsInRest(ns, keys, kids);
    }
  }

  /** Every key of the tree with a storable list has its entry. */
  lemma {:induction false} KeysHaveEntry(path: string, ns: seq<Node>, keys: seq<string>, kids: seq<Node>)
    requires Leads(ns, keys, kids) && Storable(kids)
    ensures Entry(Further(path, keys), ListOf(kids)) in EntriesAll(path, ns)
    decreases |keys|
  {
    var i :| 0 <= i < |ns| && ns[i].Group? && ns[i].op == Some(keys[0])
      && if |keys| == 1 then kids == ns[i].kids else Leads(ns[i].kids, keys[1..], kids);
    var own := if Storable(ns[i].kids) then [Entry(Dotted(path, keys[0]), ListOf(ns[i].kids))] else [];
    assert Entries(path, ns[i]) == EntriesAll(Dotted(path, keys[0]), ns[i].kids) + own;
    if |keys| == 1 {
      assert keys[1..] == [] && own[0] == Entry(Further(path, keys), ListOf(kids));
    } else {
      KeysHaveEntry(Dotted(path, keys[0]), ns[i].kids, keys[1..], kids);
    }
    EntryOfTree(path, ns, i, Entry(Further(path, keys), ListOf(kids)));
  }

  lemma {:induction false} EntryOfTree(path: string, ns: seq<Node>, i: nat, e: Entry)
    requires i < |ns| && e in Entries(path, ns[i])
    ensures e in EntriesAll(path, ns)
    decreases i
  {
    if i > 0 {
      EntryOfTree(path, ns[1..], i - 1, e);
    }
  }

  /** Keys joined with dots lead to a storable list. */
  ghost predicate Names(ns: seq<Node>, path: string, keys: seq<string>, kids: seq<Node>) {
    Leads(ns, keys, kids) && Storable(kids) && keys != [] && Joined(keys) == path
  }

  /** The map of an accepted config holds exactly the dotted paths of the keys that have a list to store, each
      with the list of one of its keys. */
  lemma HoldsEveryKey(d: Directive, ns: seq<Node>, path: string)
    requires AllKeys(ns) && KeyedAll(ns) && UnmixedAll(ns)
    ensures var m := Deliver(Handle(d), Empty(), EventsAll(ns)).state.configMap;
      (path in m <==> exists keys, kids :: Names(ns, path, keys, kids))
      && (path in m ==> exists keys, kids :: Names(ns, path, keys, kids) && m[path] == ListOf(kids))
  {
    FlattensExactly(d, ns);
    var m, entries := Deliver(Handle(d), Empty(), EventsAll(ns)).state.configMap, EntriesAll("", ns);
    var first := FirstEntry(entries, path);
    if path in m {
      var e := entries[first.value];
      var keys, kids := EntryHasKeys("", ns, e);
      LeadingKeys(ns, keys, kids);
      FurtherIsJoined(keys);
      assert Names(ns, path, keys, kids) && m[path] == ListOf(kids);
    }
    if exists keys, kids :: Names(ns, path, keys, kids) {
      var keys, kids :| Names(ns, path, keys, kids);
      NamedHasEntry(ns, path, keys, kids);
    }
  }

  lemma NamedHasEntry(ns: seq<Node>, path: string, keys: seq<string>, kids: seq<Node>)
    requires KeyedAll(ns) && Names(ns, path, keys, kids)
    ensures FirstEntry(EntriesAll("", ns), path).Some?
  {
    LeadingKeys(ns, keys, kids);
    FurtherIsJoined(keys);
    KeysHaveEntry("", ns, keys, kids);
    var entries := EntriesAll("", ns);
    var i :| 0 <= i < |entries| && entries[i] == Entry(path, ListOf(kids));
    assert entries[i].path == path;
  }

  // ---- The parser object ----

  /** Each open key starts below the next one's text, and none is a directive that does something. */
  ghost predicate Open(curKey: string, keyStack: seq<nat>)
    decreases |keyStack|
  {
    if keyStack == [] then curKey == ""
    else
      var n := |keyStack| - 1;
      keyStack[n] < |curKey| && !Known(curKey[keyStack[n] + 1..]) && Open(curKey[..keyStack[n]], keyStack[..n])
  }

  lemma OpenOneMore(curKey: string, keyStack: seq<nat>, key: string)
    requires Open(curKey, keyStack) && !Known(key)
    ensures Open(curKey + "." + key, keyStack + [|curKey|])
  {
    var text, stack := curKey + "." + key, keyStack + [|curKey|];
    assert text[|curKey| + 1..] == key && text[..|curKey|] == curKey && stack[..|keyStack|] == keyStack;
  }

  lemma {:induction false} KeyedHasNoDirective(ns: seq<Node>)
    requires KeyedAll(ns)
    ensures NoKnownDirective(EventsAll(ns))
    decreases ns
  {
    if ns != [] {
      KeyedHasNoDirective(ns[1..]);
      if ns[0].Group? {
        KeyedHasNoDirective(ns[0].kids);
        assert Events(ns[0]) == [BeginOp(ns[0].op.value)] + EventsAll(ns[0].kids) + [EndOp];
      }
    }
  }

  predicate NoKnownDirective(events: seq<Event>) {
    forall i :: 0 <= i < |events| && events[i].BeginOp? ==> !Known(events[i].name)
  }

  class ConfigParser {
    var configMap: ConfigMap
    var curKey: string
    var keyStack: seq<nat>
    var values: seq<ConfigValue>
    var nested: bool

    function Now(): Parser
      reads this
    {
      Parser(configMap, curKey, keyStack, values, nested)
    }

    ghost predicate Valid()
      reads this
    {
      Open(curKey, keyStack)
    }

    constructor ()
      ensures Valid() && Now() == Empty()
    {
      configMap, curKey, keyStack, values, nested := map[], "", [], [], false;
    }

    method LexerBeginOp(key: string) returns (error: Option<string>)
      requires Valid() && !Known(key)
      modifies this
      ensures Valid()
      ensures Handle(Unhandled)(old(Now()), BeginOp(key)) == HandlerResult(Now(), error)
    {
      if values != [] {
        return Some(INVALID_LIST);
      }
      OpenOneMore(curKey, keyStack, key);
      keyStack := keyStack + [|curKey|];
      curKey := curKey + ".";
      curKey := curKey + key;
      nested := false;
      return None;
    }

    /** Closing any key but the two known directives. */
    method LexerEndOp() returns (error: Option<string>)
      requires Valid()
      modifies this
      ensures Valid()
      ensures EndKey(Unhandled, old(Now())) == HandlerResult(Now(), error)
    {
      if curKey == "" {
        return Some(NO_KEY);
      }
      var op := curKey[keyStack[|keyStack| - 1] + 1..];
      assert op == CurrentOp(Now());
      if op != "" && op[0] == '@' {
        return Some(UNKNOWN_DIRECTIVE);
      }
      if values != [] && values[0] != Unset {
        configMap := Emplace(configMap, curKey[1..], values);
      }
      PopKey();
      return None;
    }

    /** Discards the list and returns to the enclosing key. */
    method PopKey()
      requires Valid() && keyStack != []
      modifies this
      ensures Valid()
      ensures Now() == CloseKey(old(Now()))
    {
      values := [];
      var back := |keyStack| - 1;
      curKey := curKey[..keyStack[back]];
      keyStack := keyStack[..back];
      nested := keyStack != [];
      assert |keyStack| == back;
    }

    method AddValue(value: ConfigValue)
      modifies this`values
      ensures values == old(values) + [value]
    {
      values := values + [value];
    }

    method LexerStrValue(s: string) returns (error: Option<string>)
      modifies this`values
      ensures Handle(Unhandled)(old(Now()), StrValue(s)) == HandlerResult(Now(), error)
    {
      if nested {
        return Some(NESTED_LISTS);
      }
      AddValue(StrNode(s));
      return None;
    }

    method LexerUnhandledValue(term: string) returns (error: Option<string>)
      modifies this`values
      ensures Handle(Unhandled)(old(Now()), UnhandledValue(term)) == HandlerResult(Now(), error)
    {
      if nested {
        return Some(NESTED_LISTS);
      }
      AddValue(Unset);
      var last := |values| - 1;
      if term == "yes" || term == "Yes" {
        values := values[last := BoolNode(true)];
      } else if term == "no" || term == "No" {
        values := values[last := BoolNode(false)];
      } else {
        error := LexerStrValue(term);
        assert values == old(values) + [Unset, StrNode(term)];
        return;
      }
      assert values == old(values) + NameNodes(term);
      return None;
    }

    method LexerCustomData(token: nat) returns (error: Option<string>)
      ensures Handle(Unhandled)(Now(), CustomData(token)) == HandlerResult(Now(), error)
    {
      return Some(NO_CUSTOM_DATA);
    }

    method LexerIntValue(i: int) returns (error: Option<string>)
      modifies this`values
      ensures Handle(Unhandled)(old(Now()), IntValue(i)) == HandlerResult(Now(), error)
    {
      if nested {
        return Some(NESTED_LISTS);
      }
      AddValue(IntNode(i));
      return None;
    }

    method LexerDoubleValue(bits: nat) returns (error: Option<string>)
      modifies this`values
      ensures Handle(Unhandled)(old(Now()), DoubleValue(bits)) == HandlerResult(Now(), error)
    {
      if nested {
        return Some(NESTED_LISTS);
      }
      AddValue(DoubleNode(bits));
      return None;
    }

    method Callback(event: Event) returns (error: Option<string>)
      requires Valid() && (event.BeginOp? ==> !Known(event.name))
      modifies this
      ensures Valid() && HandlerResult(Now(), error) == Handle(Unhandled)(old(Now()), event)
    {
      match event
      case BeginOp(key) => error := LexerBeginOp(key);
      case EndOp => error := LexerEndOp();
      case IntValue(i) => error := LexerIntValue(i);
      case DoubleValue(bits) => error := LexerDoubleValue(bits);
      case StrValue(s) => error := LexerStrValue(s);
      case UnhandledValue(term) => error := LexerUnhandledValue(term);
      case CustomData(token) => error := LexerCustomData(token);
    }

    /** The object driven by a stream of events ends where the handler function ends. */
    method Feed(events: seq<Event>) returns (error: Option<string>)
      requires Valid() && NoKnownDirective(events)
      modifies this
      ensures Valid() && HandlerResult(Now(), error) == Deliver(Handle(Unhandled), old(Now()), events)
    {
      var i := 0;
      error := None;
      assert events[0..] == events;
      while i < |events|
        invariant 0 <= i <= |events| && error.None? && Valid()
        invariant Deliver(Handle(Unhandled), Now(), events[i..]) == Deliver(Handle(Unhandled), old(Now()), events)
      {
        assert events[i..][0] == events[i] && events[i..][1..] == events[i + 1..];
        error := Callback(events[i]);
        if error.Some? {
          break;
        }
        i := i + 1;
      }
    }

    /** A fresh parser driven by the events of a config accepts it exactly when no key mixes values and
        sub-keys, and then holds the first list of every dotted path. */
    method FeedConfig(ns: seq<Node>) returns (error: Option<string>)
      requires Valid() && Now() == Empty() && AllKeys(ns) && KeyedAll(ns)
      modifies this
      ensures Valid() && (error.None? <==> UnmixedAll(ns))
      ensures error.None? ==> FirstWins(configMap, EntriesAll("", ns)) && curKey == "" && keyStack == []
    {
      KeyedHasNoDirective(ns);
      FlattensExactly(Unhandled, ns);
      error := Feed(EventsAll(ns));
    }
  }
}
