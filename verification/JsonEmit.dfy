/** A node handed over from the tree as the tokens of the value it denotes (codec/jsontokenemit.go):
    aliases written out again, "<<" entries folded in behind a mapping's own keys. */
module JsonEmit {
  import opened JsonValue
  import JsonPath

  datatype Option<+T> = None | Some(value: T)

  type Worth = v: Json | !v.Arr? && !v.Obj? witness Null

  /** A node of the tree. What a scalar is worth, what a tag resolves to and what a key names are
      given; an alias names its anchor and, where the parser filled it in, the node it stands for. */
  datatype Node =
    | Scalar(worth: Worth)
    | Anchor(inner: Node)
    | Tagged(resolved: Option<Worth>, inner: Node)
    | Alias(name: string, target: Option<nat>)
    | Sequence(items: seq<Node>)
    | Mapping(entries: seq<Entry>)

  datatype Entry = Own(name: string, value: Node) | Merge(value: Node)

  /** The nodes aliases stand for, by number. labels, where given, holds the one name each is anchored
      under. */
  datatype Graph = Graph(nodes: seq<Node>, labels: Option<seq<string>>)

  predicate Labelled(g: Graph, name: string, target: nat) {
    g.labels.Some? ==> target < |g.labels.value| && g.labels.value[target] == name
  }

  /** Every alias in node stands for a node numbered below n. */
  ghost predicate Below(g: Graph, node: Node, n: nat)
    decreases node
  {
    match node
    case Scalar(_) => true
    case Anchor(inner) => Below(g, inner, n)
    case Tagged(_, inner) => Below(g, inner, n)
    case Alias(name, target) => target.Some? ==> target.value < n && Labelled(g, name, target.value)
    case Sequence(items) => forall i :: 0 <= i < |items| ==> Below(g, items[i], n)
    case Mapping(entries) => forall i :: 0 <= i < |entries| ==> EntryBelow(g, entries[i], n)
  }

  ghost predicate EntryBelow(g: Graph, e: Entry, n: nat)
    decreases e
  {
    Below(g, e.value, n)
  }

  ghost predicate EntriesBelow(g: Graph, entries: seq<Entry>, n: nat) {
    forall i :: 0 <= i < |entries| ==> EntryBelow(g, entries[i], n)
  }

  /** No node is reached from itself: each stands only on nodes numbered before it. */
  ghost predicate Acyclic(g: Graph) {
    forall i :: 0 <= i < |g.nodes| ==> Below(g, g.nodes[i], i)
  }

  // ---------------------------------------------------------------- what a "<<" names

  const MAX_MERGE_DEPTH := 64

  /** A node with the bound its aliases stay below. */
  datatype Place = Place(node: Node, bound: nat)

  /** unwrapMergeValue: through the wrappers between a "<<" and the mapping it names. */
  ghost function Unwrapped(g: Graph, node: Node, n: nat, fuel: nat): (r: Option<Place>)
    requires Acyclic(g) && n <= |g.nodes| && Below(g, node, n)
    ensures r.Some? ==> Below(g, r.value.node, r.value.bound) && r.value.bound <= n
    ensures r.Some? && r.value.bound == n ==> r.value.node == node || r.value.node < node
    decreases fuel
  {
    if fuel == 0 then None
    else
      match node
      case Anchor(inner) => Unwrapped(g, inner, n, fuel - 1)
      case Tagged(_, inner) => Unwrapped(g, inner, n, fuel - 1)
      case Alias(_, target) =>
        if target.None? then None else Unwrapped(g, g.nodes[target.value], target.value, fuel - 1)
      case _ => Some(Place(node, n))
  }

  /** One key and its value, still to be handed over. */
  datatype Pair = Pair(name: string, value: Node, bound: nat)

  /** What a source mapping names, its own "<<" as a key like any other. */
  function SourcePairs(entries: seq<Entry>, n: nat): (r: seq<Pair>)
    ensures |r| == |entries|
    ensures forall i :: 0 <= i < |r| ==> r[i].bound == n && r[i].value == entries[i].value
  {
    if entries == [] then []
    else
      [Pair(if entries[0].Own? then entries[0].name else "<<", entries[0].value, n)] + SourcePairs(entries[1..], n)
  }

  function OwnPairs(entries: seq<Entry>, n: nat): seq<Pair> {
    if entries == [] then []
    else (if entries[0].Own? then [Pair(entries[0].name, entries[0].value, n)] else []) + OwnPairs(entries[1..], n)
  }

  lemma OwnPairsSkip(entries: seq<Entry>, i: nat, n: nat)
    requires i < |entries| && entries[i].Merge?
    ensures OwnPairs(entries[i..], n) == OwnPairs(entries[i + 1..], n)
  {
    assert entries[i..][1..] == entries[i + 1..];
  }

  lemma OwnPairsCons(entries: seq<Entry>, i: nat, n: nat, rest: seq<Pair>, tail: seq<Pair>)
    requires i < |entries| && entries[i].Own? && rest == OwnPairs(entries[i..], n) + tail
    ensures rest != [] && rest[0] == Pair(entries[i].name, entries[i].value, n)
    ensures rest[1..] == OwnPairs(entries[i + 1..], n) + tail
  {
    assert entries[i..][1..] == entries[i + 1..];
  }

  /** The pair is smaller than the node it hangs under. */
  ghost predicate Under(g: Graph, p: Pair, n: nat, whole: Node) {
    Below(g, p.value, p.bound) && (p.bound < n || (p.bound == n && p.value < whole))
  }

  ghost predicate AllUnder(g: Graph, pairs: seq<Pair>, n: nat, whole: Node) {
    forall i :: 0 <= i < |pairs| ==> Under(g, pairs[i], n, whole)
  }

  /** mergeSources: the pairs of the mappings one "<<" names, earliest first, or None where the value is
      not a mapping and not a sequence of them. */
  ghost function MergePairs(g: Graph, value: Node, n: nat, whole: Node): (r: Option<seq<Pair>>)
    requires Acyclic(g) && n <= |g.nodes| && Below(g, value, n) && value < whole
    ensures r.Some? ==> AllUnder(g, r.value, n, whole)
  {
    var at := Unwrapped(g, value, n, MAX_MERGE_DEPTH);
    if at.None? then None
    else if at.value.node.Mapping? then MappingPairs(g, at.value, n, value, whole)
    else if at.value.node.Sequence? then ItemPairs(g, at.value.node.items, at.value.bound, n, value, whole)
    else None
  }

  ghost function MappingPairs(g: Graph, at: Place, n: nat, value: Node, whole: Node): (r: Option<seq<Pair>>)
    requires Below(g, at.node, at.bound) && at.bound <= n && value < whole
    requires at.bound == n ==> at.node == value || at.node < value
    ensures r.Some? ==> AllUnder(g, r.value, n, whole)
    ensures r.Some? <==> at.node.Mapping?
    ensures r.Some? ==> r.value == SourcePairs(at.node.entries, at.bound)
  {
    if !at.node.Mapping? then None
    else
      var pairs := SourcePairs(at.node.entries, at.bound);
      assert AllUnder(g, pairs, n, whole) by {
        forall i | 0 <= i < |pairs| ensures Under(g, pairs[i], n, whole) {
          assert pairs[i].value == at.node.entries[i].value;
          assert EntriesBelow(g, at.node.entries, at.bound);
          assert EntryBelow(g, at.node.entries[i], at.bound);
          assert at.node.entries[i].value < at.node;
        }
      }
      Some(pairs)
  }

  ghost function ItemPairs(g: Graph, items: seq<Node>, bound: nat, n: nat, value: Node,
                           whole: Node)
    : (r: Option<seq<Pair>>)
    requires Acyclic(g) && bound <= n <= |g.nodes| && value < whole
    requires forall i :: 0 <= i < |items| ==> Below(g, items[i], bound) && (bound == n ==> items[i] < value)
    ensures r.Some? ==> AllUnder(g, r.value, n, whole)
    decreases |items|
  {
    if items == [] then Some([])
    else
      var at := Unwrapped(g, items[0], bound, MAX_MERGE_DEPTH);
      if at.None? then None
      else
        var first := MappingPairs(g, at.value, n, value, whole);
        var rest := ItemPairs(g, items[1..], bound, n, value, whole);
        if first.None? || rest.None? then None else Some(first.value + rest.value)
  }

  /** What the "<<" entries of a mapping bring in, and whether one of them can bring in nothing. */
  ghost function Sources(g: Graph, entries: seq<Entry>, n: nat, whole: Node): (r: Option<seq<Pair>>)
    requires Acyclic(g) && n <= |g.nodes| && EntriesBelow(g, entries, n)
    requires forall i :: 0 <= i < |entries| ==> entries[i].value < whole
    ensures r.Some? ==> AllUnder(g, r.value, n, whole)
    decreases |entries|
  {
    if entries == [] then Some([])
    else
      var rest := Sources(g, entries[1..], n, whole);
      if entries[0].Own? then rest
      else
        var first := MergePairs(g, entries[0].value, n, whole);
        if first.None? || rest.None? then None else Some(first.value + rest.value)
  }

  /** The pairs that go over: the first to name a member stands. */
  function Kept(held: seq<string>, pairs: seq<Pair>): (r: seq<Pair>)
    ensures forall i :: 0 <= i < |r| ==> r[i] in pairs && r[i].name !in held
    decreases |pairs|
  {
    if pairs == [] then []
    else if pairs[0].name in held then Kept(held, pairs[1..])
    else [pairs[0]] + Kept(held + [pairs[0].name], pairs[1..])
  }

  // ---------------------------------------------------------------- the value a node denotes

  /** The JSON value node denotes, or None where it has none: an alias that stands for nothing, a "<<"
      that names no mapping or, where `held` is given, an alias named while one of its name is being
      written out. */
  ghost function Value(g: Graph, node: Node, n: nat, held: Option<seq<string>>): Option<Json>
    requires Acyclic(g) && n <= |g.nodes| && Below(g, node, n)
    decreases n, node, 1
  {
    match node
    case Scalar(worth) => Some(worth)
    case Anchor(inner) => Value(g, inner, n, held)
    case Tagged(resolved, inner) => if resolved.Some? then resolved else Value(g, inner, n, held)
    case Alias(name, target) =>
      if target.None? || (held.Some? && name in held.value) then None
      else Value(g, g.nodes[target.value], target.value, if held.Some? then Some(held.value + [name]) else None)
    case Sequence(items) =>
      var vs := ItemValues(g, items, n, held, node);
      if vs.None? then None else Some(Arr(vs.value))
    case Mapping(entries) =>
      var sources := Sources(g, entries, n, node);
      if sources.None? then None
      else
        OwnUnder(g, entries, n, node);
        KeptUnder(g, [], OwnPairs(entries, n) + sources.value, n, node);
        var members := PairValues(g, Kept([], OwnPairs(entries, n) + sources.value), n, held, node);
        if members.None? then None else Some(Obj(members.value))
  }

  ghost function ItemValues(g: Graph, items: seq<Node>, n: nat, held: Option<seq<string>>,
                            whole: Node)
    : (r: Option<seq<Json>>)
    requires Acyclic(g) && n <= |g.nodes|
    requires forall i :: 0 <= i < |items| ==> Below(g, items[i], n) && items[i] < whole
    decreases n, whole, 0, |items|
  {
    if items == [] then Some([])
    else
      var first, rest := Value(g, items[0], n, held), ItemValues(g, items[1..], n, held, whole);
      if first.None? || rest.None? then None else Some([first.value] + rest.value)
  }

  ghost function PairValues(g: Graph, pairs: seq<Pair>, n: nat, held: Option<seq<string>>,
                            whole: Node)
    : (r: Option<seq<Member>>)
    requires Acyclic(g) && n <= |g.nodes| && AllUnder(g, pairs, n, whole)
    ensures r.Some? ==> |r.value| == |pairs| && forall i :: 0 <= i < |pairs| ==> r.value[i].name == pairs[i].name
    decreases n, whole, 0, |pairs|
  {
    if pairs == [] then Some([])
    else
      assert Under(g, pairs[0], n, whole);
      assert AllUnder(g, pairs[1..], n, whole);
      var first, rest := Value(g, pairs[0].value, pairs[0].bound, held), PairValues(g, pairs[1..], n, held, whole);
      if first.None? || rest.None? then None else Some([Member(pairs[0].name, first.value)] + rest.value)
  }

  lemma {:induction false} OwnUnder(g: Graph, entries: seq<Entry>, n: nat, whole: Node)
    requires EntriesBelow(g, entries, n) && forall i :: 0 <= i < |entries| ==> entries[i].value < whole
    ensures AllUnder(g, OwnPairs(entries, n), n, whole)
  {
    if entries != [] {
      assert EntryBelow(g, entries[0], n);
      assert forall i :: 0 <= i < |entries[1..]| ==> entries[1..][i] == entries[i + 1];
      OwnUnder(g, entries[1..], n, whole);
    }
  }

  lemma KeptUnder(g: Graph, held: seq<string>, pairs: seq<Pair>, n: nat, whole: Node)
    requires AllUnder(g, pairs, n, whole)
    ensures AllUnder(g, Kept(held, pairs), n, whole)
  {
    forall i | 0 <= i < |Kept(held, pairs)| ensures Under(g, Kept(held, pairs)[i], n, whole) {
      assert Kept(held, pairs)[i] in pairs;
    }
  }

  // ---------------------------------------------------------------- names

  lemma {:induction false} KeptDistinct(held: seq<string>, pairs: seq<Pair>)
    ensures forall i, j :: 0 <= i < j < |Kept(held, pairs)| ==> Kept(held, pairs)[i].name != Kept(held, pairs)[j].name
    decreases |pairs|
  {
    if pairs != [] {
      if pairs[0].name in held {
        KeptDistinct(held, pairs[1..]);
      } else {
        var held' := held + [pairs[0].name];
        KeptDistinct(held', pairs[1..]);
        var rest := Kept(held', pairs[1..]);
        forall j | 0 <= j < |rest| ensures rest[j].name != pairs[0].name {
          assert pairs[0].name in held';
        }
      }
    }
  }

  ghost predicate AllUnique(vs: seq<Json>) {
    forall i :: 0 <= i < |vs| ==> UniqueNames(vs[i])
  }

  ghost predicate MembersUnique(ms: seq<Member>) {
    forall i :: 0 <= i < |ms| ==> UniqueNames(ms[i].value)
  }

  /** No object of a denoted value names a member twice. */
  lemma {:induction false} ValueNamesOnce(g: Graph, node: Node, n: nat, held: Option<seq<string>>)
    requires Acyclic(g) && n <= |g.nodes| && Below(g, node, n)
    ensures Value(g, node, n, held).Some? ==> UniqueNames(Value(g, node, n, held).value)
    decreases n, node, 1
  {
    match node
    case Scalar(_) =>
    case Anchor(inner) => ValueNamesOnce(g, inner, n, held);
    case Tagged(resolved, inner) => if resolved.None? { ValueNamesOnce(g, inner, n, held); }
    case Alias(name, target) =>
      if target.Some? {
        ValueNamesOnce(g, g.nodes[target.value], target.value, if held.Some? then Some(held.value + [name]) else None);
      }
    case Sequence(items) => ItemsNameOnce(g, items, n, held, node);
    case Mapping(entries) =>
      var sources := Sources(g, entries, n, node);
      if sources.Some? {
        var pairs := Kept([], OwnPairs(entries, n) + sources.value);
        OwnUnder(g, entries, n, node);
        KeptUnder(g, [], OwnPairs(entries, n) + sources.value, n, node);
        PairsNameOnce(g, pairs, n, held, node);
        KeptDistinct([], OwnPairs(entries, n) + sources.value);
        var ms := PairValues(g, pairs, n, held, node);
        if ms.Some? { ObjectUnique(ms.value, pairs); }
      }
  }

  lemma ObjectUnique(ms: seq<Member>, pairs: seq<Pair>)
    requires |ms| == |pairs| && forall i :: 0 <= i < |ms| ==> ms[i].name == pairs[i].name
    requires forall i, j :: 0 <= i < j < |pairs| ==> pairs[i].name != pairs[j].name
    requires MembersUnique(ms)
    ensures UniqueNames(Obj(ms))
  {
  }

  lemma {:induction false} ItemsNameOnce(g: Graph, items: seq<Node>, n: nat, held: Option<seq<string>>, whole: Node)
    requires Acyclic(g) && n <= |g.nodes|
    requires forall i :: 0 <= i < |items| ==> Below(g, items[i], n) && items[i] < whole
    ensures var vs := ItemValues(g, items, n, held, whole); vs.Some? ==> AllUnique(vs.value)
    decreases n, whole, 0, |items|
  {
    if items != [] {
      ValueNamesOnce(g, items[0], n, held);
      ItemsNameOnce(g, items[1..], n, held, whole);
    }
  }

  lemma {:induction false} PairsNameOnce(g: Graph, pairs: seq<Pair>, n: nat, held: Option<seq<string>>, whole: Node)
    requires Acyclic(g) && n <= |g.nodes| && AllUnder(g, pairs, n, whole)
    ensures var ms := PairValues(g, pairs, n, held, whole); ms.Some? ==> MembersUnique(ms.value)
    decreases n, whole, 0, |pairs|
  {
    if pairs != [] {
      assert Under(g, pairs[0], n, whole);
      assert AllUnder(g, pairs[1..], n, whole);
      ValueNamesOnce(g, pairs[0].value, pairs[0].bound, held);
      PairsNameOnce(g, pairs[1..], n, held, whole);
    }
  }

  // ---------------------------------------------------------------- the emitter

  /** What has gone over, where the conversion stands, and how many tokens were counted. */
  datatype Snap = Snap(out: seq<Token>, at: JsonPath.Place, count: int)

  /** A value handed over: its tokens, its slot filled, the depth as it was. */
  ghost function Wrote(s: Snap, v: Json): Snap {
    Snap(s.out + Tokens(v), s.at.(frames := JsonPath.Filled(s.at.frames)), s.count + |Tokens(v)|)
  }

  /** A value may go over next. */
  predicate Ready(p: JsonPath.Place) {
    p.frames == [] || JsonPath.Last(p.frames).inArray || !JsonPath.Last(p.frames).wantsKey
  }

  class Tokener {
    const state: JsonPath.JsonTokens
    const budget: int
    var out: seq<Token>
    var count: int
    var stopped: bool
    var expanding: seq<string>

    constructor (budget: int)
      ensures Now() == Snap([], JsonPath.START, 0) && !stopped && expanding == [] && fresh(state)
      ensures this.budget == budget
    {
      state := new JsonPath.JsonTokens();
      this.budget, out, count, stopped, expanding := budget, [], 0, false, [];
    }

    ghost function Now(): Snap
      reads this, state
    {
      Snap(out, state.At(), count)
    }

    ghost predicate Room(n: int)
      reads this
    {
      budget <= 0 || count + n <= budget
    }

    /** emit, for a token that goes straight to the range body. */
    method Emit(tok: Token)
      modifies this`out, this`count, this`stopped, state
      ensures old(stopped) ==> stopped && Now() == old(Now())
      ensures !stopped <==> old(!stopped && Room(1)) && JsonPath.WellFormed(old(state.At()), tok)
      ensures !stopped ==> Now() == Snap(old(out) + [tok], JsonPath.Stepped(old(state.At()), tok), old(count) + 1)
    {
      if stopped {
        return;
      }
      count := count + 1;
      if budget > 0 && count > budget {
        stopped := true;
        return;
      }
      if !JsonPath.WellFormed(JsonPath.Place(state.depth, state.frames), tok) {
        stopped := true;
        return;
      }
      out := out + [tok];
      state.Step(tok);
    }

    /** What a call that hands node over must come to: where it goes on, exactly the value's tokens; and
        it goes on wherever there is a value and room for it. */
    ghost predicate Done(was: Snap, v: Option<Json>)
      reads this, state
    {
      && (!stopped ==> v.Some? && Now() == Wrote(was, v.value))
      && (stopped ==> v.None? || !(budget <= 0 || was.count + |Tokens(v.value)| <= budget))
    }

    /** No more tokens have been counted than the budget, where there is one. */
    predicate InBudget()
      reads this`count
    {
      budget > 0 ==> count <= budget
    }

    /** emitTree. */
    method EmitTree(g: Graph, node: Node, ghost n: nat)
      requires Acyclic(g) && n <= |g.nodes| && Below(g, node, n)
      requires !stopped ==> Ready(state.At())
      modifies this`out, this`count, this`stopped, this`expanding, state
      ensures expanding == old(expanding)
      ensures old(stopped) ==> stopped && Now() == old(Now())
      ensures !old(stopped) ==> Done(old(Now()), Value(g, node, n, Some(old(expanding)))) && (!stopped ==> InBudget())
      decreases n, node, 2
    {
      if stopped {
        return;
      }
      match node
      case Scalar(worth) =>
        EmitScalar(worth);
      case Anchor(inner) =>
        EmitTree(g, inner, n);
      case Tagged(resolved, inner) =>
        if resolved.Some? {
          EmitScalar(resolved.value);
        } else {
          EmitTree(g, inner, n);
        }
      case Alias(name, target) =>
        if target.None? || name in expanding {
          stopped := true;
          return;
        }
        expanding := expanding + [name];
        EmitTree(g, g.nodes[target.value], target.value);
        expanding := expanding[..|expanding| - 1];
      case Sequence(items) =>
        EmitSequence(g, items, n, node);
      case Mapping(entries) =>
        EmitMapping(g, entries, n, node);
    }

    method EmitScalar(worth: Worth)
      requires !stopped && Ready(state.At())
      modifies this`out, this`count, this`stopped, state
      ensures Done(old(Now()), Some(worth)) && (!stopped ==> InBudget())
    {
      var tok := match worth
        case Null => NullToken
        case Bool(b) => BoolToken(b)
        case Number(digits) => NumberToken(digits)
        case Str(text) => StringToken(text);
      assert Tokens(worth) == [tok];
      Emit(tok);
    }

    /** Inside a collection opened from `was`, with `inner` handed over so far. */
    ghost predicate Within(was: Snap, open: Token, inner: seq<Token>)
      reads this, state
    {
      var slot := JsonPath.Filled(was.at.frames);
      && out == was.out + ([open] + inner)
      && count == was.count + 1 + |inner|
      && state.depth == was.at.depth + 1
      && |state.frames| == |slot| + 1 && state.frames[..|slot|] == slot
      && JsonPath.Last(state.frames).inArray == open.ArrayStart?
      && (open.ObjectStart? ==> JsonPath.Last(state.frames).wantsKey)
    }

    /** The opener: a collection with nothing in it yet. */
    method OpenCollection(open: Token)
      requires !stopped && Ready(state.At()) && Opens(open)
      modifies this`out, this`count, this`stopped, state
      ensures !stopped ==> Within(old(Now()), open, [])
      ensures stopped ==> budget > 0 && old(count) + 1 > budget
    {
      ghost var was := out;
      Emit(open);
      assert was + [open] == was + ([open] + []);
    }

    /** The closer: the collection has gone over whole. */
    method CloseCollection(open: Token, close: Token, ghost was: Snap, ghost inner: seq<Token>, ghost v: Json)
      requires !stopped && Opens(open) && Closes(close) && Within(was, open, inner)
      requires Tokens(v) == [open] + (inner + [close])
      modifies this`out, this`count, this`stopped, state
      ensures Done(was, Some(v)) && (!stopped ==> InBudget())
    {
      Emit(close);
      if !stopped {
        assert was.out + ([open] + inner) + [close] == was.out + Tokens(v);
      }
    }

    method EmitSequence(g: Graph, items: seq<Node>, ghost n: nat, ghost node: Node)
      requires Acyclic(g) && n <= |g.nodes| && Below(g, node, n) && node == Sequence(items)
      requires !stopped && Ready(state.At())
      modifies this`out, this`count, this`stopped, this`expanding, state
      ensures expanding == old(expanding)
      ensures Done(old(Now()), Value(g, node, n, Some(old(expanding)))) && (!stopped ==> InBudget())
      decreases n, node, 1
    {
      ghost var was, held := Now(), Some(expanding);
      OpenCollection(ArrayStart);
      ghost var done: seq<Json> := [];
      assert items[0..] == items;
      PrependedNothing(ItemValues(g, items, n, held, node));
      var i, count := 0, |items|;
      while i < count
        invariant i <= count && expanding == old(expanding)
        invariant ItemsGoing(g, items, i, n, node, was, held, done)
      {
        done := NextItem(g, items, i, n, node, was, held, done);
        i := i + 1;
      }
      if !stopped {
        assert items[|items|..] == [];
        assert done + [] == done;
        CloseCollection(ArrayStart, ArrayEnd, was, ItemTokens(done), Arr(done));
      }
    }

    /** An array with its first i items handed over. */
    ghost predicate ItemsGoing(g: Graph, items: seq<Node>, i: nat, n: nat, node: Node, was: Snap,
                               held: Option<seq<string>>, done: seq<Json>)
      reads this, state
      requires Acyclic(g) && n <= |g.nodes| && Below(g, node, n) && node == Sequence(items) && i <= |items|
    {
      var goal := ItemValues(g, items, n, held, node);
      && (!stopped ==> Within(was, ArrayStart, ItemTokens(done))
                       && goal == Prepended(done, ItemValues(g, items[i..], n, held, node)))
      && (stopped ==> goal.None? || NoRoom(was, Arr(goal.value)))
    }

    /** The next of them. */
    method NextItem(g: Graph, items: seq<Node>, i: nat, ghost n: nat, ghost node: Node, ghost was: Snap,
                    ghost held: Option<seq<string>>, ghost done: seq<Json>)
      returns (ghost done': seq<Json>)
      requires Acyclic(g) && n <= |g.nodes| && Below(g, node, n) && node == Sequence(items) && i < |items|
      requires held == Some(expanding) && ItemsGoing(g, items, i, n, node, was, held, done)
      modifies this`out, this`count, this`stopped, this`expanding, state
      ensures expanding == old(expanding)
      ensures ItemsGoing(g, items, i + 1, n, node, was, held, done')
      decreases n, node, 0
    {
      assert items[i..][1..] == items[i + 1..];
      ghost var v, rest := Value(g, items[i], n, held), ItemValues(g, items[i + 1..], n, held, node);
      if v.Some? && rest.Some? { ItemTokensMiddle(done, v.value, rest.value); }
      EmitItem(g, items[i], n, was, done);
      done' := done;
      if !stopped {
        PrependedSnoc(done, v.value, rest);
        done' := done + [v.value];
      }
    }

    /** One item, in an array under way. */
    method EmitItem(g: Graph, item: Node, ghost n: nat, ghost was: Snap, ghost done: seq<Json>)
      requires Acyclic(g) && n <= |g.nodes| && Below(g, item, n)
      requires !stopped ==> Within(was, ArrayStart, ItemTokens(done))
      modifies this`out, this`count, this`stopped, this`expanding, state
      ensures expanding == old(expanding)
      ensures old(stopped) ==> stopped
      ensures var v := Value(g, item, n, Some(old(expanding)));
              && (!stopped ==> v.Some? && Within(was, ArrayStart, ItemTokens(done + [v.value])))
              && (stopped && !old(stopped) ==>
                    v.None? || (budget > 0 && was.count + 1 + |ItemTokens(done)| + |Tokens(v.value)| > budget))
      decreases n, item, 3
    {
      ghost var v := Value(g, item, n, Some(expanding));
      EmitTree(g, item, n);
      if !stopped {
        ItemTokensSnoc(done, v.value);
        assert (was.out + ([ArrayStart] + ItemTokens(done))) + Tokens(v.value)
               == was.out + ([ArrayStart] + (ItemTokens(done) + Tokens(v.value)));
      }
    }

    /** emitTreeMapping: own entries first, then what the "<<" entries bring in. */
    method EmitMapping(g: Graph, entries: seq<Entry>, ghost n: nat, ghost node: Node)
      requires Acyclic(g) && n <= |g.nodes| && Below(g, node, n) && node == Mapping(entries)
      requires !stopped && Ready(state.At())
      modifies this`out, this`count, this`stopped, this`expanding, state
      ensures expanding == old(expanding)
      ensures Done(old(Now()), Value(g, node, n, Some(old(expanding)))) && (!stopped ==> InBudget())
      decreases n, node, 1
    {
      ghost var was, names := Now(), Some(expanding);
      OpenCollection(ObjectStart);
      OwnUnder(g, entries, n, node);
      ghost var src := Sources(g, entries, n, node);
      ghost var all := OwnPairs(entries, n) + Tail(g, entries, n, node);
      PrependedNothing(KeptValues(g, [], all, n, names, node));
      var held: seq<string>;
      var sources: Option<seq<seq<Entry>>>;
      ghost var bounds: seq<nat>;
      ghost var done: seq<Member>;
      held, sources, bounds, done := EmitOwn(g, entries, n, node, was, all, names);
      if sources.None? {
        stopped := true;
        return;
      }
      done := EmitSources(g, sources.value, bounds, held, was, all, done, n, names, node);
      if !stopped {
        assert done + [] == done;
        CloseCollection(ObjectStart, ObjectEnd, was, MemberTokens(done), Obj(done));
      }
    }

    /** The loop over a mapping's entries: its own handed over, the mappings its "<<" entries name
        gathered. */
    method EmitOwn(g: Graph, entries: seq<Entry>, ghost n: nat, ghost node: Node, ghost was: Snap, ghost all: seq<Pair>,
                   ghost names: Option<seq<string>>)
      returns (held: seq<string>, sources: Option<seq<seq<Entry>>>, ghost bounds: seq<nat>, ghost done: seq<Member>)
      requires Acyclic(g) && n <= |g.nodes| && Below(g, node, n) && node == Mapping(entries) && names == Some(expanding)
      requires AllUnder(g, all, n, node)
      requires all == OwnPairs(entries, n) + Tail(g, entries, n, node)
      requires Going(g, was, all, all, [], [], n, names, node)
      modifies this`out, this`count, this`stopped, this`expanding, state
      ensures expanding == old(expanding)
      ensures sources.None? <==> Sources(g, entries, n, node).None?
      ensures sources.Some?
              ==> |bounds| == |sources.value| && Sources(g, entries, n, node) == Some(Joined(sources.value, bounds))
      ensures sources.Some? ==> AllUnder(g, Joined(sources.value, bounds), n, node)
                                && Going(g, was, all, Joined(sources.value, bounds), held, done, n, names, node)
      decreases n, node, 0, 2
    {
      held, done, bounds := [], [], [];
      var found: seq<seq<Entry>> := [];
      ghost var rest := all;
      OwnLoopStarts(g, entries, n, node, was, all, names);
      for i := 0 to |entries|
        invariant expanding == old(expanding)
        invariant OwnLoop(g, entries, i, n, node, was, all, names, rest, held, done, found, bounds)
      {
        if entries[i].Merge? {
          var ok: bool;
          ok, found, bounds := MergeEntry(g, entries, i, n, node, was, all, names, rest, held, done, found, bounds);
          if !ok {
            return held, None, bounds, done;
          }
        } else {
          held, done, rest := OwnEntry(g, entries, i, n, node, was, all, names, rest, held, done, found, bounds);
        }
      }
      OwnLoopEnds(g, entries, n, node, was, all, names, rest, held, done, found, bounds);
      sources := Some(found);
    }

    lemma OwnLoopStarts(g: Graph, entries: seq<Entry>, n: nat, node: Node, was: Snap, all: seq<Pair>,
                        names: Option<seq<string>>)
      requires Acyclic(g) && n <= |g.nodes| && Below(g, node, n) && node == Mapping(entries)
      requires AllUnder(g, all, n, node)
      requires all == OwnPairs(entries, n) + Tail(g, entries, n, node)
      requires Going(g, was, all, all, [], [], n, names, node)
      ensures OwnLoop(g, entries, 0, n, node, was, all, names, all, [], [], [], [])
    {
      assert entries[0..] == entries;
      PrependedNothing(Sources(g, entries, n, node));
    }

    lemma OwnLoopEnds(g: Graph, entries: seq<Entry>, n: nat, node: Node, was: Snap, all: seq<Pair>,
                      names: Option<seq<string>>, rest: seq<Pair>, held: seq<string>, done: seq<Member>,
                      found: seq<seq<Entry>>, bounds: seq<nat>)
      requires Acyclic(g) && n <= |g.nodes| && Below(g, node, n) && node == Mapping(entries)
      requires AllUnder(g, all, n, node)
      requires OwnLoop(g, entries, |entries|, n, node, was, all, names, rest, held, done, found, bounds)
      ensures |found| == |bounds| && Sources(g, entries, n, node) == Some(Joined(found, bounds))
      ensures rest == Joined(found, bounds) && AllUnder(g, rest, n, node)
      ensures Going(g, was, all, rest, held, done, n, names, node)
    {
      GatheredAll(g, entries, n, node, found, bounds);
      assert entries[|entries|..] == [];
      var none: seq<Pair> := [];
      assert none + Joined(found, bounds) == Joined(found, bounds);
    }

    method MergeEntry(g: Graph, entries: seq<Entry>, i: nat, ghost n: nat, ghost node: Node, ghost was: Snap,
                      ghost all: seq<Pair>, ghost names: Option<seq<string>>, ghost rest: seq<Pair>,
                      ghost held: seq<string>,
                      ghost done: seq<Member>, found: seq<seq<Entry>>, ghost bounds: seq<nat>)
      returns (ok: bool, found': seq<seq<Entry>>, ghost bounds': seq<nat>)
      requires Acyclic(g) && n <= |g.nodes| && Below(g, node, n) && node == Mapping(entries)
      requires AllUnder(g, all, n, node)
      requires i < |entries| && entries[i].Merge?
      requires OwnLoop(g, entries, i, n, node, was, all, names, rest, held, done, found, bounds)
      ensures ok ==> OwnLoop(g, entries, i + 1, n, node, was, all, names, rest, held, done, found', bounds')
      ensures !ok ==> Sources(g, entries, n, node).None?
    {
      OwnPairsSkip(entries, i, n);
      ok, found', bounds' := GatherMerge(g, entries, i, n, node, found, bounds);
    }

    ghost predicate OwnLoop(g: Graph, entries: seq<Entry>, i: nat, n: nat, node: Node, was: Snap, all: seq<Pair>,
                            names: Option<seq<string>>, rest: seq<Pair>, held: seq<string>, done: seq<Member>,
                            found: seq<seq<Entry>>, bounds: seq<nat>)
      reads this, state
      requires Acyclic(g) && n <= |g.nodes| && Below(g, node, n) && node == Mapping(entries)
      requires AllUnder(g, all, n, node)
      requires i <= |entries|
    {
      && rest == OwnPairs(entries[i..], n) + Tail(g, entries, n, node)
      && AllUnder(g, rest, n, node)
      && Gathered(g, entries, i, n, node, found, bounds)
      && Going(g, was, all, rest, held, done, n, names, node)
    }

    method OwnEntry(g: Graph, entries: seq<Entry>, i: nat, ghost n: nat, ghost node: Node, ghost was: Snap,
                    ghost all: seq<Pair>, ghost names: Option<seq<string>>, ghost rest: seq<Pair>, held: seq<string>,
                    ghost done: seq<Member>, ghost found: seq<seq<Entry>>, ghost bounds: seq<nat>)
      returns (held': seq<string>, ghost done': seq<Member>, ghost rest': seq<Pair>)
      requires Acyclic(g) && n <= |g.nodes| && Below(g, node, n) && node == Mapping(entries)
      requires AllUnder(g, all, n, node)
      requires i < |entries| && entries[i].Own? && names == Some(expanding)
      requires OwnLoop(g, entries, i, n, node, was, all, names, rest, held, done, found, bounds)
      modifies this`out, this`count, this`stopped, this`expanding, state
      ensures expanding == old(expanding)
      ensures OwnLoop(g, entries, i + 1, n, node, was, all, names, rest', held', done', found, bounds)
      decreases n, node, 0, 1
    {
      OwnPairsCons(entries, i, n, rest, Tail(g, entries, n, node));
      rest' := rest[1..];
      held', done' := EmitMember(g, entries[i].name, entries[i].value, n, held, was, all, rest, done, n, names, node);
      GatheredOwn(g, entries, i, n, node, found, bounds);
    }

    /** The loop over those mappings, earliest first. */
    method EmitSources(g: Graph, sources: seq<seq<Entry>>, ghost bounds: seq<nat>, given: seq<string>, ghost was: Snap,
                       ghost all: seq<Pair>, ghost before: seq<Member>, ghost n: nat, ghost names: Option<seq<string>>,
                       ghost node: Node)
      returns (ghost done: seq<Member>)
      requires Acyclic(g) && n <= |g.nodes| && AllUnder(g, all, n, node) && |bounds| == |sources|
      requires names == Some(expanding)
      requires AllUnder(g, Joined(sources, bounds), n, node)
      requires Going(g, was, all, Joined(sources, bounds), given, before, n, names, node)
      modifies this`out, this`count, this`stopped, this`expanding, state
      ensures expanding == old(expanding)
      ensures exists held :: Going(g, was, all, [], held, done, n, names, node)
      decreases n, node, 0, 2
    {
      var held := given;
      done := before;
      assert sources[0..] == sources && bounds[0..] == bounds;
      for j := 0 to |sources|
        invariant expanding == old(expanding)
        invariant AllUnder(g, Joined(sources[j..], bounds[j..]), n, node)
        invariant Going(g, was, all, Joined(sources[j..], bounds[j..]), held, done, n, names, node)
      {
        assert sources[j..][1..] == sources[j + 1..] && bounds[j..][1..] == bounds[j + 1..];
        held, done := EmitSource(g, sources[j], bounds[j], Joined(sources[j + 1..], bounds[j + 1..]), held,
                                 was, all, done, n, names, node);
      }
    }

    /** One mapping's entries, a "<<" of its own as a key like any other. */
    method EmitSource(g: Graph, entries: seq<Entry>, ghost bound: nat, ghost later: seq<Pair>, given: seq<string>,
                      ghost was: Snap, ghost all: seq<Pair>, ghost before: seq<Member>, ghost n: nat,
                      ghost names: Option<seq<string>>, ghost node: Node)
      returns (held: seq<string>, ghost done: seq<Member>)
      requires Acyclic(g) && n <= |g.nodes| && AllUnder(g, all, n, node) && names == Some(expanding)
      requires AllUnder(g, SourcePairs(entries, bound) + later, n, node)
      requires Going(g, was, all, SourcePairs(entries, bound) + later, given, before, n, names, node)
      modifies this`out, this`count, this`stopped, this`expanding, state
      ensures expanding == old(expanding)
      ensures AllUnder(g, later, n, node) && Going(g, was, all, later, held, done, n, names, node)
      decreases n, node, 0, 1
    {
      held, done := given, before;
      ghost var rest := SourcePairs(entries, bound) + later;
      assert entries[0..] == entries;
      for k := 0 to |entries|
        invariant expanding == old(expanding)
        invariant rest == SourcePairs(entries[k..], bound) + later && AllUnder(g, rest, n, node)
        invariant Going(g, was, all, rest, held, done, n, names, node)
      {
        assert entries[k..][1..] == entries[k + 1..];
        var name := if entries[k].Own? then entries[k].name else "<<";
        assert rest[1..] == SourcePairs(entries[k + 1..], bound) + later;
        held, done := EmitMember(g, name, entries[k].value, bound, held, was, all, rest, done, n, names, node);
        rest := rest[1..];
      }
      assert entries[|entries|..] == [];
      assert [] + later == later;
    }

    /** A mapping's pairs handed over one after another: `rest` is still to come, `held` are the names
        taken, `done` the members that have gone over. */
    ghost predicate Going(g: Graph, was: Snap, all: seq<Pair>, rest: seq<Pair>, held: seq<string>, done: seq<Member>,
                          n: nat, names: Option<seq<string>>, node: Node)
      reads this, state
      requires Acyclic(g) && n <= |g.nodes| && AllUnder(g, all, n, node) && AllUnder(g, rest, n, node)
    {
      var goal := KeptValues(g, [], all, n, names, node);
      && (!stopped ==> Within(was, ObjectStart, MemberTokens(done))
                       && goal == Prepended(done, KeptValues(g, held, rest, n, names, node)))
      && (stopped ==> goal.None? || NoRoom(was, Obj(goal.value)))
    }

    /** One pair: passed over where its name is taken, else its key and its value. */
    method EmitMember(g: Graph, name: string, value: Node, ghost bound: nat, held: seq<string>, ghost was: Snap,
                      ghost all: seq<Pair>, ghost rest: seq<Pair>, ghost done: seq<Member>,
                      ghost n: nat, ghost names: Option<seq<string>>, ghost node: Node)
      returns (held': seq<string>, ghost done': seq<Member>)
      requires Acyclic(g) && n <= |g.nodes| && AllUnder(g, all, n, node) && AllUnder(g, rest, n, node)
      requires rest != [] && rest[0] == Pair(name, value, bound) && names == Some(expanding)
      requires Going(g, was, all, rest, held, done, n, names, node)
      modifies this`out, this`count, this`stopped, this`expanding, state
      ensures expanding == old(expanding)
      ensures AllUnder(g, rest[1..], n, node) && Going(g, was, all, rest[1..], held', done', n, names, node)
      decreases n, node, 0, 0
    {
      assert Under(g, rest[0], n, node);
      held', done' := held, done;
      if name in held {
        return;
      }
      held' := held + [name];
      KeptCons(g, held, rest, n, names, node);
      ghost var going, v := !stopped, Value(g, value, bound, names);
      ghost var more := KeptValues(g, held', rest[1..], n, names, node);
      EmitEntry(g, name, value, bound, was, done);
      if v.Some? && more.Some? { MemberTokensMiddle(done, Member(name, v.value), more.value); }
      if !stopped {
        PrependedSnoc(done, Member(name, v.value), more);
        done' := done + [Member(name, v.value)];
      }
    }

    /** A key and its value, in an object under way. */
    method EmitEntry(g: Graph, name: string, value: Node, ghost n: nat, ghost was: Snap, ghost done: seq<Member>)
      requires Acyclic(g) && n <= |g.nodes| && Below(g, value, n)
      requires !stopped ==> Within(was, ObjectStart, MemberTokens(done))
      modifies this`out, this`count, this`stopped, this`expanding, state
      ensures expanding == old(expanding)
      ensures old(stopped) ==> stopped
      ensures var v := Value(g, value, n, Some(old(expanding)));
              && (!stopped ==> v.Some? && Within(was, ObjectStart, MemberTokens(done + [Member(name, v.value)])))
              && (stopped && !old(stopped) ==>
                    v.None? || (budget > 0 && was.count + 2 + |MemberTokens(done)| + |Tokens(v.value)| > budget))
      decreases n, value, 3
    {
      ghost var v := Value(g, value, n, Some(expanding));
      Emit(Key(name));
      EmitTree(g, value, n);
      if !stopped {
        MemberTokensSnoc(done, Member(name, v.value));
        EntryText(was.out, MemberTokens(done), Key(name), Tokens(v.value));
      }
    }

    ghost predicate NoRoom(was: Snap, v: Json)
      reads this
    {
      budget > 0 && was.count + |Tokens(v)| > budget
    }
  }

  lemma EntryText(out: seq<Token>, inner: seq<Token>, key: Token, value: seq<Token>)
    ensures (out + ([ObjectStart] + inner)) + [key] + value == out + ([ObjectStart] + (inner + ([key] + value)))
  {
  }

  lemma GatherSources(found: seq<seq<Entry>>, bounds: seq<nat>, more: seq<seq<Entry>>, at: seq<nat>,
                      later: Option<seq<Pair>>)
    requires |found| == |bounds| && |more| == |at|
    ensures Prepended(Joined(found, bounds), if later.None? then None else Some(Joined(more, at) + later.value))
            == Prepended(Joined(found + more, bounds + at), later)
  {
    JoinedConcat(found, bounds, more, at);
    if later.Some? { Assoc(Joined(found, bounds), Joined(more, at), later.value); }
  }

  /** The members that come of pairs, the names held being taken already. */
  ghost function KeptValues(g: Graph, held: seq<string>, pairs: seq<Pair>, n: nat, names: Option<seq<string>>,
                            node: Node)
    : Option<seq<Member>>
    requires Acyclic(g) && n <= |g.nodes| && AllUnder(g, pairs, n, node)
  {
    KeptUnder(g, held, pairs, n, node);
    PairValues(g, Kept(held, pairs), n, names, node)
  }

  lemma KeptCons(g: Graph, held: seq<string>, pairs: seq<Pair>, n: nat, names: Option<seq<string>>, node: Node)
    requires Acyclic(g) && n <= |g.nodes| && AllUnder(g, pairs, n, node)
    requires pairs != [] && pairs[0].name !in held
    ensures AllUnder(g, pairs[1..], n, node) && Under(g, pairs[0], n, node)
    ensures var v := Value(g, pairs[0].value, pairs[0].bound, names);
            var more := KeptValues(g, held + [pairs[0].name], pairs[1..], n, names, node);
            KeptValues(g, held, pairs, n, names, node)
            == if v.None? || more.None? then None else Some([Member(pairs[0].name, v.value)] + more.value)
  {
    assert Under(g, pairs[0], n, node);
    KeptUnder(g, held, pairs, n, node);
    var rest := Kept(held + [pairs[0].name], pairs[1..]);
    assert Kept(held, pairs) == [pairs[0]] + rest;
    assert ([pairs[0]] + rest)[1..] == rest;
  }

  lemma MemberTokensSnoc(a: seq<Member>, m: Member)
    ensures MemberTokens(a + [m]) == MemberTokens(a) + ([Key(m.name)] + Tokens(m.value))
  {
    MemberTokensConcat(a, [m]);
    MemberTokensOne(m);
  }

  lemma MemberTokensMiddle(a: seq<Member>, m: Member, b: seq<Member>)
    ensures |Tokens(Obj(a + ([m] + b)))| >= 2 + |MemberTokens(a)| + |Tokens(m.value)|
  {
    MemberTokensConcat(a, [m] + b);
    assert ([m] + b)[1..] == b;
  }

  // ---------------------------------------------------------------- the sources of a "<<"

  ghost function Joined(sources: seq<seq<Entry>>, bounds: seq<nat>): seq<Pair>
    requires |sources| == |bounds|
  {
    if sources == [] then [] else SourcePairs(sources[0], bounds[0]) + Joined(sources[1..], bounds[1..])
  }

  lemma {:induction false} JoinedConcat(a: seq<seq<Entry>>, x: seq<nat>, b: seq<seq<Entry>>, y: seq<nat>)
    requires |a| == |x| && |b| == |y|
    ensures Joined(a + b, x + y) == Joined(a, x) + Joined(b, y)
  {
    if a == [] {
      assert a + b == b && x + y == y;
    } else {
      assert (a + b)[1..] == a[1..] + b && (x + y)[1..] == x[1..] + y;
      JoinedConcat(a[1..], x[1..], b, y);
      Assoc(SourcePairs(a[0], x[0]), Joined(a[1..], x[1..]), Joined(b, y));
    }
  }

  lemma Assoc(a: seq<Pair>, b: seq<Pair>, c: seq<Pair>)
    ensures (a + b) + c == a + (b + c)
  {
  }

  /** unwrapMergeValue. */
  method UnwrapMergeValue(g: Graph, node: Node, ghost n: nat) returns (r: Option<Node>, ghost bound: nat)
    requires Acyclic(g) && n <= |g.nodes| && Below(g, node, n)
    ensures r.Some? ==> Unwrapped(g, node, n, MAX_MERGE_DEPTH) == Some(Place(r.value, bound))
    ensures r.None? ==> Unwrapped(g, node, n, MAX_MERGE_DEPTH) == None
  {
    var at := node;
    bound := n;
    for i := 0 to MAX_MERGE_DEPTH
      invariant bound <= |g.nodes| && Below(g, at, bound)
      invariant Unwrapped(g, at, bound, MAX_MERGE_DEPTH - i) == Unwrapped(g, node, n, MAX_MERGE_DEPTH)
    {
      match at
      case Anchor(inner) => at := inner;
      case Tagged(_, inner) => at := inner;
      case Alias(_, target) =>
        if target.None? {
          return None, 0;
        }
        at, bound := g.nodes[target.value], target.value;
      case _ =>
        return Some(at), bound;
    }
    return None, 0;
  }

  /** mergeSources: the mappings a "<<" names, earliest first. */
  method MergeSources(g: Graph, value: Node, ghost n: nat, ghost whole: Node)
    returns (found: Option<seq<seq<Entry>>>, ghost bounds: seq<nat>)
    requires Acyclic(g) && n <= |g.nodes| && Below(g, value, n) && value < whole
    ensures found.Some? ==> |bounds| == |found.value|
                            && MergePairs(g, value, n, whole) == Some(Joined(found.value, bounds))
    ensures found.None? ==> MergePairs(g, value, n, whole) == None
  {
    bounds := [];
    var at: Option<Node>;
    ghost var bound: nat;
    at, bound := UnwrapMergeValue(g, value, n);
    if at.None? {
      return None, [];
    }
    if at.value.Mapping? {
      bounds := [bound];
      JoinedOne(at.value.entries, bound);
      return Some([at.value.entries]), bounds;
    }
    if !at.value.Sequence? {
      return None, [];
    }
    found, bounds := ItemSources(g, at.value.items, bound, n, value, whole);
  }

  /** The entries of a sequence of sources, each standing below the bound. */
  ghost predicate ItemsBelow(g: Graph, items: seq<Node>, bound: nat, n: nat, value: Node) {
    forall i :: 0 <= i < |items| ==> Below(g, items[i], bound) && (bound == n ==> items[i] < value)
  }

  /** What the i'th source on bring in. */
  ghost function ItemPairsFrom(g: Graph, items: seq<Node>, i: nat, bound: nat, n: nat, value: Node, whole: Node)
    : Option<seq<Pair>>
    requires Acyclic(g) && bound <= n <= |g.nodes| && value < whole && ItemsBelow(g, items, bound, n, value)
    requires i <= |items|
  {
    ItemPairs(g, items[i..], bound, n, value, whole)
  }

  lemma ItemPairsStep(g: Graph, items: seq<Node>, i: nat, bound: nat, n: nat, value: Node, whole: Node,
                      at: Option<Place>)
    requires Acyclic(g) && bound <= n <= |g.nodes| && value < whole && ItemsBelow(g, items, bound, n, value)
    requires i < |items| && at == Unwrapped(g, items[i], bound, MAX_MERGE_DEPTH)
    ensures ItemPairsFrom(g, items, i, bound, n, value, whole)
            == if at.None? || !at.value.node.Mapping? then None
               else Prepended(Joined([at.value.node.entries], [at.value.bound]),
                              ItemPairsFrom(g, items, i + 1, bound, n, value, whole))
  {
    assert items[i..][1..] == items[i + 1..];
    if at.Some? && at.value.node.Mapping? { JoinedOne(at.value.node.entries, at.value.bound); }
  }

  /** The loop over a sequence of them. */
  method ItemSources(g: Graph, items: seq<Node>, ghost bound: nat, ghost n: nat, ghost value: Node, ghost whole: Node)
    returns (found: Option<seq<seq<Entry>>>, ghost bounds: seq<nat>)
    requires Acyclic(g) && bound <= n <= |g.nodes| && value < whole && ItemsBelow(g, items, bound, n, value)
    ensures found.Some? ==> |bounds| == |found.value|
                            && ItemPairs(g, items, bound, n, value, whole) == Some(Joined(found.value, bounds))
    ensures found.None? ==> ItemPairs(g, items, bound, n, value, whole) == None
  {
    bounds := [];
    ghost var goal := ItemPairs(g, items, bound, n, value, whole);
    var out: seq<seq<Entry>> := [];
    assert items[0..] == items;
    PrependedNothing(goal);
    var i, count := 0, |items|;
    while i < count
      invariant i <= count && |bounds| == |out|
      invariant goal == Prepended(Joined(out, bounds), ItemPairsFrom(g, items, i, bound, n, value, whole))
    {
      var m: Option<Node>;
      ghost var b: nat;
      m, b := UnwrapMergeValue(g, items[i], bound);
      ItemPairsStep(g, items, i, bound, n, value, whole, if m.None? then None else Some(Place(m.value, b)));
      if m.None? || !m.value.Mapping? {
        return None, [];
      }
      GatherSources(out, bounds, [m.value.entries], [b], ItemPairsFrom(g, items, i + 1, bound, n, value, whole));
      out, bounds, i := out + [m.value.entries], bounds + [b], i + 1;
    }
    assert items[count..] == [];
    assert Joined(out, bounds) + [] == Joined(out, bounds);
    return Some(out), bounds;
  }

  /** The mappings gathered from the first i entries of a mapping, and where they leave its sources. */
  ghost predicate Gathered(g: Graph, entries: seq<Entry>, i: nat, n: nat, node: Node, found: seq<seq<Entry>>,
                           bounds: seq<nat>)
    requires Acyclic(g) && n <= |g.nodes| && Below(g, node, n) && node == Mapping(entries) && i <= |entries|
  {
    && |found| == |bounds|
    && Sources(g, entries, n, node) == Prepended(Joined(found, bounds), SourcesFrom(g, entries, i, n, node))
  }

  /** What follows a mapping's own pairs: the sources', where every "<<" names some. */
  ghost function Tail(g: Graph, entries: seq<Entry>, n: nat, node: Node): (r: seq<Pair>)
    requires Acyclic(g) && n <= |g.nodes| && Below(g, node, n) && node == Mapping(entries)
    ensures AllUnder(g, r, n, node)
  {
    var src := Sources(g, entries, n, node);
    if src.Some? then src.value else []
  }

  ghost function SourcesFrom(g: Graph, entries: seq<Entry>, i: nat, n: nat, node: Node): (r: Option<seq<Pair>>)
    requires Acyclic(g) && n <= |g.nodes| && Below(g, node, n) && node == Mapping(entries) && i <= |entries|
    ensures r.Some? ==> AllUnder(g, r.value, n, node)
  {
    assert forall j :: 0 <= j < |entries[i..]| ==> entries[i..][j] == entries[i + j];
    Sources(g, entries[i..], n, node)
  }

  lemma GatheredOwn(g: Graph, entries: seq<Entry>, i: nat, n: nat, node: Node, found: seq<seq<Entry>>, bounds: seq<nat>)
    requires Acyclic(g) && n <= |g.nodes| && Below(g, node, n) && node == Mapping(entries) && i < |entries|
    requires entries[i].Own?
    requires Gathered(g, entries, i, n, node, found, bounds)
    ensures Gathered(g, entries, i + 1, n, node, found, bounds)
  {
    assert entries[i..][1..] == entries[i + 1..];
  }

  lemma GatheredAll(g: Graph, entries: seq<Entry>, n: nat, node: Node, found: seq<seq<Entry>>, bounds: seq<nat>)
    requires Acyclic(g) && n <= |g.nodes| && Below(g, node, n) && node == Mapping(entries)
    requires Gathered(g, entries, |entries|, n, node, found, bounds)
    ensures |found| == |bounds| && Sources(g, entries, n, node) == Some(Joined(found, bounds))
  {
    assert entries[|entries|..] == [];
    assert Joined(found, bounds) + [] == Joined(found, bounds);
  }

  method GatherMerge(g: Graph, entries: seq<Entry>, i: nat, ghost n: nat, ghost node: Node,
                     found: seq<seq<Entry>>, ghost bounds: seq<nat>)
    returns (ok: bool, found': seq<seq<Entry>>, ghost bounds': seq<nat>)
    requires Acyclic(g) && n <= |g.nodes| && Below(g, node, n) && node == Mapping(entries) && i < |entries|
    requires entries[i].Merge?
    requires Gathered(g, entries, i, n, node, found, bounds)
    ensures ok ==> Gathered(g, entries, i + 1, n, node, found', bounds')
    ensures !ok ==> Sources(g, entries, n, node).None?
  {
    assert entries[i..][1..] == entries[i + 1..];
    assert EntryBelow(g, entries[i], n);
    var more: Option<seq<seq<Entry>>>;
    ghost var at: seq<nat>;
    more, at := MergeSources(g, entries[i].value, n, node);
    if more.None? {
      return false, found, bounds;
    }
    GatherSources(found, bounds, more.value, at, SourcesFrom(g, entries, i + 1, n, node));
    return true, found + more.value, bounds + at;
  }

  lemma JoinedOne(entries: seq<Entry>, bound: nat)
    ensures Joined([entries], [bound]) == SourcePairs(entries, bound)
  {
    var none: seq<seq<Entry>> := [];
    assert [entries][1..] == none && Joined(none, [bound][1..]) == [];
    assert SourcePairs(entries, bound) + [] == SourcePairs(entries, bound);
  }

  ghost function Prepended<T>(done: seq<T>, rest: Option<seq<T>>): Option<seq<T>> {
    if rest.None? then None else Some(done + rest.value)
  }

  lemma PrependedNothing<T>(rest: Option<seq<T>>)
    ensures Prepended([], rest) == rest
  {
    if rest.Some? { assert [] + rest.value == rest.value; }
  }

  lemma PrependedSnoc<T>(done: seq<T>, v: T, rest: Option<seq<T>>)
    ensures rest.Some? ==> Prepended(done, Some([v] + rest.value)) == Prepended(done + [v], rest)
  {
    if rest.Some? { assert done + ([v] + rest.value) == (done + [v]) + rest.value; }
  }

  lemma {:induction false} ItemTokensConcat(a: seq<Json>, b: seq<Json>)
    ensures ItemTokens(a + b) == ItemTokens(a) + ItemTokens(b)
  {
    if a == [] {
      assert a + b == b;
    } else {
      assert (a + b)[1..] == a[1..] + b;
      ItemTokensConcat(a[1..], b);
      var one, x, y := Tokens(a[0]), ItemTokens(a[1..]), ItemTokens(b);
      assert (one + x) + y == one + (x + y);
    }
  }

  lemma ItemTokensSnoc(a: seq<Json>, v: Json)
    ensures ItemTokens(a + [v]) == ItemTokens(a) + Tokens(v)
  {
    ItemTokensConcat(a, [v]);
    assert [v][1..] == [];
  }

  /** The tokens of an array are at least those of a stretch of its items. */
  lemma ItemTokensMiddle(a: seq<Json>, v: Json, b: seq<Json>)
    ensures |Tokens(Arr(a + ([v] + b)))| >= 1 + |ItemTokens(a)| + |Tokens(v)|
  {
    ItemTokensConcat(a, [v] + b);
    assert ([v] + b)[1..] == b;
  }

  // ---------------------------------------------------------------- when an alias is refused

  /** Written out from node, an alias is reached, through the items and the members kept, while its name is
      one being written out. */
  ghost predicate Repeats(g: Graph, node: Node, n: nat, held: seq<string>)
    requires Acyclic(g) && n <= |g.nodes| && Below(g, node, n)
    decreases n, node, 1
  {
    match node
    case Scalar(_) => false
    case Anchor(inner) => Repeats(g, inner, n, held)
    case Tagged(resolved, inner) => resolved.None? && Repeats(g, inner, n, held)
    case Alias(name, target) =>
      target.Some? && (name in held || Repeats(g, g.nodes[target.value], target.value, held + [name]))
    case Sequence(items) => ItemsRepeat(g, items, n, held, node)
    case Mapping(entries) =>
      var sources := Sources(g, entries, n, node);
      if sources.None? then false
      else
        OwnUnder(g, entries, n, node);
        KeptUnder(g, [], OwnPairs(entries, n) + sources.value, n, node);
        PairsRepeat(g, Kept([], OwnPairs(entries, n) + sources.value), n, held, node)
  }

  ghost predicate ItemsRepeat(g: Graph, items: seq<Node>, n: nat, held: seq<string>, whole: Node)
    requires Acyclic(g) && n <= |g.nodes|
    requires forall i :: 0 <= i < |items| ==> Below(g, items[i], n) && items[i] < whole
    decreases n, whole, 0, |items|
  {
    items != [] && (Repeats(g, items[0], n, held) || ItemsRepeat(g, items[1..], n, held, whole))
  }

  ghost predicate PairsRepeat(g: Graph, pairs: seq<Pair>, n: nat, held: seq<string>, whole: Node)
    requires Acyclic(g) && n <= |g.nodes| && AllUnder(g, pairs, n, whole)
    decreases n, whole, 0, |pairs|
  {
    pairs != [] &&
    (assert Under(g, pairs[0], n, whole);
     assert AllUnder(g, pairs[1..], n, whole);
     Repeats(g, pairs[0].value, pairs[0].bound, held) || PairsRepeat(g, pairs[1..], n, held, whole))
  }

  /** On an acyclic graph a name met again is refused, and nothing else is for the check: what goes over is
      the value the graph denotes without it, unless an alias is reached while its name is being written
      out, and then nothing does. */
  lemma {:induction false} RefusedExactly(g: Graph, node: Node, n: nat, held: seq<string>)
    requires Acyclic(g) && n <= |g.nodes| && Below(g, node, n)
    ensures Value(g, node, n, Some(held)) == if Repeats(g, node, n, held) then None else Value(g, node, n, None)
    decreases n, node, 1
  {
    match node
    case Scalar(_) =>
    case Anchor(inner) => RefusedExactly(g, inner, n, held);
    case Tagged(resolved, inner) => if resolved.None? { RefusedExactly(g, inner, n, held); }
    case Alias(name, target) =>
      if target.Some? && name !in held {
        RefusedExactly(g, g.nodes[target.value], target.value, held + [name]);
      }
    case Sequence(items) => ItemsRefused(g, items, n, held, node);
    case Mapping(entries) =>
      var sources := Sources(g, entries, n, node);
      if sources.Some? {
        var all := OwnPairs(entries, n) + sources.value;
        OwnUnder(g, entries, n, node);
        KeptUnder(g, [], all, n, node);
        PairsRefused(g, Kept([], all), n, held, node);
      }
  }

  lemma {:induction false} ItemsRefused(g: Graph, items: seq<Node>, n: nat, held: seq<string>, whole: Node)
    requires Acyclic(g) && n <= |g.nodes|
    requires forall i :: 0 <= i < |items| ==> Below(g, items[i], n) && items[i] < whole
    ensures ItemValues(g, items, n, Some(held), whole)
            == if ItemsRepeat(g, items, n, held, whole) then None else ItemValues(g, items, n, None, whole)
    decreases n, whole, 0, |items|
  {
    if items != [] {
      RefusedExactly(g, items[0], n, held);
      ItemsRefused(g, items[1..], n, held, whole);
    }
  }

  lemma {:induction false} PairsRefused(g: Graph, pairs: seq<Pair>, n: nat, held: seq<string>, whole: Node)
    requires Acyclic(g) && n <= |g.nodes| && AllUnder(g, pairs, n, whole)
    ensures PairValues(g, pairs, n, Some(held), whole)
            == if PairsRepeat(g, pairs, n, held, whole) then None else PairValues(g, pairs, n, None, whole)
    decreases n, whole, 0, |pairs|
  {
    if pairs != [] {
      assert Under(g, pairs[0], n, whole);
      assert AllUnder(g, pairs[1..], n, whole);
      RefusedExactly(g, pairs[0].value, pairs[0].bound, held);
      PairsRefused(g, pairs[1..], n, held, whole);
    }
  }

  /** Where each anchor has a name of its own, the names being written out are those of nodes numbered
      from n on. */
  ghost predicate OuterNames(g: Graph, held: seq<string>, n: nat)
    requires g.labels.Some?
  {
    forall i :: 0 <= i < |held| ==> Outer(g, held[i], n)
  }

  ghost predicate Outer(g: Graph, name: string, n: nat)
    requires g.labels.Some?
  {
    exists j :: n <= j < |g.labels.value| && g.labels.value[j] == name
  }

  ghost predicate OneNameEach(g: Graph) {
    g.labels.Some? && forall i, j :: 0 <= i < j < |g.labels.value| ==> g.labels.value[i] != g.labels.value[j]
  }

  lemma FewerOuter(g: Graph, held: seq<string>, n: nat, m: nat)
    requires g.labels.Some? && m <= n && OuterNames(g, held, n)
    ensures OuterNames(g, held, m)
  {
    forall i | 0 <= i < |held| ensures Outer(g, held[i], m) {
      assert Outer(g, held[i], n);
      var j :| n <= j < |g.labels.value| && g.labels.value[j] == held[i];
    }
  }

  lemma NotBeingWritten(g: Graph, held: seq<string>, n: nat, t: nat, name: string)
    requires OneNameEach(g) && OuterNames(g, held, n) && t < n
    requires t < |g.labels.value| && g.labels.value[t] == name
    ensures name !in held
  {
    forall i | 0 <= i < |held| ensures held[i] != name {
      assert Outer(g, held[i], n);
      var j :| n <= j < |g.labels.value| && g.labels.value[j] == held[i];
    }
  }

  /** Where each anchor of an acyclic graph has a name of its own, no alias is reached so. */
  lemma {:induction false} NeverRepeats(g: Graph, node: Node, n: nat, held: seq<string>)
    requires Acyclic(g) && n <= |g.nodes| && Below(g, node, n) && OneNameEach(g) && OuterNames(g, held, n)
    ensures !Repeats(g, node, n, held)
    decreases n, node, 1
  {
    match node
    case Scalar(_) =>
    case Anchor(inner) => NeverRepeats(g, inner, n, held);
    case Tagged(resolved, inner) => if resolved.None? { NeverRepeats(g, inner, n, held); }
    case Alias(name, target) =>
      if target.Some? {
        var t := target.value;
        FewerOuter(g, held, n, t);
        assert g.labels.value[t] == name && Outer(g, name, t);
        NotBeingWritten(g, held, n, t, name);
        NeverRepeats(g, g.nodes[t], t, held + [name]);
      }
    case Sequence(items) => ItemsNeverRepeat(g, items, n, held, node);
    case Mapping(entries) =>
      var sources := Sources(g, entries, n, node);
      if sources.Some? {
        var all := OwnPairs(entries, n) + sources.value;
        OwnUnder(g, entries, n, node);
        KeptUnder(g, [], all, n, node);
        PairsNeverRepeat(g, Kept([], all), n, held, node);
      }
  }

  lemma {:induction false} ItemsNeverRepeat(g: Graph, items: seq<Node>, n: nat, held: seq<string>, whole: Node)
    requires Acyclic(g) && n <= |g.nodes| && OneNameEach(g) && OuterNames(g, held, n)
    requires forall i :: 0 <= i < |items| ==> Below(g, items[i], n) && items[i] < whole
    ensures !ItemsRepeat(g, items, n, held, whole)
    decreases n, whole, 0, |items|
  {
    if items != [] {
      NeverRepeats(g, items[0], n, held);
      ItemsNeverRepeat(g, items[1..], n, held, whole);
    }
  }

  lemma {:induction false} PairsNeverRepeat(g: Graph, pairs: seq<Pair>, n: nat, held: seq<string>, whole: Node)
    requires Acyclic(g) && n <= |g.nodes| && OneNameEach(g) && OuterNames(g, held, n) && AllUnder(g, pairs, n, whole)
    ensures !PairsRepeat(g, pairs, n, held, whole)
    decreases n, whole, 0, |pairs|
  {
    if pairs != [] {
      assert Under(g, pairs[0], n, whole);
      assert AllUnder(g, pairs[1..], n, whole);
      FewerOuter(g, held, n, pairs[0].bound);
      NeverRepeats(g, pairs[0].value, pairs[0].bound, held);
      PairsNeverRepeat(g, pairs[1..], n, held, whole);
    }
  }

  /** Then refusing a name that is being written out refuses nothing. */
  lemma NamesNeverRepeat(g: Graph, node: Node, n: nat, held: seq<string>)
    requires Acyclic(g) && n <= |g.nodes| && Below(g, node, n) && OneNameEach(g) && OuterNames(g, held, n)
    ensures Value(g, node, n, Some(held)) == Value(g, node, n, None)
  {
    NeverRepeats(g, node, n, held);
    RefusedExactly(g, node, n, held);
  }

  /** Where one name anchors two nodes, a graph with no cycle in it is refused: &x 1, then &y over an
      alias of it, then another &x over an alias of &y, written out. */
  lemma ReusedNameRefused()
    ensures var one, two := Scalar(Number("1")), Sequence([Alias("x", Some(0))]);
            var three := Sequence([Alias("y", Some(1))]);
            var g := Graph([one, two, three], None);
            && Acyclic(g) && Below(g, Alias("x", Some(2)), 3)
            && Value(g, Alias("x", Some(2)), 3, Some([])).None?
            && Value(g, Alias("x", Some(2)), 3, None) == Some(Arr([Arr([Number("1")])]))
  {
    var one, two, three := Scalar(Number("1")), Sequence([Alias("x", Some(0))]), Sequence([Alias("y", Some(1))]);
    var g := Graph([one, two, three], None);
    var x, y, top := Alias("x", Some(0)), Alias("y", Some(1)), Alias("x", Some(2));
    assert Below(g, one, 0) && Below(g, x, 1) && Below(g, y, 2);
    assert Below(g, two, 1) && Below(g, three, 2);
    assert Acyclic(g);
    assert [] + ["x"] == ["x"] && ["x"] + ["y"] == ["x", "y"];
    OneItem(g, x, 1, Some(["x", "y"]));
    OneItem(g, y, 2, Some(["x"]));
    OneItem(g, x, 1, None);
    OneItem(g, y, 2, None);
  }

  lemma OneItem(g: Graph, item: Node, n: nat, held: Option<seq<string>>)
    requires Acyclic(g) && n <= |g.nodes| && Below(g, item, n) && Below(g, Sequence([item]), n)
    ensures var v := Value(g, item, n, held);
            Value(g, Sequence([item]), n, held) == if v.None? then None else Some(Arr([v.value]))
  {
    var whole := Sequence([item]);
    var none: seq<Node> := [];
    assert [item][1..] == none;
    assert ItemValues(g, none, n, held, whole) == Some([]);
    var v := Value(g, item, n, held);
    if v.Some? { assert [v.value] + [] == [v.value]; }
  }

  /** A whole tree handed over from the start, within a budget of tokens where one is given: what goes over is
      exactly the token sequence of the value the graph denotes, which names no member twice, so that every token
      of it stands where JSON lets it, at the depth and path it should. It is refused where the graph denotes
      none, an alias is reached while its name is being written out, or the tokens are more than the budget. */
  method EmitDocument(g: Graph, node: Node, budget: int) returns (out: seq<Token>, refused: bool)
    requires Acyclic(g) && Below(g, node, |g.nodes|)
    ensures refused <==> Value(g, node, |g.nodes|, None).None? || Repeats(g, node, |g.nodes|, [])
                         || (budget > 0 && |Tokens(Value(g, node, |g.nodes|, None).value)| > budget)
    ensures !refused ==> out == Tokens(Value(g, node, |g.nodes|, None).value)
    ensures !refused ==> UniqueNames(Value(g, node, |g.nodes|, None).value)
  {
    var t := new Tokener(budget);
    t.EmitTree(g, node, |g.nodes|);
    RefusedExactly(g, node, |g.nodes|, []);
    ValueNamesOnce(g, node, |g.nodes|, None);
    return t.out, t.stopped;
  }
}
