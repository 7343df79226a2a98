/** The anchors of a document being read, and the nodes its aliases come to name (parser/anchors.go). */
module Anchors {
  datatype Option<+T> = None | Some(value: T)

  /** A node of the tree, by number. */
  type Node = nat

  /** What the parser meets: an anchor opened; the innermost open one closed on its node, with the tag
      written in front of it where there is one; an alias. */
  datatype Event = Open(name: string) | Close(node: Node, tag: Option<Node>) | Alias(name: string)

  /** An anchor's node of the tree: its name, and its value once that is read. */
  datatype Anchor = Anchor(name: string, value: Option<Node>)

  /** An alias that named an anchor still open, and the tag found in front of that anchor since. */
  datatype Cyclic = Cyclic(alias: nat, anchor: nat, tagged: Option<Node>)

  /** The table, with the anchors and aliases of the tree in the order they were met: an alias's target is
      set here, and an anchor's value when it closes. */
  datatype State = State(
    anchors: seq<Anchor>,
    open: seq<nat>,
    nodes: map<string, Node>,
    cyclic: seq<Cyclic>,
    targets: seq<Option<Node>>,
    failed: bool)

  const FRESH := State([], [], map[], [], [], false)

  // ---------------------------------------------------------------- the table's steps

  /** openNode, over the first n of the open anchors: innermost first. */
  function OpenNode(anchors: seq<Anchor>, open: seq<nat>, name: string, n: nat): (r: Option<nat>)
    requires n <= |open| && forall i :: 0 <= i < |open| ==> open[i] < |anchors|
    ensures r.Some? ==> r.value < |anchors|
  {
    if n == 0 then None
    else if anchors[open[n - 1]].name == name then Some(open[n - 1])
    else OpenNode(anchors, open, name, n - 1)
  }

  ghost predicate Sound(s: State) {
    && (forall i :: 0 <= i < |s.open| ==> s.open[i] < |s.anchors|)
    && (forall c :: 0 <= c < |s.cyclic| ==> s.cyclic[c].alias < |s.targets| && s.cyclic[c].anchor < |s.anchors|)
  }

  ghost function Opened(s: State, name: string): State {
    s.(anchors := s.anchors + [Anchor(name, None)], open := s.open + [|s.anchors|])
  }

  /** keepAnchor, and the value set on the anchor's node. */
  ghost function Closed(s: State, node: Node): State
    requires Sound(s) && s.open != []
  {
    var top := s.open[|s.open| - 1];
    var name := s.anchors[top].name;
    s.(open := s.open[..|s.open| - 1],
       anchors := s.anchors[top := Anchor(name, Some(node))],
       nodes := if name == "" then s.nodes else s.nodes[name := node])
  }

  /** The tag recorded with the aliases that named the anchor from inside. */
  ghost function WithTag(cyclic: seq<Cyclic>, anchor: nat, tag: Node): (r: seq<Cyclic>)
    ensures |r| == |cyclic|
  {
    seq(|cyclic|, i requires 0 <= i < |cyclic| =>
      if cyclic[i].anchor == anchor then cyclic[i].(tagged := Some(tag)) else cyclic[i])
  }

  /** retag. */
  ghost function Retagged(s: State, anchor: nat, tag: Node): State
    requires anchor < |s.anchors|
  {
    var a := s.anchors[anchor];
    if a.name == "" then s
    else
      s.(cyclic := WithTag(s.cyclic, anchor, tag),
         nodes := if a.name in s.nodes && a.value == Some(s.nodes[a.name]) then s.nodes[a.name := tag] else s.nodes)
  }

  /** resolveAlias. */
  ghost function Resolved(s: State, name: string, declared: map<string, Node>, json: bool): State
    requires Sound(s)
  {
    var open := OpenNode(s.anchors, s.open, name, |s.open|);
    if open.Some? && json then s.(failed := true)
    else if open.Some? then
      s.(cyclic := s.cyclic + [Cyclic(|s.targets|, open.value, None)], targets := s.targets + [None])
    else if name in s.nodes then s.(targets := s.targets + [Some(s.nodes[name])])
    else if name in declared then s.(targets := s.targets + [Some(declared[name])])
    else s.(failed := true)
  }

  /** The targets of the first n aliases held back, filled in. */
  ghost function Filled(s: State, n: nat): (r: seq<Option<Node>>)
    requires Sound(s) && n <= |s.cyclic|
    ensures |r| == |s.targets|
  {
    if n == 0 then s.targets
    else
      var c := s.cyclic[n - 1];
      Filled(s, n - 1)[c.alias := if c.tagged.Some? then c.tagged else s.anchors[c.anchor].value]
  }

  class AnchorTable {
    const declared: map<string, Node>
    const jsonCompatible: bool
    var anchors: seq<Anchor>
    var open: seq<nat>
    var nodes: map<string, Node>
    var cyclic: seq<Cyclic>
    var targets: seq<Option<Node>>
    var failed: bool

    constructor (declared: map<string, Node>, jsonCompatible: bool)
      ensures Now() == FRESH && this.declared == declared && this.jsonCompatible == jsonCompatible
    {
      this.declared, this.jsonCompatible := declared, jsonCompatible;
      anchors, open, nodes, cyclic, targets, failed := [], [], map[], [], [], false;
    }

    ghost function Now(): State
      reads this
    {
      State(anchors, open, nodes, cyclic, targets, failed)
    }

    method OpenName(name: string)
      modifies this`anchors, this`open
      ensures Now() == Opened(old(Now()), name)
    {
      anchors, open := anchors + [Anchor(name, None)], open + [|anchors|];
    }

    method KeepAnchor(value: Node)
      requires Sound(Now()) && open != []
      modifies this`anchors, this`open, this`nodes
      ensures Now() == Closed(old(Now()), value)
    {
      var top := open[|open| - 1];
      var name := anchors[top].name;
      open := open[..|open| - 1];
      anchors := anchors[top := Anchor(name, Some(value))];
      if name == "" {
        return;
      }
      nodes := nodes[name := value];
    }

    method FindOpenNode(name: string) returns (r: Option<nat>)
      requires Sound(Now())
      ensures r == OpenNode(anchors, open, name, |open|)
    {
      var n := |open|;
      while n > 0
        invariant 0 <= n <= |open|
        invariant OpenNode(anchors, open, name, |open|) == OpenNode(anchors, open, name, n)
      {
        if anchors[open[n - 1]].name == name {
          return Some(open[n - 1]);
        }
        n := n - 1;
      }
      return None;
    }

    method ResolveAlias(name: string)
      requires Sound(Now())
      modifies this`cyclic, this`targets, this`failed
      ensures Now() == Resolved(old(Now()), name, declared, jsonCompatible)
    {
      var at := FindOpenNode(name);
      if at.Some? {
        if jsonCompatible {
          failed := true;
          return;
        }
        cyclic, targets := cyclic + [Cyclic(|targets|, at.value, None)], targets + [None];
        return;
      }
      if name in nodes {
        targets := targets + [Some(nodes[name])];
      } else if name in declared {
        targets := targets + [Some(declared[name])];
      } else {
        failed := true;
      }
    }

    method Retag(anchor: nat, tag: Node)
      requires anchor < |anchors|
      modifies this`cyclic, this`nodes
      ensures Now() == Retagged(old(Now()), anchor, tag)
    {
      var name := anchors[anchor].name;
      if name == "" {
        return;
      }
      if name in nodes && anchors[anchor].value == Some(nodes[name]) {
        nodes := nodes[name := tag];
      }
      ghost var was, names := cyclic, nodes;
      for i := 0 to |cyclic|
        invariant nodes == names
        invariant |cyclic| == |was| && cyclic[i..] == was[i..] && cyclic[..i] == WithTag(was, anchor, tag)[..i]
      {
        if cyclic[i].anchor == anchor {
          cyclic := cyclic[i := cyclic[i].(tagged := Some(tag))];
        }
      }
      assert cyclic == WithTag(was, anchor, tag);
    }

    /** What the document declared, its aliases' targets filled in and the table empty for the next. */
    method Take() returns (declares: map<string, Node>, meant: seq<Option<Node>>)
      requires Sound(Now())
      modifies this`anchors, this`open, this`nodes, this`cyclic, this`targets
      ensures declares == old(nodes) && meant == Filled(old(Now()), |old(cyclic)|)
      ensures Now() == FRESH.(failed := failed)
    {
      ghost var was := Now();
      for i := 0 to |cyclic|
        invariant Now() == was.(targets := Filled(was, i))
      {
        var c := cyclic[i];
        targets := targets[c.alias := if c.tagged.Some? then c.tagged else anchors[c.anchor].value];
      }
      declares, meant := nodes, targets;
      anchors, open, nodes, cyclic, targets := [], [], map[], [], [];
    }
  }

  // ---------------------------------------------------------------- the document, as 3.2.2.2 of YAML 1.2.2 reads it

  /** The declarations of a document so far, by the order they open in: the name of each, the ones its node
      stands inside of, and its node once read, tag and all; those still open, innermost last, and the rest
      in the order they closed; and what each alias stands for. */
  datatype History = History(
    names: seq<string>,
    around: seq<set<nat>>,
    read: seq<Option<Node>>,
    open: seq<nat>,
    closed: seq<nat>,
    meant: seq<Meant>)

  datatype Meant = Declared(i: nat) | Published(node: Node)

  /** The declaration of the name met last. */
  ghost function MostRecent(names: seq<string>, name: string, n: nat): (r: Option<nat>)
    requires n <= |names|
    ensures r.Some? ==> r.value < n && names[r.value] == name && forall i :: r.value < i < n ==> names[i] != name
    ensures r.None? ==> forall i :: 0 <= i < n ==> names[i] != name
  {
    if n == 0 then None else if names[n - 1] == name then Some(n - 1) else MostRecent(names, name, n - 1)
  }

  /** The last of `order` to have the name. */
  ghost function LastOf(names: seq<string>, order: seq<nat>, name: string): (r: Option<nat>)
    requires forall i :: 0 <= i < |order| ==> order[i] < |names|
    ensures r.Some? ==> r.value < |names| && names[r.value] == name && r.value in order
    ensures r.None? ==> forall i :: 0 <= i < |order| ==> names[order[i]] != name
    decreases |order|
  {
    if order == [] then None
    else if names[order[|order| - 1]] == name then Some(order[|order| - 1])
    else LastOf(names, order[..|order| - 1], name)
  }

  /** What the table answers: the innermost open declaration, or else the last to close. */
  ghost function Answer(h: History, name: string): (r: Option<nat>)
    requires Formed(h)
    ensures r.Some? ==> r.value < |h.names| && h.names[r.value] == name
  {
    var open := LastOf(h.names, h.open, name);
    if open.Some? then open else LastOf(h.names, h.closed, name)
  }

  ghost predicate Formed(h: History) {
    && |h.around| == |h.names| == |h.read|
    && (forall i :: 0 <= i < |h.open| ==> h.open[i] < |h.names|)
    && (forall i :: 0 <= i < |h.closed| ==> h.closed[i] < |h.names|)
  }

  const START := History([], [], [], [], [], [])

  ghost predicate Fits(h: History, e: Event) {
    match e
    case Open(name) => name != ""
    case Close(_, _) => h.open != []
    case Alias(_) => true
  }

  ghost function Next(h: History, e: Event, declared: map<string, Node>): (r: History)
    requires Formed(h) && Fits(h, e)
    ensures Formed(r)
  {
    match e
    case Open(name) =>
      var within := set i | 0 <= i < |h.open| :: h.open[i];
      h.(names := h.names + [name], around := h.around + [within], read := h.read + [None],
         open := h.open + [|h.names|])
    case Close(node, tag) =>
      var top := h.open[|h.open| - 1];
      h.(read := h.read[top := if tag.Some? then tag else Some(node)], open := h.open[..|h.open| - 1],
         closed := h.closed + [top])
    case Alias(name) =>
      var at := Answer(h, name);
      if at.Some? then h.(meant := h.meant + [Declared(at.value)])
      else if name in declared then h.(meant := h.meant + [Published(declared[name])])
      else h
  }

  // ---------------------------------------------------------------- nesting

  ghost predicate Nested(h: History) {
    && Formed(h)
    && (forall i, j :: 0 <= i < j < |h.open| ==> h.open[i] < h.open[j])
    && (forall i, e :: 0 <= i < |h.names| && e in h.around[i] ==> e < i)
    && (forall i :: 0 <= i < |h.names| ==> (i in h.open) != (i in h.closed))
    && (forall e, i :: e in h.open && e < i < |h.names| ==> e in h.around[i])
    && (forall p, q :: 0 <= p < q < |h.closed| ==> ClosedInside(h, p, q))
    && (forall q, i :: 0 <= q < |h.closed| && 0 <= i < |h.names| && h.closed[q] in h.around[i] ==>
          ClosedBefore(h, i, q))
  }

  /** A declaration that opened first and closed last stands around the other. */
  ghost predicate ClosedInside(h: History, p: nat, q: nat)
    requires Formed(h) && p < q < |h.closed|
  {
    h.closed[p] != h.closed[q] && (h.closed[q] < h.closed[p] ==> h.closed[q] in h.around[h.closed[p]])
  }

  ghost predicate ClosedBefore(h: History, i: nat, q: nat)
    requires q <= |h.closed|
  {
    exists p :: 0 <= p < q && h.closed[p] == i
  }

  lemma OpenNested(h: History, name: string, declared: map<string, Node>)
    requires Nested(h) && name != ""
    ensures Nested(Next(h, Open(name), declared))
  {
    var r, n := Next(h, Open(name), declared), |h.names|;
    assert r.open[..|h.open|] == h.open;
    forall i | 0 <= i < |r.names| ensures (i in r.open) != (i in r.closed) {
      if i < n { assert i in r.open <==> i in h.open; } else { assert r.open[|h.open|] == n; }
    }
    forall e, i | e in r.open && e < i < |r.names| ensures e in r.around[i] {
      assert e in h.open;
      if i == n { var k :| 0 <= k < |h.open| && h.open[k] == e; }
    }
    forall p, q | 0 <= p < q < |r.closed| ensures ClosedInside(r, p, q) { assert ClosedInside(h, p, q); }
    forall q, i | 0 <= q < |r.closed| && 0 <= i < |r.names| && r.closed[q] in r.around[i]
      ensures ClosedBefore(r, i, q)
    {
      if i < n {
        assert ClosedBefore(h, i, q);
      } else {
        ClosedNotOpen(h, q);
        assert false;
      }
    }
  }

  lemma ClosedNotOpen(h: History, q: nat)
    requires Nested(h) && q < |h.closed|
    ensures h.closed[q] !in h.open
  {
  }

  lemma CloseNested(h: History, node: Node, tag: Option<Node>, declared: map<string, Node>)
    requires Nested(h) && h.open != []
    ensures Nested(Next(h, Close(node, tag), declared))
  {
    var r, n, top := Next(h, Close(node, tag), declared), |h.closed|, h.open[|h.open| - 1];
    assert top in h.open && forall e :: e in h.open ==> e <= top;
    forall i | 0 <= i < |r.names| ensures (i in r.open) != (i in r.closed) { StillOpen(h, r, i, top); }
    forall e, i | e in r.open && e < i < |r.names| ensures e in r.around[i] { assert e in h.open; }
    forall p, q | 0 <= p < q < |r.closed| ensures ClosedInside(r, p, q) {
      if q < n { assert ClosedInside(h, p, q); } else { assert h.closed[p] in h.closed; }
    }
    forall q, i | 0 <= q < |r.closed| && 0 <= i < |r.names| && r.closed[q] in r.around[i]
      ensures ClosedBefore(r, i, q)
    {
      if q < n {
        assert ClosedBefore(h, i, q);
        var p :| 0 <= p < q && h.closed[p] == i;
        assert r.closed[p] == i;
      } else {
        assert i in h.closed;
        var p :| 0 <= p < n && h.closed[p] == i;
        assert r.closed[p] == i;
      }
    }
  }

  lemma StillOpen(h: History, r: History, i: nat, top: nat)
    requires Nested(h) && h.open != [] && i < |h.names| && top == h.open[|h.open| - 1]
    requires r.open == h.open[..|h.open| - 1] && r.closed == h.closed + [top]
    ensures (i in r.open) != (i in r.closed)
  {
    if i == top {
      assert r.closed[|h.closed|] == top;
      assert forall k :: 0 <= k < |r.open| ==> r.open[k] < top;
    } else {
      assert i in r.closed <==> i in h.closed;
      if i in h.open {
        var k :| 0 <= k < |h.open| && h.open[k] == i;
        assert r.open[k] == i;
      }
    }
  }

  /** The declaration an alias follows most closely is what the table answers, unless it has closed inside a
      node anchored under the same name: then the table answers another. */
  lemma AnswerExact(h: History, name: string)
    requires Nested(h)
    ensures var recent := MostRecent(h.names, name, |h.names|);
            && (recent.None? <==> Answer(h, name).None?)
            && (recent.Some? ==>
                  (Answer(h, name) == recent
                   <==> recent.value in h.open || forall e :: e in h.around[recent.value] ==> h.names[e] != name))
  {
    var recent := MostRecent(h.names, name, |h.names|);
    var open, closed := LastOf(h.names, h.open, name), LastOf(h.names, h.closed, name);
    if recent.Some? {
      var d := recent.value;
      assert (d in h.open) != (d in h.closed);
      if d in h.open {
        InnermostIs(h, name, d);
      } else {
        ClosedAnswer(h, name, d);
      }
    }
  }

  lemma {:induction false} InnermostIs(h: History, name: string, d: nat)
    requires Nested(h) && d in h.open && MostRecent(h.names, name, |h.names|) == Some(d)
    ensures LastOf(h.names, h.open, name) == Some(d)
  {
    var k :| 0 <= k < |h.open| && h.open[k] == d;
    LastAt(h.names, h.open, name, k);
  }

  /** The one of the name with none behind it. */
  lemma {:induction false} LastAt(names: seq<string>, order: seq<nat>, name: string, k: nat)
    requires forall i :: 0 <= i < |order| ==> order[i] < |names|
    requires k < |order| && names[order[k]] == name && forall j :: k < j < |order| ==> names[order[j]] != name
    ensures LastOf(names, order, name) == Some(order[k])
    decreases |order|
  {
    if k < |order| - 1 {
      assert names[order[|order| - 1]] != name;
      LastAt(names, order[..|order| - 1], name, k);
    }
  }

  lemma {:induction false} LastIndex(names: seq<string>, order: seq<nat>, name: string) returns (k: nat)
    requires (forall i :: 0 <= i < |order| ==> order[i] < |names|) && LastOf(names, order, name).Some?
    ensures k < |order| && LastOf(names, order, name) == Some(order[k])
    ensures forall j :: k < j < |order| ==> names[order[j]] != name
    decreases |order|
  {
    if names[order[|order| - 1]] == name {
      k := |order| - 1;
    } else {
      k := LastIndex(names, order[..|order| - 1], name);
      assert order[..|order| - 1][k] == order[k];
    }
  }

  lemma ClosedAnswer(h: History, name: string, d: nat)
    requires Nested(h) && d in h.closed && d !in h.open && MostRecent(h.names, name, |h.names|) == Some(d)
    ensures Answer(h, name).Some?
    ensures Answer(h, name) == Some(d) <==> forall e :: e in h.around[d] ==> h.names[e] != name
  {
    var open := LastOf(h.names, h.open, name);
    if open.Some? {
      var e := open.value;
      assert e in h.around[d] && h.names[e] == name;
    } else {
      var q := LastIndex(h.names, h.closed, name);
      var p :| 0 <= p < |h.closed| && h.closed[p] == d;
      if q == p {
        forall e | e in h.around[d] ensures h.names[e] != name { AroundClosesLater(h, d, p, e, name); }
      } else {
        assert ClosedInside(h, p, q);
        assert h.closed[q] in h.around[d];
      }
    }
  }

  lemma AroundClosesLater(h: History, d: nat, p: nat, e: nat, name: string)
    requires Nested(h) && p < |h.closed| && h.closed[p] == d && e in h.around[d]
    requires LastOf(h.names, h.open, name).None? && forall j :: p < j < |h.closed| ==> h.names[h.closed[j]] != name
    ensures h.names[e] != name
  {
    forall a | 0 <= a < |h.closed| && a != p ensures h.closed[a] != d {
      if a < p { ClosedApart(h, a, p); } else { ClosedApart(h, p, a); }
    }
    assert (e in h.open) != (e in h.closed);
    if e in h.open {
      var k :| 0 <= k < |h.open| && h.open[k] == e;
    } else {
      var q :| 0 <= q < |h.closed| && h.closed[q] == e;
      assert ClosedBefore(h, d, q);
      var p' :| 0 <= p' < q && h.closed[p'] == d;
    }
  }

  lemma ClosedApart(h: History, p: nat, q: nat)
    requires Nested(h) && p < q < |h.closed|
    ensures h.closed[p] != h.closed[q]
  {
    assert ClosedInside(h, p, q);
  }

  // ---------------------------------------------------------------- the table against the document

  ghost function Step(s: State, e: Event, declared: map<string, Node>): State
    requires Sound(s) && (e.Close? ==> s.open != [])
  {
    match e
    case Open(name) => Opened(s, name)
    case Close(node, tag) =>
      if tag.Some? then Retagged(Closed(s, node), s.open[|s.open| - 1], tag.value) else Closed(s, node)
    case Alias(name) => Resolved(s, name, declared, false)
  }

  /** What an alias held back will be pointed at. */
  ghost function Due(s: State, c: Cyclic): Option<Node>
    requires c.anchor < |s.anchors|
  {
    if c.tagged.Some? then c.tagged else s.anchors[c.anchor].value
  }

  ghost predicate SameAnchors(s: State, h: History)
    requires Formed(h)
  {
    && |s.anchors| == |h.names| && s.open == h.open
    && (forall i :: 0 <= i < |h.names| ==> s.anchors[i].name == h.names[i] && h.names[i] != "")
    && (forall i :: 0 <= i < |h.names| && i in h.closed ==> h.read[i].Some?)
  }

  /** The map names the last node of each name to close. */
  ghost predicate SameNodes(s: State, h: History)
    requires Formed(h)
  {
    forall name :: NodeNamed(s, h, name)
  }

  ghost predicate NodeNamed(s: State, h: History, name: string)
    requires Formed(h)
  {
    var last := LastOf(h.names, h.closed, name);
    && (name in s.nodes <==> last.Some?)
    && (last.Some? && name in s.nodes ==> Some(s.nodes[name]) == h.read[last.value])
  }

  /** An alias held back names an anchor it stands inside of. */
  ghost predicate Held(s: State, h: History, c: Cyclic) {
    && c.alias < |h.meant| && h.meant[c.alias] == Declared(c.anchor) && c.anchor < |h.read| && c.anchor < |s.anchors|
    && c.alias < |s.targets| && s.targets[c.alias].None?
    && (if c.anchor in h.closed then Due(s, c) == h.read[c.anchor] else c.tagged.None?)
  }

  /** An alias's target, where it is set, is the node it stands for. */
  ghost predicate Pointed(s: State, h: History, k: nat)
    requires k < |s.targets| && k < |h.meant|
  {
    s.targets[k].Some? ==>
      match h.meant[k]
      case Declared(i) => i < |h.read| && i in h.closed && s.targets[k] == h.read[i]
      case Published(node) => s.targets[k] == Some(node)
  }

  ghost predicate HeldFor(s: State, k: nat) {
    exists c :: 0 <= c < |s.cyclic| && s.cyclic[c].alias == k
  }

  ghost predicate Agrees(s: State, h: History) {
    && Sound(s) && Nested(h) && !s.failed && SameAnchors(s, h) && SameNodes(s, h) && |s.targets| == |h.meant|
    && (forall c :: 0 <= c < |s.cyclic| ==> Held(s, h, s.cyclic[c]))
    && (forall c, d :: 0 <= c < d < |s.cyclic| ==> s.cyclic[c].alias < s.cyclic[d].alias)
    && (forall k :: 0 <= k < |s.targets| ==> Pointed(s, h, k))
    && (forall k :: 0 <= k < |s.targets| && s.targets[k].None? ==> HeldFor(s, k))
  }

  lemma {:induction false} LastOfMore(names: seq<string>, more: string, order: seq<nat>, name: string)
    requires forall i :: 0 <= i < |order| ==> order[i] < |names|
    ensures LastOf(names + [more], order, name) == LastOf(names, order, name)
    decreases |order|
  {
    if order != [] { LastOfMore(names, more, order[..|order| - 1], name); }
  }

  lemma OpenAgrees(s: State, h: History, name: string, declared: map<string, Node>)
    requires Agrees(s, h) && name != ""
    ensures Agrees(Step(s, Open(name), declared), Next(h, Open(name), declared))
  {
    var e := Open(name);
    var s', h' := Step(s, e, declared), Next(h, e, declared);
    OpenNested(h, name, declared);
    forall x ensures NodeNamed(s', h', x) {
      assert NodeNamed(s, h, x);
      LastOfMore(h.names, name, h.closed, x);
    }
    forall c | 0 <= c < |s'.cyclic| ensures Held(s', h', s'.cyclic[c]) { assert Held(s, h, s.cyclic[c]); }
    forall k | 0 <= k < |s'.targets| ensures Pointed(s', h', k) { assert Pointed(s, h, k); }
    forall k | 0 <= k < |s'.targets| && s'.targets[k].None? ensures HeldFor(s', k) { assert HeldFor(s, k); }
  }

  lemma LastSnoc(names: seq<string>, order: seq<nat>, top: nat, name: string)
    requires (forall i :: 0 <= i < |order| ==> order[i] < |names|) && top < |names|
    ensures LastOf(names, order + [top], name) == if names[top] == name then Some(top) else LastOf(names, order, name)
  {
    assert (order + [top])[..|order|] == order;
  }

  lemma CloseNodes(s: State, h: History, node: Node, tag: Option<Node>, declared: map<string, Node>, name: string)
    requires Agrees(s, h) && h.open != []
    ensures NodeNamed(Step(s, Close(node, tag), declared), Next(h, Close(node, tag), declared), name)
  {
    assert NodeNamed(s, h, name);
    var top, last := h.open[|h.open| - 1], LastOf(h.names, h.closed, name);
    LastSnoc(h.names, h.closed, top, name);
    if last.Some? {
      assert last.value in h.closed && top in h.open;
      assert (top in h.open) != (top in h.closed);
    }
  }

  lemma CloseHeld(s: State, h: History, node: Node, tag: Option<Node>, declared: map<string, Node>, i: nat)
    requires Agrees(s, h) && h.open != [] && i < |s.cyclic|
    ensures var s', h' := Step(s, Close(node, tag), declared), Next(h, Close(node, tag), declared);
            i < |s'.cyclic| && Held(s', h', s'.cyclic[i]) && s'.cyclic[i].alias == s.cyclic[i].alias
  {
    var c := s.cyclic[i];
    assert Held(s, h, c);
    var h', top := Next(h, Close(node, tag), declared), h.open[|h.open| - 1];
    assert top in h.open && h'.closed[|h.closed|] == top;
    assert c.anchor in h'.closed <==> c.anchor in h.closed || c.anchor == top;
  }

  lemma CloseAgrees(s: State, h: History, node: Node, tag: Option<Node>, declared: map<string, Node>)
    requires Agrees(s, h) && h.open != []
    ensures Agrees(Step(s, Close(node, tag), declared), Next(h, Close(node, tag), declared))
  {
    var e := Close(node, tag);
    var s', h', top := Step(s, e, declared), Next(h, e, declared), h.open[|h.open| - 1];
    CloseNested(h, node, tag, declared);
    assert top in h.open;
    assert |s'.cyclic| == |s.cyclic|;
    forall i | 0 <= i < |h'.names| && i in h'.closed ensures h'.read[i].Some? {
      if i != top { assert i in h.closed; }
    }
    forall x ensures NodeNamed(s', h', x) { CloseNodes(s, h, node, tag, declared, x); }
    forall c | 0 <= c < |s'.cyclic| ensures Held(s', h', s'.cyclic[c]) && s'.cyclic[c].alias == s.cyclic[c].alias {
      CloseHeld(s, h, node, tag, declared, c);
    }
    forall k | 0 <= k < |s'.targets| ensures Pointed(s', h', k) {
      assert Pointed(s, h, k);
      assert forall i :: i in h.closed ==> i in h'.closed;
    }
    forall k | 0 <= k < |s'.targets| && s'.targets[k].None? ensures HeldFor(s', k) {
      assert HeldFor(s, k);
      var c :| 0 <= c < |s.cyclic| && s.cyclic[c].alias == k;
      assert s'.cyclic[c].alias == k;
    }
  }

  /** openNode and the map together give the answer read off the document. */
  lemma {:induction false} OpenNodeIs(s: State, h: History, name: string, n: nat)
    requires Formed(h) && SameAnchors(s, h) && n <= |h.open|
    ensures OpenNode(s.anchors, s.open, name, n) == LastOf(h.names, h.open[..n], name)
  {
    if n > 0 {
      assert h.open[..n][..n - 1] == h.open[..n - 1];
      OpenNodeIs(s, h, name, n - 1);
    }
  }

  lemma SameNesting(h: History, h': History)
    requires Nested(h) && h' == h.(meant := h'.meant)
    ensures Nested(h')
  {
    forall p, q | 0 <= p < q < |h'.closed| ensures ClosedInside(h', p, q) { assert ClosedInside(h, p, q); }
    forall q, i | 0 <= q < |h'.closed| && 0 <= i < |h'.names| && h'.closed[q] in h'.around[i]
      ensures ClosedBefore(h', i, q)
    {
      assert ClosedBefore(h, i, q);
    }
  }

  /** An alias pointed at the node it stands for at once. */
  lemma TargetAgrees(s: State, h: History, node: Node, m: Meant)
    requires Agrees(s, h)
    requires match m
             case Declared(i) => i < |h.read| && i in h.closed && h.read[i] == Some(node)
             case Published(n) => n == node
    ensures Agrees(s.(targets := s.targets + [Some(node)]), h.(meant := h.meant + [m]))
  {
    var s', h', n := s.(targets := s.targets + [Some(node)]), h.(meant := h.meant + [m]), |s.targets|;
    SameNesting(h, h');
    forall x ensures NodeNamed(s', h', x) { assert NodeNamed(s, h, x); }
    forall c | 0 <= c < |s'.cyclic| ensures Held(s', h', s'.cyclic[c]) { assert Held(s, h, s.cyclic[c]); }
    forall k | 0 <= k < |s'.targets| ensures Pointed(s', h', k) {
      if k < n { assert Pointed(s, h, k); }
    }
    forall k | 0 <= k < |s'.targets| && s'.targets[k].None? ensures HeldFor(s', k) { assert HeldFor(s, k); }
  }

  /** An alias held back, its anchor still open. */
  lemma HeldAgrees(s: State, h: History, a: nat)
    requires Agrees(s, h) && a in h.open
    ensures Agrees(s.(cyclic := s.cyclic + [Cyclic(|s.targets|, a, None)], targets := s.targets + [None]),
                   h.(meant := h.meant + [Declared(a)]))
  {
    var n := |s.targets|;
    var s' := s.(cyclic := s.cyclic + [Cyclic(n, a, None)], targets := s.targets + [None]);
    var h' := h.(meant := h.meant + [Declared(a)]);
    SameNesting(h, h');
    assert a !in h.closed;
    forall x ensures NodeNamed(s', h', x) { assert NodeNamed(s, h, x); }
    forall c | 0 <= c < |s'.cyclic| ensures Held(s', h', s'.cyclic[c]) {
      if c < |s.cyclic| { assert Held(s, h, s.cyclic[c]); }
    }
    forall c | 0 <= c < |s.cyclic| ensures s.cyclic[c].alias < n { assert Held(s, h, s.cyclic[c]); }
    forall k | 0 <= k < |s'.targets| ensures Pointed(s', h', k) {
      if k < n { assert Pointed(s, h, k); }
    }
    forall k | 0 <= k < |s'.targets| && s'.targets[k].None?
      ensures HeldFor(s', k)
    {
      HeldStill(s, s', k, Cyclic(n, a, None));
    }
  }

  lemma HeldStill(s: State, s': State, k: nat, last: Cyclic)
    requires s'.cyclic == s.cyclic + [last] && last.alias == |s.targets| && k <= |s.targets|
    requires k < |s.targets| ==> HeldFor(s, k)
    ensures HeldFor(s', k)
  {
    if k < |s.targets| {
      var c :| 0 <= c < |s.cyclic| && s.cyclic[c].alias == k;
      assert s'.cyclic[c].alias == k;
    } else {
      assert s'.cyclic[|s.cyclic|].alias == k;
    }
  }

  lemma AliasAgrees(s: State, h: History, name: string, declared: map<string, Node>)
    requires Agrees(s, h)
    ensures Answer(h, name).None? && name !in declared <==> Step(s, Alias(name), declared).failed
    ensures var s' := Step(s, Alias(name), declared); !s'.failed ==> Agrees(s', Next(h, Alias(name), declared))
  {
    OpenNodeIs(s, h, name, |h.open|);
    assert h.open[..|h.open|] == h.open;
    assert NodeNamed(s, h, name);
    var at := Answer(h, name);
    if LastOf(h.names, h.open, name).Some? {
      HeldAgrees(s, h, at.value);
    } else if at.Some? {
      TargetAgrees(s, h, s.nodes[name], Declared(at.value));
    } else if name in declared {
      TargetAgrees(s, h, declared[name], Published(declared[name]));
    }
  }

  // ---------------------------------------------------------------- a whole document

  /** The document so far; where an alias names nothing, reading stops there. */
  ghost function HistoryOf(events: seq<Event>, declared: map<string, Node>): (r: History)
    requires WellFormed(events, declared)
    ensures Formed(r)
    decreases |events|, 1
  {
    if events == [] then START else Next(HistoryOf(events[..|events| - 1], declared), events[|events| - 1], declared)
  }

  /** Anchors open and close as nested nodes do. */
  ghost predicate WellFormed(events: seq<Event>, declared: map<string, Node>)
    decreases |events|, 0
  {
    events == [] ||
    (WellFormed(events[..|events| - 1], declared)
     && Fits(HistoryOf(events[..|events| - 1], declared), events[|events| - 1]))
  }

  /** No alias names what nothing declares, and as JSON none stands inside the node it names. */
  ghost predicate Readable(events: seq<Event>, declared: map<string, Node>, json: bool)
    requires WellFormed(events, declared)
  {
    events != [] ==>
      var before := events[..|events| - 1];
      && Readable(before, declared, json)
      && Answerable(HistoryOf(before, declared), events[|events| - 1], declared, json)
  }

  ghost predicate Answerable(h: History, e: Event, declared: map<string, Node>, json: bool)
    requires Formed(h)
  {
    e.Alias? ==>
      && (e.name in declared || Answer(h, e.name).Some?)
      && (json ==> LastOf(h.names, h.open, e.name).None?)
  }

  lemma StartAgrees()
    ensures Agrees(FRESH, START)
  {
    forall name ensures NodeNamed(FRESH, START, name) { }
  }

  lemma StepAgrees(s: State, h: History, e: Event, declared: map<string, Node>)
    requires Agrees(s, h) && Fits(h, e)
    requires e.Alias? ==> e.name in declared || Answer(h, e.name).Some?
    ensures Agrees(Step(s, e, declared), Next(h, e, declared))
  {
    match e
    case Open(name) => OpenAgrees(s, h, name, declared);
    case Close(node, tag) => CloseAgrees(s, h, node, tag, declared);
    case Alias(name) => AliasAgrees(s, h, name, declared);
  }

  lemma {:induction false} FilledAt(s: State, h: History, n: nat, k: nat)
    requires Agrees(s, h) && n <= |s.cyclic| && k < |s.targets|
    ensures (forall c :: 0 <= c < n ==> s.cyclic[c].alias != k) ==> Filled(s, n)[k] == s.targets[k]
    ensures forall c :: 0 <= c < n && s.cyclic[c].alias == k ==> Filled(s, n)[k] == Due(s, s.cyclic[c])
  {
    if n > 0 {
      FilledAt(s, h, n - 1, k);
      FilledStep(s, n, k);
    }
  }

  lemma FilledStep(s: State, n: nat, k: nat)
    requires Sound(s) && 0 < n <= |s.cyclic| && k < |s.targets|
    ensures Filled(s, n)[k] == if s.cyclic[n - 1].alias == k then Due(s, s.cyclic[n - 1]) else Filled(s, n - 1)[k]
  {
  }

  /** At the end of a document every alias is pointed at the node, tag and all, of the declaration it was
      resolved to, and none is left without one. */
  lemma TakenTargets(s: State, h: History, k: nat)
    requires Agrees(s, h) && h.open == [] && k < |h.meant|
    ensures PointsAt(Filled(s, |s.cyclic|)[k], h, h.meant[k])
  {
    FilledAt(s, h, |s.cyclic|, k);
    assert Pointed(s, h, k);
    if s.targets[k].None? {
      assert HeldFor(s, k);
      var c :| 0 <= c < |s.cyclic| && s.cyclic[c].alias == k;
      assert Held(s, h, s.cyclic[c]);
      var i := s.cyclic[c].anchor;
      assert (i in h.open) != (i in h.closed);
    }
  }

  /** No name is declared again inside a node anchored under it. */
  ghost predicate NoneRedeclaredInside(h: History)
    requires Formed(h)
  {
    forall i, e :: 0 <= i < |h.names| && e in h.around[i] && e < |h.names| ==> h.names[e] != h.names[i]
  }

  /** Where that is so every alias stands for the most recent declaration of its name, as 3.2.2.2 asks. */
  lemma MostRecentAnswered(h: History, name: string)
    requires Nested(h) && NoneRedeclaredInside(h)
    ensures Answer(h, name) == MostRecent(h.names, name, |h.names|)
  {
    AnswerExact(h, name);
  }

  /** The names a document declares, as their anchors open. */
  function NamesOf(events: seq<Event>): seq<string> {
    if events == [] then []
    else
      var n := |events| - 1;
      NamesOf(events[..n]) + if events[n].Open? then [events[n].name] else []
  }

  /** What its aliases stand for by 3.2.2.2: the most recent earlier declaration, or else a published node. */
  ghost function MostRecents(events: seq<Event>, declared: map<string, Node>): seq<Meant> {
    if events == [] then []
    else
      var n := |events| - 1;
      var names := NamesOf(events[..n]);
      MostRecents(events[..n], declared) +
      if !events[n].Alias? then []
      else
        var at := MostRecent(names, events[n].name, |names|);
        if at.Some? then [Declared(at.value)]
        else if events[n].name in declared then [Published(declared[events[n].name])] else []
  }

  lemma {:induction false} HistoryNested(events: seq<Event>, declared: map<string, Node>)
    requires WellFormed(events, declared)
    ensures Nested(HistoryOf(events, declared)) && HistoryOf(events, declared).names == NamesOf(events)
    decreases |events|
  {
    if events != [] {
      var n := |events| - 1;
      HistoryNested(events[..n], declared);
      var h := HistoryOf(events[..n], declared);
      match events[n]
      case Open(name) => OpenNested(h, name, declared);
      case Close(node, tag) => CloseNested(h, node, tag, declared);
      case Alias(_) => MeantNested(h, Next(h, events[n], declared));
    }
  }

  /** What aliases stand for has no part in how anchors nest. */
  lemma MeantNested(h: History, r: History)
    requires Nested(h) && r == h.(meant := r.meant)
    ensures Nested(r)
  {
    assert forall p, q :: 0 <= p < q < |h.closed| ==> ClosedInside(h, p, q);
    forall p, q | 0 <= p < q < |r.closed| ensures ClosedInside(r, p, q) { assert ClosedInside(h, p, q); }
    forall q, i | 0 <= q < |r.closed| && 0 <= i < |r.names| && r.closed[q] in r.around[i]
      ensures ClosedBefore(r, i, q)
    {
      assert ClosedBefore(h, i, q);
    }
  }

  /** The most recent declaration of the name is open still, or stands inside no node anchored under it. */
  ghost predicate StandsClear(h: History, name: string)
    requires Formed(h)
  {
    var recent := MostRecent(h.names, name, |h.names|);
    recent.Some? ==>
      recent.value in h.open || forall e :: e in h.around[recent.value] && e < |h.names| ==> h.names[e] != name
  }

  /** So it is at every alias of the document. */
  ghost predicate AliasesClear(events: seq<Event>, declared: map<string, Node>)
    requires WellFormed(events, declared)
  {
    events != [] ==>
      var n := |events| - 1;
      && AliasesClear(events[..n], declared)
      && (events[n].Alias? ==> StandsClear(HistoryOf(events[..n], declared), events[n].name))
  }

  /** Each alias of a document stands for the most recent declaration of its name if and only if that
      declaration is open still, or stands inside no node anchored under the name. */
  lemma {:induction false} MostRecentMeant(events: seq<Event>, declared: map<string, Node>)
    requires WellFormed(events, declared)
    ensures |HistoryOf(events, declared).meant| == |MostRecents(events, declared)|
    ensures HistoryOf(events, declared).meant == MostRecents(events, declared) <==> AliasesClear(events, declared)
    decreases |events|
  {
    if events != [] {
      var n := |events| - 1;
      var h := HistoryOf(events[..n], declared);
      HistoryNested(events[..n], declared);
      MostRecentMeant(events[..n], declared);
      if events[n].Alias? { OneMeant(h, events[n].name, MostRecents(events[..n], declared), declared); }
    }
  }

  /** One alias more. */
  lemma OneMeant(h: History, name: string, before: seq<Meant>, declared: map<string, Node>)
    requires Nested(h) && |before| == |h.meant|
    ensures var at := MostRecent(h.names, name, |h.names|);
            var all := before + if at.Some? then [Declared(at.value)]
                                else if name in declared then [Published(declared[name])] else [];
            var r := Next(h, Alias(name), declared).meant;
            && |r| == |all|
            && (r == all <==> h.meant == before && StandsClear(h, name))
  {
    AnswerExact(h, name);
    var r := Next(h, Alias(name), declared).meant;
    assert r[..|h.meant|] == h.meant;
    var at := MostRecent(h.names, name, |h.names|);
    var last := if at.Some? then [Declared(at.value)]
                else if name in declared then [Published(declared[name])] else [];
    assert (before + last)[..|before|] == before && (before + last)[|before|..] == last;
  }

  /** So it is where no name is declared again inside a node anchored under it. */
  lemma {:induction false} NoneRedeclaredClear(events: seq<Event>, declared: map<string, Node>)
    requires WellFormed(events, declared) && NoneRedeclaredInside(HistoryOf(events, declared))
    ensures AliasesClear(events, declared)
    decreases |events|
  {
    if events != [] {
      var n := |events| - 1;
      RedeclaredEarlier(HistoryOf(events[..n], declared), events[n], declared);
      NoneRedeclaredClear(events[..n], declared);
    }
  }

  lemma RedeclaredEarlier(h: History, e: Event, declared: map<string, Node>)
    requires Formed(h) && Fits(h, e) && NoneRedeclaredInside(Next(h, e, declared))
    ensures NoneRedeclaredInside(h)
  {
    var r := Next(h, e, declared);
    forall i, o | 0 <= i < |h.names| && o in h.around[i] && o < |h.names| ensures h.names[o] != h.names[i] {
      assert r.around[i] == h.around[i] && r.names[i] == h.names[i] && r.names[o] == h.names[o];
    }
  }

  /** Where it is not: of "[&x [&x 1, *x]]" and "[&x [&x 1], *x]" both aliases are resolved to the outer
      anchor, the inner one being the more recent. */
  lemma OuterAnswered(h1: History, h2: History, h: History, after: History, declared: map<string, Node>)
    requires h1 == Next(START, Open("x"), declared) && h2 == Next(h1, Open("x"), declared)
    requires h2.open != [] && h == Next(h2, Close(1, None), declared)
    requires h.open != [] && after == Next(h, Close(2, None), declared)
    ensures MostRecent(h.names, "x", |h.names|) == Some(1) && Answer(h, "x") == Some(0)
    ensures MostRecent(after.names, "x", |after.names|) == Some(1) && Answer(after, "x") == Some(0)
  {
    OpenedX(START, declared);
    OpenedX(h1, declared);
    assert h2.names == ["x", "x"] && h2.open == [0, 1] && h2.closed == [];
    OuterAnswers(h, after);
  }

  lemma OpenedX(h: History, declared: map<string, Node>)
    requires Formed(h)
    ensures var r := Next(h, Open("x"), declared);
            r.names == h.names + ["x"] && r.open == h.open + [|h.names|] && r.closed == h.closed
  {
  }

  lemma OuterAnswers(h: History, after: History)
    requires Formed(h) && h.names == ["x", "x"] && h.open == [0]
    requires Formed(after) && after.names == h.names && after.open == [] && after.closed == [1, 0]
    ensures MostRecent(h.names, "x", |h.names|) == Some(1) && Answer(h, "x") == Some(0) && Answer(after, "x") == Some(0)
  {
  }

  /** Every alias has a target: the node, tag and all, of the declaration it stands for. */
  ghost predicate AllPointed(targets: seq<Option<Node>>, h: History) {
    |targets| == |h.meant| && forall k :: 0 <= k < |targets| ==> PointsAt(targets[k], h, h.meant[k])
  }

  ghost predicate PointsAt(target: Option<Node>, h: History, m: Meant) {
    match m
    case Declared(i) => i < |h.read| && h.read[i].Some? && target == h.read[i]
    case Published(node) => target == Some(node)
  }

  lemma AllTaken(s: State, h: History)
    requires Agrees(s, h) && h.open == []
    ensures AllPointed(Filled(s, |s.cyclic|), h)
  {
    forall k | 0 <= k < |h.meant| ensures PointsAt(Filled(s, |s.cyclic|)[k], h, h.meant[k]) { TakenTargets(s, h, k); }
  }

  /** A document read through the table: refused exactly where an alias names nothing or, as JSON, the node
      it stands in, and else with every alias pointed at the declaration it stands for. That is the most
      recent one of its name, at every alias, if and only if the aliases stand clear. */
  method ReadDocument(table: AnchorTable, events: seq<Event>)
    returns (declares: map<string, Node>, targets: seq<Option<Node>>, refused: bool)
    requires table.Now() == FRESH
    requires WellFormed(events, table.declared) && HistoryOf(events, table.declared).open == []
    modifies table
    ensures refused <==> !Readable(events, table.declared, table.jsonCompatible)
    ensures !refused ==> table.Now() == FRESH && AllPointed(targets, HistoryOf(events, table.declared))
    ensures HistoryOf(events, table.declared).meant == MostRecents(events, table.declared)
            <==> AliasesClear(events, table.declared)
  {
    MostRecentMeant(events, table.declared);
    refused := ReadEvents(table, events);
    if refused {
      return map[], [], true;
    }
    AllTaken(table.Now(), HistoryOf(events, table.declared));
    declares, targets := table.Take();
  }

  /** The events of a document, in turn, up to one that is refused. */
  method ReadEvents(table: AnchorTable, events: seq<Event>) returns (refused: bool)
    requires table.Now() == FRESH && WellFormed(events, table.declared)
    modifies table
    ensures refused <==> !Readable(events, table.declared, table.jsonCompatible)
    ensures !refused ==> Agrees(table.Now(), HistoryOf(events, table.declared))
    decreases |events|
  {
    if events == [] {
      StartAgrees();
      return false;
    }
    refused := ReadEvents(table, events[..|events| - 1]);
    if !refused {
      refused := ReadEvent(table, events);
    }
  }

  /** The last of some events, those in front of it read. */
  method ReadEvent(table: AnchorTable, events: seq<Event>) returns (refused: bool)
    requires events != [] && WellFormed(events, table.declared)
    requires var before := events[..|events| - 1];
             && WellFormed(before, table.declared) && Readable(before, table.declared, table.jsonCompatible)
             && Agrees(table.Now(), HistoryOf(before, table.declared))
    modifies table
    ensures refused <==> !Readable(events, table.declared, table.jsonCompatible)
    ensures !refused ==> Agrees(table.Now(), HistoryOf(events, table.declared))
  {
    ghost var h := HistoryOf(events[..|events| - 1], table.declared);
    var e := events[|events| - 1];
    StepRefused(table.Now(), h, e, table.declared, table.jsonCompatible);
    TableStep(table, e);
    refused := table.failed;
  }

  /** The table fails on an event exactly where it cannot be answered, and agrees with the document else. */
  lemma StepRefused(s: State, h: History, e: Event, declared: map<string, Node>, json: bool)
    requires Agrees(s, h) && Fits(h, e)
    ensures Stepped(s, e, declared, json).failed <==> !Answerable(h, e, declared, json)
    ensures Answerable(h, e, declared, json) ==> Agrees(Stepped(s, e, declared, json), Next(h, e, declared))
  {
    if e.Alias? {
      OpenNodeIs(s, h, e.name, |h.open|);
      assert h.open[..|h.open|] == h.open;
      AliasAgrees(s, h, e.name, declared);
    } else {
      StepAgrees(s, h, e, declared);
    }
  }

  ghost function Stepped(s: State, e: Event, declared: map<string, Node>, json: bool): State
    requires Sound(s) && (e.Close? ==> s.open != [])
  {
    if e.Alias? then Resolved(s, e.name, declared, json) else Step(s, e, declared)
  }

  method TableStep(table: AnchorTable, e: Event)
    requires Sound(table.Now()) && (e.Close? ==> table.open != [])
    modifies table
    ensures table.Now() == Stepped(old(table.Now()), e, table.declared, table.jsonCompatible)
  {
    match e
    case Open(name) => table.OpenName(name);
    case Close(node, tag) =>
      var top := table.open[|table.open| - 1];
      table.KeepAnchor(node);
      if tag.Some? {
        table.Retag(top, tag.value);
      }
    case Alias(name) => table.ResolveAlias(name);
  }
}
