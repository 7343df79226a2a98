/** What a mapping handed over from the tree holds, said of its entries alone: which mappings its "<<"
    entries name, and for every name which entry it is read from (codec/jsontokenemit.go, ast/merge.go). */
module JsonMerge {
  import opened JsonValue
  import opened JsonEmit

  // ---------------------------------------------------------------- the mappings a "<<" names

  /** Where a chain of anchors, tags and aliases ends, and how many of them there are. */
  datatype Chain = Chain(end: Place, length: nat)

  function Longer(c: Option<Chain>): Option<Chain> {
    if c.None? then None else Some(Chain(c.value.end, c.value.length + 1))
  }

  /** The chain that opens on a node, or None where an alias in it stands for nothing. */
  ghost function ChainOf(g: Graph, node: Node, n: nat): (r: Option<Chain>)
    requires Acyclic(g) && n <= |g.nodes| && Below(g, node, n)
    ensures r.Some? ==> r.value.end.bound <= n && Below(g, r.value.end.node, r.value.end.bound)
    decreases n, node
  {
    match node
    case Anchor(inner) => Longer(ChainOf(g, inner, n))
    case Tagged(_, inner) => Longer(ChainOf(g, inner, n))
    case Alias(_, target) =>
      if target.None? then None else Longer(ChainOf(g, g.nodes[target.value], target.value))
    case _ => Some(Chain(Place(node, n), 0))
  }

  /** unwrapMergeValue reads through every anchor, tag and alias there is, as long as they are fewer than
      it has steps. */
  lemma {:induction false} UnwrappedIsEnd(g: Graph, node: Node, n: nat, fuel: nat)
    requires Acyclic(g) && n <= |g.nodes| && Below(g, node, n)
    ensures var c := ChainOf(g, node, n);
            Unwrapped(g, node, n, fuel) == if c.Some? && c.value.length < fuel then Some(c.value.end) else None
    decreases fuel
  {
    if fuel > 0 {
      match node
      case Anchor(inner) => UnwrappedIsEnd(g, inner, n, fuel - 1);
      case Tagged(_, inner) => UnwrappedIsEnd(g, inner, n, fuel - 1);
      case Alias(_, target) =>
        if target.Some? { UnwrappedIsEnd(g, g.nodes[target.value], target.value, fuel - 1); }
      case _ =>
    }
  }

  /** The node is a mapping, or fewer than 64 anchors, tags and aliases away from one. */
  ghost predicate NamesMapping(g: Graph, node: Node, n: nat, at: Place)
    requires Acyclic(g) && n <= |g.nodes| && Below(g, node, n)
  {
    var c := ChainOf(g, node, n);
    c.Some? && c.value.length < 64 && c.value.end == at && at.node.Mapping?
  }

  /** The value of a "<<" names these mappings: it names one, or a sequence each item of which does. */
  ghost predicate NamesAll(g: Graph, value: Node, n: nat, found: seq<Place>)
    requires Acyclic(g) && n <= |g.nodes| && Below(g, value, n)
  {
    var c := ChainOf(g, value, n);
    && c.Some? && c.value.length < 64
    && match c.value.end.node
       case Mapping(_) => found == [c.value.end]
       case Sequence(items) => EachNamed(g, items, c.value.end.bound, found)
       case _ => false
  }

  ghost predicate EachNamed(g: Graph, items: seq<Node>, bound: nat, found: seq<Place>)
    requires Acyclic(g) && bound <= |g.nodes| && forall i :: 0 <= i < |items| ==> Below(g, items[i], bound)
  {
    |found| == |items| && forall i :: 0 <= i < |items| ==> NamesMapping(g, items[i], bound, found[i])
  }

  /** What one entry merges: a "<<" the mappings it names, another nothing. */
  ghost predicate EntryMerges(g: Graph, e: Entry, n: nat, found: seq<Place>)
    requires Acyclic(g) && n <= |g.nodes| && EntryBelow(g, e, n)
  {
    if e.Own? then found == [] else NamesAll(g, e.value, n, found)
  }

  /** What each entry of a mapping merges. */
  ghost predicate Merges(g: Graph, entries: seq<Entry>, n: nat, sources: seq<seq<Place>>)
    requires Acyclic(g) && n <= |g.nodes| && EntriesBelow(g, entries, n)
  {
    && |sources| == |entries|
    && forall i :: 0 <= i < |entries| ==> EntryMerges(g, entries[i], n, sources[i])
  }

  /** The pairs of a list of mappings, one after another. */
  ghost function PlacePairs(found: seq<Place>): seq<Pair> {
    if found == [] then []
    else (if found[0].node.Mapping? then SourcePairs(found[0].node.entries, found[0].bound) else [])
         + PlacePairs(found[1..])
  }

  ghost predicate NamesNone(g: Graph, node: Node, n: nat)
    requires Acyclic(g) && n <= |g.nodes| && Below(g, node, n)
  {
    forall at :: !NamesMapping(g, node, n, at)
  }

  /** The first of them named, then the rest. */
  lemma ItemNamed(g: Graph, items: seq<Node>, bound: nat, n: nat, value: Node, whole: Node, at: Place, more: seq<Place>)
    returns (found: seq<Place>)
    requires Acyclic(g) && bound <= n <= |g.nodes| && value < whole && items != []
    requires forall i :: 0 <= i < |items| ==> Below(g, items[i], bound) && (bound == n ==> items[i] < value)
    requires NamesMapping(g, items[0], bound, at) && Unwrapped(g, items[0], bound, MAX_MERGE_DEPTH) == Some(at)
    requires var r := ItemPairs(g, items[1..], bound, n, value, whole);
             if r.Some? then EachNamed(g, items[1..], bound, more) && r.value == PlacePairs(more)
             else exists i :: 0 <= i < |items[1..]| && NamesNone(g, items[1..][i], bound)
    ensures var r := ItemPairs(g, items, bound, n, value, whole);
            if r.Some? then EachNamed(g, items, bound, found) && r.value == PlacePairs(found)
            else exists i :: 0 <= i < |items| && NamesNone(g, items[i], bound)
  {
    found := [at] + more;
    assert found[1..] == more;
    var rest := items[1..];
    if ItemPairs(g, rest, bound, n, value, whole).None? {
      var i :| 0 <= i < |rest| && NamesNone(g, rest[i], bound);
      assert NamesNone(g, items[i + 1], bound);
    } else {
      EachCons(g, items, bound, at, more);
      assert PlacePairs(found) == SourcePairs(at.node.entries, at.bound) + PlacePairs(more);
    }
  }

  lemma EachCons(g: Graph, items: seq<Node>, bound: nat, at: Place, more: seq<Place>)
    requires Acyclic(g) && bound <= |g.nodes| && forall i :: 0 <= i < |items| ==> Below(g, items[i], bound)
    requires items != [] && NamesMapping(g, items[0], bound, at) && EachNamed(g, items[1..], bound, more)
    ensures EachNamed(g, items, bound, [at] + more)
  {
    forall i | 0 <= i < |items| ensures NamesMapping(g, items[i], bound, ([at] + more)[i]) {
      if i > 0 { assert items[1..][i - 1] == items[i]; }
    }
  }

  lemma {:induction false} ItemsNamed(g: Graph, items: seq<Node>, bound: nat, n: nat, value: Node, whole: Node)
    returns (found: seq<Place>)
    requires Acyclic(g) && bound <= n <= |g.nodes| && value < whole
    requires forall i :: 0 <= i < |items| ==> Below(g, items[i], bound) && (bound == n ==> items[i] < value)
    ensures var r := ItemPairs(g, items, bound, n, value, whole);
            if r.Some? then EachNamed(g, items, bound, found) && r.value == PlacePairs(found)
            else exists i :: 0 <= i < |items| && NamesNone(g, items[i], bound)
    decreases |items|
  {
    found := [];
    if items != [] {
      UnwrappedIsEnd(g, items[0], bound, MAX_MERGE_DEPTH);
      var at := Unwrapped(g, items[0], bound, MAX_MERGE_DEPTH);
      if at.None? || !at.value.node.Mapping? {
        assert NamesNone(g, items[0], bound);
      } else {
        var more := ItemsNamed(g, items[1..], bound, n, value, whole);
        found := ItemNamed(g, items, bound, n, value, whole, at.value, more);
      }
    }
  }

  lemma NoneNamed(g: Graph, items: seq<Node>, bound: nat)
    requires Acyclic(g) && bound <= |g.nodes| && forall i :: 0 <= i < |items| ==> Below(g, items[i], bound)
    requires exists i :: 0 <= i < |items| && NamesNone(g, items[i], bound)
    ensures forall f :: !EachNamed(g, items, bound, f)
  {
    var i :| 0 <= i < |items| && NamesNone(g, items[i], bound);
    forall f ensures !EachNamed(g, items, bound, f) {
      assert |f| == |items| ==> !NamesMapping(g, items[i], bound, f[i]);
    }
  }

  lemma MergeNamed(g: Graph, value: Node, n: nat, whole: Node) returns (found: seq<Place>)
    requires Acyclic(g) && n <= |g.nodes| && Below(g, value, n) && value < whole
    ensures var r := MergePairs(g, value, n, whole);
            if r.Some? then NamesAll(g, value, n, found) && r.value == PlacePairs(found)
            else forall f :: !NamesAll(g, value, n, f)
  {
    found := [];
    UnwrappedIsEnd(g, value, n, MAX_MERGE_DEPTH);
    var at := Unwrapped(g, value, n, MAX_MERGE_DEPTH);
    if at.Some? && at.value.node.Mapping? {
      found := [at.value];
      var none: seq<Place> := [];
      assert found[1..] == none && PlacePairs(none) == [];
    } else if at.Some? && at.value.node.Sequence? {
      var items, bound := at.value.node.items, at.value.bound;
      found := ItemsNamed(g, items, bound, n, value, whole);
      if ItemPairs(g, items, bound, n, value, whole).None? {
        NoneNamed(g, items, bound);
      }
    }
  }

  /** The pairs of what the entries from i on merge. */
  ghost function AllPairs(sources: seq<seq<Place>>, i: nat): seq<Pair>
    requires i <= |sources|
    decreases |sources| - i
  {
    if i == |sources| then [] else PlacePairs(sources[i]) + AllPairs(sources, i + 1)
  }

  lemma MergesCons(g: Graph, entries: seq<Entry>, n: nat, s: seq<seq<Place>>)
    requires Acyclic(g) && n <= |g.nodes| && EntriesBelow(g, entries, n) && entries != []
    ensures EntryBelow(g, entries[0], n) && EntriesBelow(g, entries[1..], n)
    ensures Merges(g, entries, n, s)
            <==> s != [] && EntryMerges(g, entries[0], n, s[0]) && Merges(g, entries[1..], n, s[1..])
  {
    assert EntryBelow(g, entries[0], n);
    forall i | 0 <= i < |entries| - 1 ensures EntryBelow(g, entries[1..][i], n) {
      assert EntryBelow(g, entries[i + 1], n);
    }
    if s != [] && EntryMerges(g, entries[0], n, s[0]) && Merges(g, entries[1..], n, s[1..]) {
      forall i | 0 <= i < |entries|
        ensures EntryBelow(g, entries[i], n) && EntryMerges(g, entries[i], n, s[i])
      {
        if i > 0 { assert entries[1..][i - 1] == entries[i] && s[1..][i - 1] == s[i]; }
      }
    }
  }

  /** No list of mappings is what the entries merge. */
  ghost predicate MergesNone(g: Graph, entries: seq<Entry>, n: nat)
    requires Acyclic(g) && n <= |g.nodes| && EntriesBelow(g, entries, n)
  {
    forall s :: !Merges(g, entries, n, s)
  }

  lemma MergesNoneCons(g: Graph, entries: seq<Entry>, n: nat)
    requires Acyclic(g) && n <= |g.nodes| && EntriesBelow(g, entries, n) && entries != []
    requires EntryBelow(g, entries[0], n) && EntriesBelow(g, entries[1..], n)
    requires MergesNone(g, entries[1..], n) || (forall f :: !EntryMerges(g, entries[0], n, f))
    ensures MergesNone(g, entries, n)
  {
    forall s ensures !Merges(g, entries, n, s) {
      MergesCons(g, entries, n, s);
    }
  }

  /** What the "<<" entries bring in is what they merge, pair after pair. */
  lemma {:induction false} SourcesMerged(g: Graph, entries: seq<Entry>, n: nat, whole: Node)
    returns (sources: seq<seq<Place>>)
    requires Acyclic(g) && n <= |g.nodes| && EntriesBelow(g, entries, n)
    requires forall i :: 0 <= i < |entries| ==> entries[i].value < whole
    ensures var r := Sources(g, entries, n, whole);
            if r.Some? then Merges(g, entries, n, sources) && r.value == AllPairs(sources, 0)
            else MergesNone(g, entries, n)
    decreases |entries|
  {
    sources := [];
    if entries != [] {
      MergesCons(g, entries, n, []);
      var more := SourcesMerged(g, entries[1..], n, whole);
      var first := EntryMerged(g, entries[0], n, whole);
      var r := Sources(g, entries, n, whole);
      if r.None? {
        MergesNoneCons(g, entries, n);
      } else {
        sources := [first] + more;
        assert sources[1..] == more;
        MergesCons(g, entries, n, sources);
        assert AllPairs(sources, 0) == PlacePairs(first) + AllPairs(more, 0) by { PairsShift(sources, more, 0); }
      }
    }
  }

  lemma EntryMerged(g: Graph, e: Entry, n: nat, whole: Node) returns (found: seq<Place>)
    requires Acyclic(g) && n <= |g.nodes| && EntryBelow(g, e, n) && e.value < whole
    ensures var r := if e.Own? then Some([]) else MergePairs(g, e.value, n, whole);
            if r.Some? then EntryMerges(g, e, n, found) && r.value == PlacePairs(found)
            else forall f :: !EntryMerges(g, e, n, f)
  {
    found := [];
    if e.Merge? { found := MergeNamed(g, e.value, n, whole); }
  }

  lemma {:induction false} PairsShift(sources: seq<seq<Place>>, more: seq<seq<Place>>, i: nat)
    requires sources != [] && more == sources[1..] && i <= |more|
    ensures AllPairs(sources, i + 1) == AllPairs(more, i)
    decreases |more| - i
  {
    if i < |more| {
      assert sources[i + 1] == more[i];
      PairsShift(sources, more, i + 1);
    }
  }

  // ---------------------------------------------------------------- where an entry stands

  /** An entry of the mapping's own, or the k'th entry of the j'th mapping its i'th entry merges. */
  datatype Spot = OwnAt(i: nat) | MergedAt(i: nat, j: nat, k: nat)

  /** Own entries come first, each kind in document order. */
  predicate Before(p: Spot, q: Spot) {
    match (p, q)
    case (OwnAt(i), OwnAt(i')) => i < i'
    case (OwnAt(_), MergedAt(_, _, _)) => true
    case (MergedAt(_, _, _), OwnAt(_)) => false
    case (MergedAt(i, j, k), MergedAt(i', j', k')) => i < i' || (i == i' && (j < j' || (j == j' && k < k')))
  }

  predicate Stands(entries: seq<Entry>, sources: seq<seq<Place>>, p: Spot) {
    match p
    case OwnAt(i) => i < |entries| && entries[i].Own?
    case MergedAt(i, j, k) =>
      i < |sources| && j < |sources[i]| && sources[i][j].node.Mapping? && k < |sources[i][j].node.entries|
  }

  function EntryAt(entries: seq<Entry>, sources: seq<seq<Place>>, p: Spot): Entry
    requires Stands(entries, sources, p)
  {
    match p
    case OwnAt(i) => entries[i]
    case MergedAt(i, j, k) => sources[i][j].node.entries[k]
  }

  function BoundAt(entries: seq<Entry>, sources: seq<seq<Place>>, n: nat, p: Spot): nat
    requires Stands(entries, sources, p)
  {
    match p
    case OwnAt(i) => n
    case MergedAt(i, j, k) => sources[i][j].bound
  }

  /** The entry at p is named so; a "<<" of a mapping that is merged counts as an entry named "<<". */
  predicate Named(entries: seq<Entry>, sources: seq<seq<Place>>, p: Spot, name: string) {
    && Stands(entries, sources, p)
    && match EntryAt(entries, sources, p)
       case Own(key, _) => key == name
       case Merge(_) => name == "<<"
  }

  /** It is the first one named so. */
  ghost predicate First(entries: seq<Entry>, sources: seq<seq<Place>>, p: Spot, name: string) {
    Named(entries, sources, p, name) && forall q :: Named(entries, sources, q, name) ==> q == p || Before(p, q)
  }

  ghost predicate Ascending(ps: seq<Spot>) {
    forall x, y :: 0 <= x < y < |ps| ==> Before(ps[x], ps[y])
  }

  ghost predicate Fits(entries: seq<Entry>, sources: seq<seq<Place>>, n: nat, pair: Pair, p: Spot) {
    && Named(entries, sources, p, pair.name)
    && pair.value == EntryAt(entries, sources, p).value && pair.bound == BoundAt(entries, sources, n, p)
  }

  /** The pairs are those of the entries at the spots. */
  ghost predicate AllFit(entries: seq<Entry>, sources: seq<seq<Place>>, n: nat, pairs: seq<Pair>, ps: seq<Spot>) {
    |pairs| == |ps| && forall x :: 0 <= x < |ps| ==> Fits(entries, sources, n, pairs[x], ps[x])
  }

  lemma FitConcat(entries: seq<Entry>, sources: seq<seq<Place>>, n: nat, a: seq<Pair>, ps: seq<Spot>,
                  b: seq<Pair>, qs: seq<Spot>)
    requires AllFit(entries, sources, n, a, ps) && AllFit(entries, sources, n, b, qs)
    requires Ascending(ps) && Ascending(qs) && forall p, q :: p in ps && q in qs ==> Before(p, q)
    ensures AllFit(entries, sources, n, a + b, ps + qs) && Ascending(ps + qs)
  {
    forall x, y | 0 <= x < y < |ps + qs| ensures Before((ps + qs)[x], (ps + qs)[y]) {
      if x < |ps| <= y { assert ps[x] in ps && qs[y - |ps|] in qs; }
    }
  }

  /** The own entries from the i'th on. */
  function OwnSpots(entries: seq<Entry>, i: nat): (r: seq<Spot>)
    requires i <= |entries|
    ensures forall p :: p in r <==> p.OwnAt? && i <= p.i < |entries| && entries[p.i].Own?
    decreases |entries| - i
  {
    if i == |entries| then [] else (if entries[i].Own? then [OwnAt(i)] else []) + OwnSpots(entries, i + 1)
  }

  lemma {:induction false} OwnSpotsFit(entries: seq<Entry>, sources: seq<seq<Place>>, n: nat, i: nat)
    requires i <= |entries|
    ensures Ascending(OwnSpots(entries, i))
    ensures AllFit(entries, sources, n, OwnPairs(entries[i..], n), OwnSpots(entries, i))
    decreases |entries| - i
  {
    if i < |entries| {
      OwnSpotsFit(entries, sources, n, i + 1);
      assert entries[i..][1..] == entries[i + 1..];
      var rest := OwnSpots(entries, i + 1);
      forall y | 0 <= y < |rest| ensures Before(OwnAt(i), rest[y]) {
        assert rest[y] in rest;
      }
    }
  }

  /** The entries of one mapping merged. */
  function MappingSpots(i: nat, j: nat, at: Place): (r: seq<Spot>)
    ensures |r| == if at.node.Mapping? then |at.node.entries| else 0
    ensures forall x :: 0 <= x < |r| ==> r[x] == MergedAt(i, j, x)
  {
    if at.node.Mapping? then seq(|at.node.entries|, k requires k >= 0 => MergedAt(i, j, k)) else []
  }

  /** The entries of the mappings the i'th entry merges, from the j'th on. */
  function EntrySpots(sources: seq<seq<Place>>, i: nat, j: nat): (r: seq<Spot>)
    requires i < |sources| && j <= |sources[i]|
    ensures forall p :: p in r <==> p.MergedAt? && p.i == i && p.j >= j && Stands([], sources, p)
    decreases |sources[i]| - j
  {
    if j == |sources[i]| then []
    else
      var first := MappingSpots(i, j, sources[i][j]);
      assert forall p: Spot :: p in first <==> p.MergedAt? && p.i == i && p.j == j && Stands([], sources, p) by {
        forall p: Spot | p.MergedAt? && p.i == i && p.j == j && Stands([], sources, p) ensures p in first {
          assert first[p.k] == p;
        }
      }
      first + EntrySpots(sources, i, j + 1)
  }

  lemma {:induction false} SourcePairsNamed(entries: seq<Entry>, n: nat, k: nat)
    requires k < |entries|
    ensures SourcePairs(entries, n)[k].name == match entries[k] case Own(name, _) => name case Merge(_) => "<<"
  {
    if k > 0 {
      SourcePairsNamed(entries[1..], n, k - 1);
      assert entries[1..][k - 1] == entries[k];
    }
  }

  lemma MappingSpotsFit(entries: seq<Entry>, sources: seq<seq<Place>>, n: nat, i: nat, j: nat)
    requires i < |sources| && j < |sources[i]|
    ensures var at := sources[i][j];
            AllFit(entries, sources, n, if at.node.Mapping? then SourcePairs(at.node.entries, at.bound) else [],
                   MappingSpots(i, j, at))
  {
    var at := sources[i][j];
    if at.node.Mapping? {
      var pairs, ps := SourcePairs(at.node.entries, at.bound), MappingSpots(i, j, at);
      forall x | 0 <= x < |ps| ensures Fits(entries, sources, n, pairs[x], ps[x]) {
        SourcePairsNamed(at.node.entries, at.bound, x);
      }
    }
  }

  lemma {:induction false} EntrySpotsFit(entries: seq<Entry>, sources: seq<seq<Place>>, n: nat, i: nat, j: nat)
    requires i < |sources| && j <= |sources[i]|
    ensures Ascending(EntrySpots(sources, i, j))
    ensures AllFit(entries, sources, n, PlacePairs(sources[i][j..]), EntrySpots(sources, i, j))
    decreases |sources[i]| - j
  {
    if j < |sources[i]| {
      EntrySpotsFit(entries, sources, n, i, j + 1);
      MappingSpotsFit(entries, sources, n, i, j);
      assert sources[i][j..][1..] == sources[i][j + 1..];
      var at := sources[i][j];
      FitConcat(entries, sources, n, if at.node.Mapping? then SourcePairs(at.node.entries, at.bound) else [],
                MappingSpots(i, j, at), PlacePairs(sources[i][j + 1..]), EntrySpots(sources, i, j + 1));
    }
  }

  /** All that is merged by the i'th entry and those after it. */
  function MergedSpots(sources: seq<seq<Place>>, i: nat): (r: seq<Spot>)
    requires i <= |sources|
    ensures forall p :: p in r <==> p.MergedAt? && p.i >= i && Stands([], sources, p)
    decreases |sources| - i
  {
    if i == |sources| then [] else EntrySpots(sources, i, 0) + MergedSpots(sources, i + 1)
  }

  lemma {:induction false} MergedSpotsFit(entries: seq<Entry>, sources: seq<seq<Place>>, n: nat, i: nat)
    requires i <= |sources|
    ensures Ascending(MergedSpots(sources, i))
    ensures AllFit(entries, sources, n, AllPairs(sources, i), MergedSpots(sources, i))
    decreases |sources| - i
  {
    if i < |sources| {
      MergedSpotsFit(entries, sources, n, i + 1);
      EntrySpotsFit(entries, sources, n, i, 0);
      assert sources[i][0..] == sources[i];
      FitConcat(entries, sources, n, PlacePairs(sources[i]), EntrySpots(sources, i, 0),
                AllPairs(sources, i + 1), MergedSpots(sources, i + 1));
    }
  }

  /** Own entries, then what is merged. */
  function AllSpots(entries: seq<Entry>, sources: seq<seq<Place>>): (r: seq<Spot>)
    ensures forall p :: p in r <==> Stands(entries, sources, p)
  {
    OwnSpots(entries, 0) + MergedSpots(sources, 0)
  }

  lemma AllSpotsFit(entries: seq<Entry>, sources: seq<seq<Place>>, n: nat)
    ensures Ascending(AllSpots(entries, sources))
    ensures AllFit(entries, sources, n, OwnPairs(entries, n) + AllPairs(sources, 0), AllSpots(entries, sources))
  {
    OwnSpotsFit(entries, sources, n, 0);
    MergedSpotsFit(entries, sources, n, 0);
    assert entries[0..] == entries;
    FitConcat(entries, sources, n, OwnPairs(entries, n), OwnSpots(entries, 0),
              AllPairs(sources, 0), MergedSpots(sources, 0));
  }

  // ---------------------------------------------------------------- the pairs kept

  /** No pair before the one at x is named as it is. */
  ghost predicate Leads(pairs: seq<Pair>, x: nat)
    requires x < |pairs|
  {
    forall y :: 0 <= y < x ==> pairs[y].name != pairs[x].name
  }

  /** The names held are those of the first x pairs. */
  ghost predicate HeldBefore(held: seq<string>, pairs: seq<Pair>, x: nat)
    requires x <= |pairs|
  {
    && (forall y :: 0 <= y < x ==> pairs[y].name in held)
    && (forall name :: name in held ==> exists y :: 0 <= y < x && pairs[y].name == name)
  }

  /** The first pair of a name leads. */
  lemma {:induction false} LeaderOf(pairs: seq<Pair>, x: nat) returns (y: nat)
    requires x < |pairs|
    ensures y <= x && pairs[y].name == pairs[x].name && Leads(pairs, y)
  {
    y := x;
    if !Leads(pairs, x) {
      var z: nat :| z < x && pairs[z].name == pairs[x].name;
      y := LeaderOf(pairs, z);
    }
  }

  /** Where the pairs that lead stand, from x on. */
  ghost function Leaders(pairs: seq<Pair>, x: nat): (r: seq<nat>)
    requires x <= |pairs|
    ensures forall a :: 0 <= a < |r| ==> x <= r[a] < |pairs|
    ensures forall a, b :: 0 <= a < b < |r| ==> r[a] < r[b]
    decreases |pairs| - x
  {
    if x == |pairs| then []
    else if Leads(pairs, x) then [x] + Leaders(pairs, x + 1)
    else Leaders(pairs, x + 1)
  }

  lemma {:induction false} LeadersLead(pairs: seq<Pair>, x: nat)
    requires x <= |pairs|
    ensures forall z :: z in Leaders(pairs, x) <==> x <= z < |pairs| && Leads(pairs, z)
    decreases |pairs| - x
  {
    if x < |pairs| { LeadersLead(pairs, x + 1); }
  }

  /** What stands at those places. */
  function At<T>(xs: seq<T>, idx: seq<nat>): (r: seq<T>)
    requires forall a :: 0 <= a < |idx| ==> idx[a] < |xs|
    ensures |r| == |idx| && forall a :: 0 <= a < |r| ==> r[a] == xs[idx[a]]
  {
    if idx == [] then [] else [xs[idx[0]]] + At(xs, idx[1..])
  }

  lemma LeadsIfFree(held: seq<string>, pairs: seq<Pair>, x: nat)
    requires x < |pairs| && HeldBefore(held, pairs, x)
    ensures Leads(pairs, x) <==> pairs[x].name !in held
    ensures HeldBefore(if pairs[x].name in held then held else held + [pairs[x].name], pairs, x + 1)
  {
    var held' := if pairs[x].name in held then held else held + [pairs[x].name];
    forall name | name in held' ensures exists y :: 0 <= y < x + 1 && pairs[y].name == name {
      if name in held {
        var y :| 0 <= y < x && pairs[y].name == name;
      } else {
        assert pairs[x].name == name;
      }
    }
  }

  lemma AtCons<T>(xs: seq<T>, x: nat, rest: seq<nat>)
    requires x < |xs| && forall a :: 0 <= a < |rest| ==> rest[a] < |xs|
    ensures At(xs, [x] + rest) == [xs[x]] + At(xs, rest)
  {
    assert ([x] + rest)[1..] == rest;
  }

  lemma KeptStep(held: seq<string>, pairs: seq<Pair>, x: nat)
    requires x < |pairs|
    ensures Kept(held, pairs[x..])
            == if pairs[x].name in held then Kept(held, pairs[x + 1..])
               else [pairs[x]] + Kept(held + [pairs[x].name], pairs[x + 1..])
  {
    assert pairs[x..][1..] == pairs[x + 1..];
  }

  /** The names taken by the first x pairs. */
  function TakenBy(pairs: seq<Pair>, x: nat): seq<string>
    requires x <= |pairs|
  {
    if x == 0 then []
    else
      var held := TakenBy(pairs, x - 1);
      if pairs[x - 1].name in held then held else held + [pairs[x - 1].name]
  }

  lemma {:induction false} TakenHeld(pairs: seq<Pair>, x: nat)
    requires x <= |pairs|
    ensures HeldBefore(TakenBy(pairs, x), pairs, x)
  {
    if x > 0 {
      TakenHeld(pairs, x - 1);
      LeadsIfFree(TakenBy(pairs, x - 1), pairs, x - 1);
    }
  }

  lemma LeadsUntaken(pairs: seq<Pair>, x: nat)
    requires x < |pairs|
    ensures Leads(pairs, x) <==> pairs[x].name !in TakenBy(pairs, x)
  {
    TakenHeld(pairs, x);
    LeadsIfFree(TakenBy(pairs, x), pairs, x);
  }

  /** Of the pairs from x on those that lead are kept. */
  ghost predicate KeptFrom(pairs: seq<Pair>, x: nat)
    requires x <= |pairs|
  {
    Kept(TakenBy(pairs, x), pairs[x..]) == At(pairs, Leaders(pairs, x))
  }

  lemma NoneLead(pairs: seq<Pair>)
    ensures KeptFrom(pairs, |pairs|)
  {
    assert pairs[|pairs|..] == [];
  }

  lemma LeadStep(pairs: seq<Pair>, x: nat)
    requires x < |pairs| && KeptFrom(pairs, x + 1)
    ensures KeptFrom(pairs, x)
  {
    LeadsUntaken(pairs, x);
    KeptStep(TakenBy(pairs, x), pairs, x);
    if pairs[x].name !in TakenBy(pairs, x) {
      AtCons(pairs, x, Leaders(pairs, x + 1));
      assert Leaders(pairs, x) == [x] + Leaders(pairs, x + 1);
    }
  }

  /** The pairs kept are those that lead. */
  lemma {:induction false} KeptLead(pairs: seq<Pair>, x: nat)
    requires x <= |pairs|
    ensures KeptFrom(pairs, x)
    decreases |pairs| - x
  {
    if x == |pairs| {
      NoneLead(pairs);
    } else {
      KeptLead(pairs, x + 1);
      LeadStep(pairs, x);
    }
  }

  /** Pairs have values exactly where each has one. */
  lemma {:induction false} PairValuesAt(g: Graph, pairs: seq<Pair>, n: nat, held: Option<seq<string>>, whole: Node)
    requires Acyclic(g) && n <= |g.nodes| && AllUnder(g, pairs, n, whole)
    ensures var r := PairValues(g, pairs, n, held, whole);
            if r.Some? then forall x :: 0 <= x < |pairs| ==>
                Under(g, pairs[x], n, whole) && Value(g, pairs[x].value, pairs[x].bound, held) == Some(r.value[x].value)
            else exists x :: 0 <= x < |pairs| && Under(g, pairs[x], n, whole)
                             && Value(g, pairs[x].value, pairs[x].bound, held).None?
    decreases |pairs|
  {
    if pairs != [] {
      assert Under(g, pairs[0], n, whole);
      assert AllUnder(g, pairs[1..], n, whole);
      PairValuesAt(g, pairs[1..], n, held, whole);
      var rest := pairs[1..];
      if PairValues(g, pairs, n, held, whole).None? && Value(g, pairs[0].value, pairs[0].bound, held).Some? {
        var x :| 0 <= x < |rest| && Under(g, rest[x], n, whole) && Value(g, rest[x].value, rest[x].bound, held).None?;
        assert Under(g, pairs[x + 1], n, whole);
      }
    }
  }

  // ---------------------------------------------------------------- what a mapping denotes

  lemma ChainBelow(g: Graph, node: Node, n: nat, at: Place)
    requires Acyclic(g) && n <= |g.nodes| && Below(g, node, n) && NamesMapping(g, node, n, at)
    ensures at.bound <= |g.nodes| && EntriesBelow(g, at.node.entries, at.bound)
  {
    assert Below(g, at.node, at.bound);
  }

  lemma SpotBelow(g: Graph, entries: seq<Entry>, n: nat, sources: seq<seq<Place>>, p: Spot)
    requires Acyclic(g) && n <= |g.nodes| && EntriesBelow(g, entries, n) && Merges(g, entries, n, sources)
    requires Stands(entries, sources, p)
    ensures BoundAt(entries, sources, n, p) <= |g.nodes|
    ensures Below(g, EntryAt(entries, sources, p).value, BoundAt(entries, sources, n, p))
  {
    match p
    case OwnAt(i) => assert EntryBelow(g, entries[i], n);
    case MergedAt(i, j, k) =>
      assert EntryBelow(g, entries[i], n) && EntryMerges(g, entries[i], n, sources[i]);
      var value := entries[i].value;
      var c := ChainOf(g, value, n).value;
      if c.end.node.Sequence? {
        assert NamesMapping(g, c.end.node.items[j], c.end.bound, sources[i][j]);
        ChainBelow(g, c.end.node.items[j], c.end.bound, sources[i][j]);
      }
      var at := sources[i][j];
      assert EntriesBelow(g, at.node.entries, at.bound);
      assert EntryBelow(g, at.node.entries[k], at.bound);
  }

  /** What the entry at p is worth. */
  ghost function ValueAt(g: Graph, entries: seq<Entry>, n: nat, sources: seq<seq<Place>>, p: Spot,
                         held: Option<seq<string>>)
    : Option<Json>
    requires Acyclic(g) && n <= |g.nodes| && EntriesBelow(g, entries, n) && Merges(g, entries, n, sources)
    requires Stands(entries, sources, p)
  {
    SpotBelow(g, entries, n, sources, p);
    Value(g, EntryAt(entries, sources, p).value, BoundAt(entries, sources, n, p), held)
  }

  /** The members are what the first entries of their names are worth, in the order those stand in, and
      every name an entry has is one of theirs. */
  ghost predicate Holds(g: Graph, entries: seq<Entry>, n: nat, sources: seq<seq<Place>>, held: Option<seq<string>>,
                        members: seq<Member>, at: seq<Spot>)
    requires Acyclic(g) && n <= |g.nodes| && EntriesBelow(g, entries, n) && Merges(g, entries, n, sources)
  {
    && |at| == |members| && Ascending(at)
    && (forall a :: 0 <= a < |at| ==>
          First(entries, sources, at[a], members[a].name)
          && ValueAt(g, entries, n, sources, at[a], held) == Some(members[a].value))
    && (forall p, name :: Named(entries, sources, p, name) ==> Names(members, name))
  }

  ghost predicate Names(members: seq<Member>, name: string) {
    exists a :: 0 <= a < |members| && members[a].name == name
  }

  /** The first entry of some name is worth nothing. */
  ghost predicate Lacks(g: Graph, entries: seq<Entry>, n: nat, sources: seq<seq<Place>>, held: Option<seq<string>>)
    requires Acyclic(g) && n <= |g.nodes| && EntriesBelow(g, entries, n) && Merges(g, entries, n, sources)
  {
    exists p, name :: First(entries, sources, p, name) && ValueAt(g, entries, n, sources, p, held).None?
  }

  /** The pairs that lead are those of the first entries. */
  lemma LeadsIsFirst(entries: seq<Entry>, sources: seq<seq<Place>>, n: nat, pairs: seq<Pair>, ps: seq<Spot>, x: nat)
    requires AllFit(entries, sources, n, pairs, ps) && Ascending(ps) && x < |pairs|
    requires forall p :: p in ps <==> Stands(entries, sources, p)
    ensures Leads(pairs, x) <==> First(entries, sources, ps[x], pairs[x].name)
  {
    var name := pairs[x].name;
    assert Fits(entries, sources, n, pairs[x], ps[x]);
    if Leads(pairs, x) {
      forall q | Named(entries, sources, q, name) ensures q == ps[x] || Before(ps[x], q) {
        assert q in ps;
        var y :| 0 <= y < |ps| && ps[y] == q;
        assert Fits(entries, sources, n, pairs[y], ps[y]);
        assert pairs[y].name == name;
      }
    }
    if First(entries, sources, ps[x], name) {
      forall y | 0 <= y < x ensures pairs[y].name != name {
        assert Fits(entries, sources, n, pairs[y], ps[y]);
        assert Before(ps[y], ps[x]) && !Before(ps[x], ps[y]) && ps[y] != ps[x];
      }
    }
  }

  /** What a mapping denotes, said of its entries: an object exactly where every "<<" names mappings and the
      first entry of every name is worth something, and then for each name what that entry is worth. */
  lemma MappingDenotes(g: Graph, entries: seq<Entry>, n: nat, held: Option<seq<string>>)
    returns (sources: seq<seq<Place>>, at: seq<Spot>)
    requires Acyclic(g) && n <= |g.nodes| && Below(g, Mapping(entries), n)
    ensures EntriesBelow(g, entries, n)
    ensures match Value(g, Mapping(entries), n, held)
            case Some(v) =>
              v.Obj? && Merges(g, entries, n, sources) && Holds(g, entries, n, sources, held, v.members, at)
            case None =>
              MergesNone(g, entries, n)
              || (Merges(g, entries, n, sources) && Lacks(g, entries, n, sources, held))
  {
    var node := Mapping(entries);
    at := [];
    assert forall i :: 0 <= i < |entries| ==> entries[i].value < node;
    sources := SourcesMerged(g, entries, n, node);
    var found := Sources(g, entries, n, node);
    if found.Some? {
      var pairs := OwnPairs(entries, n) + found.value;
      OwnUnder(g, entries, n, node);
      KeptUnder(g, [], pairs, n, node);
      at := FirstsKept(g, entries, n, held, sources, pairs, node);
    }
  }

  lemma FirstsKept(g: Graph, entries: seq<Entry>, n: nat, held: Option<seq<string>>, sources: seq<seq<Place>>,
                   pairs: seq<Pair>, whole: Node)
    returns (at: seq<Spot>)
    requires Acyclic(g) && n <= |g.nodes| && EntriesBelow(g, entries, n) && Merges(g, entries, n, sources)
    requires pairs == OwnPairs(entries, n) + AllPairs(sources, 0) && AllUnder(g, Kept([], pairs), n, whole)
    ensures match PairValues(g, Kept([], pairs), n, held, whole)
            case Some(members) => Holds(g, entries, n, sources, held, members, at)
            case None => Lacks(g, entries, n, sources, held)
  {
    AllSpotsFit(entries, sources, n);
    KeptLead(pairs, 0);
    assert pairs[0..] == pairs;
    at := At(AllSpots(entries, sources), Leaders(pairs, 0));
    FirstsAt(entries, sources, n, pairs, AllSpots(entries, sources), at);
    FirstsWorth(g, entries, n, held, sources, Kept([], pairs), at, whole);
  }

  ghost predicate HasName(pairs: seq<Pair>, name: string) {
    exists a :: 0 <= a < |pairs| && pairs[a].name == name
  }

  lemma NamedKept(entries: seq<Entry>, sources: seq<seq<Place>>, n: nat, pairs: seq<Pair>, ps: seq<Spot>,
                  p: Spot, name: string)
    requires AllFit(entries, sources, n, pairs, ps) && p in ps && Named(entries, sources, p, name)
    ensures HasName(At(pairs, Leaders(pairs, 0)), name)
  {
    var x :| 0 <= x < |ps| && ps[x] == p;
    assert Fits(entries, sources, n, pairs[x], ps[x]);
    assert pairs[x].name == name;
    var y := LeaderOf(pairs, x);
    var idx := Leaders(pairs, 0);
    LeadersLead(pairs, 0);
    var a :| 0 <= a < |idx| && idx[a] == y;
    assert At(pairs, idx)[a].name == name;
  }

  /** The spots of the pairs that lead are the first entries, and all of them. */
  lemma FirstsAt(entries: seq<Entry>, sources: seq<seq<Place>>, n: nat, pairs: seq<Pair>, ps: seq<Spot>, at: seq<Spot>)
    requires AllFit(entries, sources, n, pairs, ps) && Ascending(ps) && at == At(ps, Leaders(pairs, 0))
    requires forall p :: p in ps <==> Stands(entries, sources, p)
    ensures Ascending(at) && |at| == |Leaders(pairs, 0)|
    ensures var kept := At(pairs, Leaders(pairs, 0));
            forall a :: 0 <= a < |at| ==> First(entries, sources, at[a], kept[a].name)
                                          && Fits(entries, sources, n, kept[a], at[a])
    ensures forall p, name :: Named(entries, sources, p, name) ==>
              HasName(At(pairs, Leaders(pairs, 0)), name)
  {
    var idx := Leaders(pairs, 0);
    LeadersLead(pairs, 0);
    var kept := At(pairs, idx);
    forall a | 0 <= a < |at|
      ensures First(entries, sources, at[a], kept[a].name) && Fits(entries, sources, n, kept[a], at[a])
    {
      assert idx[a] in idx;
      LeadsIsFirst(entries, sources, n, pairs, ps, idx[a]);
    }
    forall p, name | Named(entries, sources, p, name) ensures HasName(kept, name) {
      NamedKept(entries, sources, n, pairs, ps, p, name);
    }
  }

  lemma FirstsWorth(g: Graph, entries: seq<Entry>, n: nat, held: Option<seq<string>>, sources: seq<seq<Place>>,
                    kept: seq<Pair>, at: seq<Spot>, whole: Node)
    requires Acyclic(g) && n <= |g.nodes| && EntriesBelow(g, entries, n) && Merges(g, entries, n, sources)
    requires AllUnder(g, kept, n, whole) && |at| == |kept| && Ascending(at)
    requires forall a :: 0 <= a < |at| ==> First(entries, sources, at[a], kept[a].name)
                                           && Fits(entries, sources, n, kept[a], at[a])
    requires forall p, name :: Named(entries, sources, p, name) ==> HasName(kept, name)
    ensures match PairValues(g, kept, n, held, whole)
            case Some(members) => Holds(g, entries, n, sources, held, members, at)
            case None => Lacks(g, entries, n, sources, held)
  {
    PairValuesAt(g, kept, n, held, whole);
    if PairValues(g, kept, n, held, whole).None? {
      var x :| 0 <= x < |kept| && Under(g, kept[x], n, whole) && Value(g, kept[x].value, kept[x].bound, held).None?;
      assert First(entries, sources, at[x], kept[x].name);
      assert ValueAt(g, entries, n, sources, at[x], held).None?;
    } else {
      var members := PairValues(g, kept, n, held, whole).value;
      forall p, name | Named(entries, sources, p, name) ensures Names(members, name) {
        var a :| 0 <= a < |kept| && kept[a].name == name;
        assert members[a].name == name;
      }
    }
  }

  /** A sequence denotes an array exactly where each item has a value, item for item. */
  lemma {:induction false} SequenceDenotes(g: Graph, items: seq<Node>, n: nat, held: Option<seq<string>>, whole: Node)
    requires Acyclic(g) && n <= |g.nodes|
    requires forall i :: 0 <= i < |items| ==> Below(g, items[i], n) && items[i] < whole
    ensures match ItemValues(g, items, n, held, whole)
            case Some(vs) =>
              |vs| == |items| && forall i :: 0 <= i < |items| ==> Value(g, items[i], n, held) == Some(vs[i])
            case None => exists i :: 0 <= i < |items| && Value(g, items[i], n, held).None?
    decreases |items|
  {
    if items != [] {
      var rest := items[1..];
      SequenceDenotes(g, rest, n, held, whole);
      if ItemValues(g, rest, n, held, whole).None? {
        var i :| 0 <= i < |rest| && Value(g, rest[i], n, held).None?;
        assert items[i + 1] == rest[i];
      }
    }
  }

  /** What the first tag of a chain to resolve resolves to. */
  ghost function Resolved(g: Graph, node: Node, n: nat): Option<Worth>
    requires Acyclic(g) && n <= |g.nodes| && Below(g, node, n)
    decreases n, node
  {
    match node
    case Anchor(inner) => Resolved(g, inner, n)
    case Tagged(resolved, inner) => if resolved.Some? then resolved else Resolved(g, inner, n)
    case Alias(_, target) => if target.None? then None else Resolved(g, g.nodes[target.value], target.value)
    case _ => None
  }

  /** Any node denotes what the first tag on it that resolves does, else what its chain ends on denotes. */
  lemma {:induction false} ChainDenotes(g: Graph, node: Node, n: nat)
    requires Acyclic(g) && n <= |g.nodes| && Below(g, node, n)
    ensures var tag, c := Resolved(g, node, n), ChainOf(g, node, n);
            Value(g, node, n, None) == if tag.Some? then Some(tag.value) else if c.None? then None
                                       else Value(g, c.value.end.node, c.value.end.bound, None)
    decreases n, node
  {
    match node
    case Anchor(inner) => ChainDenotes(g, inner, n);
    case Tagged(_, inner) => ChainDenotes(g, inner, n);
    case Alias(_, target) => if target.Some? { ChainDenotes(g, g.nodes[target.value], target.value); }
    case _ =>
  }

  /** A mapping of one "<<", on an alias of a mapping, holds what that one writes. */
  lemma MergedAlone(g: Graph, name: string, t: nat, n: nat, held: Option<seq<string>>)
    requires Acyclic(g) && t < n <= |g.nodes| && g.nodes[t].Mapping? && Labelled(g, name, t)
    ensures var node, pairs := Mapping([Merge(Alias(name, Some(t)))]), SourcePairs(g.nodes[t].entries, t);
            && Below(g, node, n) && AllUnder(g, Kept([], pairs), n, node)
            && var members := PairValues(g, Kept([], pairs), n, held, node);
               Value(g, node, n, held) == if members.None? then None else Some(Obj(members.value))
  {
    var alias := Alias(name, Some(t));
    var node, pairs := Mapping([Merge(alias)]), SourcePairs(g.nodes[t].entries, t);
    assert Below(g, alias, n) && EntryBelow(g, Merge(alias), n) && Below(g, node, n);
    assert node.entries[0].value == alias;
    AliasBringsIn(g, alias, t, n, node);
    KeptUnder(g, [], pairs, n, node);
  }

  lemma AliasBringsIn(g: Graph, alias: Node, t: nat, n: nat, node: Node)
    requires Acyclic(g) && t < n <= |g.nodes| && g.nodes[t].Mapping?
    requires alias.Alias? && alias.target == Some(t) && EntriesBelow(g, [Merge(alias)], n) && alias < node
    ensures var pairs := SourcePairs(g.nodes[t].entries, t);
            && Sources(g, [Merge(alias)], n, node) == Some(pairs) && AllUnder(g, pairs, n, node)
            && OwnPairs([Merge(alias)], n) + pairs == pairs
  {
    var pairs := SourcePairs(g.nodes[t].entries, t);
    var none: seq<Entry> := [];
    assert [Merge(alias)][1..] == none && EntryBelow(g, [Merge(alias)][0], n);
    assert Sources(g, none, n, node) == Some([]) && OwnPairs(none, n) == [];
    assert MergePairs(g, alias, n, node) == Some(pairs);
    assert pairs + [] == pairs;
  }

  /** "a: &a {k: 1, l: 2}", "b: &c {<<: *a}" and "d: {<<: *c}": *c is {"k": 1, "l": 2}, and d holds what c
      does as c writes it, its "<<" a key like any other. */
  lemma MergedThroughAlias()
    ensures var one, two := Scalar(Number("1")), Scalar(Number("2"));
            var a, c := Mapping([Own("k", one), Own("l", two)]), Mapping([Merge(Alias("a", Some(0)))]);
            var g, d := Graph([a, c], None), Mapping([Merge(Alias("c", Some(1)))]);
            var both := Obj([Member("k", Number("1")), Member("l", Number("2"))]);
            && Acyclic(g) && Below(g, d, 2) && Below(g, Alias("c", Some(1)), 2)
            && Value(g, Alias("c", Some(1)), 2, None) == Some(both)
            && Value(g, d, 2, None) == Some(Obj([Member("<<", both)]))
  {
    var one, two := Scalar(Number("1")), Scalar(Number("2"));
    var k, l, toA := Own("k", one), Own("l", two), Alias("a", Some(0));
    var a, c := Mapping([k, l]), Mapping([Merge(toA)]);
    var g, d := Graph([a, c], None), Mapping([Merge(Alias("c", Some(1)))]);
    ExampleBelow(g, k, l, toA);
    var both := Obj([Member("k", Number("1")), Member("l", Number("2"))]);
    assert Value(g, c, 1, None) == Some(both) by {
      MergedAlone(g, "a", 0, 1, None);
      TwoPairs(g, k, l, 1, c);
    }
    assert Below(g, Alias("c", Some(1)), 2) && Value(g, Alias("c", Some(1)), 2, None) == Some(both);
    ExampleOwn(g, k, l);
    ExampleOuter(g, toA, d, both);
  }

  lemma ExampleOuter(g: Graph, toA: Node, d: Node, both: Json)
    requires Acyclic(g) && |g.nodes| == 2 && g.labels.None? && g.nodes[1] == Mapping([Merge(toA)]) && Below(g, toA, 1)
    requires Value(g, Mapping([Merge(toA)]), 1, None) == Some(both) && Value(g, toA, 1, None) == Some(both)
    requires d == Mapping([Merge(Alias("c", Some(1)))])
    ensures Below(g, d, 2) && Value(g, d, 2, None) == Some(Obj([Member("<<", both)]))
  {
    MergedAlone(g, "c", 1, 2, None);
    OnePair(g, toA, d);
  }

  lemma ExampleBelow(g: Graph, k: Entry, l: Entry, toA: Node)
    requires k == Own("k", Scalar(Number("1"))) && l == Own("l", Scalar(Number("2"))) && toA == Alias("a", Some(0))
    requires g == Graph([Mapping([k, l]), Mapping([Merge(toA)])], None)
    ensures Acyclic(g) && Below(g, toA, 1)
  {
    assert EntryBelow(g, k, 0) && EntryBelow(g, l, 0) && Below(g, Mapping([k, l]), 0);
    assert Below(g, toA, 1) && EntryBelow(g, Merge(toA), 1) && Below(g, Mapping([Merge(toA)]), 1);
  }

  lemma OnePair(g: Graph, toA: Node, d: Node)
    requires Acyclic(g) && 2 <= |g.nodes| && Below(g, toA, 1)
    ensures var pairs, v := Kept([], SourcePairs([Merge(toA)], 1)), Value(g, toA, 1, None);
            AllUnder(g, pairs, 2, d)
            && PairValues(g, pairs, 2, None, d) == if v.None? then None else Some([Member("<<", v.value)])
  {
    var pair := Pair("<<", toA, 1);
    var none: seq<Entry> := [];
    assert [Merge(toA)][1..] == none && SourcePairs([Merge(toA)], 1) == [pair];
    PairAlone([], pair);
    PairFirst(g, pair, [], 2, None, d);
    assert [pair] + [] == [pair];
    var v := Value(g, toA, 1, None);
    if v.Some? { assert [Member("<<", v.value)] + [] == [Member("<<", v.value)]; }
  }

  lemma PairAlone(held: seq<string>, pair: Pair)
    requires pair.name !in held
    ensures Kept(held, [pair]) == [pair]
  {
    assert [pair][1..] == [];
  }

  /** One pair's value in front of the others'. */
  lemma PairFirst(g: Graph, pair: Pair, rest: seq<Pair>, n: nat, held: Option<seq<string>>, whole: Node)
    requires Acyclic(g) && n <= |g.nodes| && Under(g, pair, n, whole) && AllUnder(g, rest, n, whole)
    ensures AllUnder(g, [pair] + rest, n, whole)
    ensures var v, ms := Value(g, pair.value, pair.bound, held), PairValues(g, rest, n, held, whole);
            PairValues(g, [pair] + rest, n, held, whole)
            == if v.None? || ms.None? then None else Some([Member(pair.name, v.value)] + ms.value)
  {
    assert ([pair] + rest)[1..] == rest;
  }

  lemma PairsOfTwo(k: Entry, l: Entry, x: Pair, y: Pair)
    requires k.Own? && l.Own? && x == Pair(k.name, k.value, 0) && y == Pair(l.name, l.value, 0)
    ensures SourcePairs([k, l], 0) == [x, y] && OwnPairs([k, l], 0) == [x, y]
  {
    var none: seq<Entry> := [];
    assert [k, l][1..] == [l] && [l][1..] == none;
    assert SourcePairs(none, 0) == [] && OwnPairs(none, 0) == [];
    assert SourcePairs([l], 0) == [y] && OwnPairs([l], 0) == [y];
  }

  /** The pairs of "k: 1" and "l: 2". */
  lemma TwoPairs(g: Graph, k: Entry, l: Entry, n: nat, whole: Node)
    requires k == Own("k", Scalar(Number("1"))) && l == Own("l", Scalar(Number("2"))) && Acyclic(g) && n <= |g.nodes|
    requires Under(g, Pair("k", k.value, 0), n, whole) && Under(g, Pair("l", l.value, 0), n, whole)
    ensures var pairs := Kept([], SourcePairs([k, l], 0));
            AllUnder(g, pairs, n, whole)
            && PairValues(g, pairs, n, None, whole) == Some([Member("k", Number("1")), Member("l", Number("2"))])
  {
    var x, y := Pair("k", k.value, 0), Pair("l", l.value, 0);
    PairsOfTwo(k, l, x, y);
    assert "k"[0] != "l"[0];
    PairAlone(["k"], y);
    assert [x, y][1..] == [y] && [] + ["k"] == ["k"] && Kept([], [x, y]) == [x, y];
    PairFirst(g, y, [], n, None, whole);
    PairFirst(g, x, [y], n, None, whole);
    assert [y] + [] == [y] && [x] + [y] == [x, y];
    var kv, lv := Member("k", Number("1")), Member("l", Number("2"));
    assert [lv] + [] == [lv] && [kv] + [lv] == [kv, lv];
  }

  lemma ExampleOwn(g: Graph, k: Entry, l: Entry)
    requires k == Own("k", Scalar(Number("1"))) && l == Own("l", Scalar(Number("2"))) && Acyclic(g)
    ensures Below(g, Mapping([k, l]), 0)
    ensures Value(g, Mapping([k, l]), 0, None) == Some(Obj([Member("k", Number("1")), Member("l", Number("2"))]))
  {
    var a, x, y := Mapping([k, l]), Pair("k", k.value, 0), Pair("l", l.value, 0);
    assert EntryBelow(g, k, 0) && EntryBelow(g, l, 0) && Below(g, a, 0);
    assert a.entries[0] == k && a.entries[1] == l;
    TwoPairs(g, k, l, 0, a);
    var none: seq<Entry> := [];
    assert [k, l][1..] == [l] && [l][1..] == none;
    assert Sources(g, none, 0, a) == Some([]) && Sources(g, [l], 0, a) == Some([]);
    assert Sources(g, [k, l], 0, a) == Some([]);
    PairsOfTwo(k, l, x, y);
    var found := Sources(g, a.entries, 0, a);
    assert found.Some? && found.value == [];
    assert OwnPairs(a.entries, 0) + found.value == SourcePairs([k, l], 0);
  }
}
