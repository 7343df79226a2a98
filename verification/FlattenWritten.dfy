/** What the encoder writes of a struct that embeds others (codec/encode.go): each name the type reaches,
    once, and the field it reaches it by. */
module FlattenWritten {
  import opened Flatten

  /** No type embeds itself, however far down: each embeds only types numbered before it. */
  ghost predicate Acyclic(g: Graph) {
    forall t :: 0 <= t < |g| ==> EmbedsEarlier(g, t)
  }

  ghost predicate EmbedsEarlier(g: Graph, t: nat)
    requires t < |g|
  {
    forall i :: 0 <= i < |g[t]| && g[t][i].Embedded? && g[t][i].target.Some? ==> g[t][i].target.value < t
  }

  /** A candidate as it is reached one type further out. */
  function Prefixed(i: nat, c: Candidate): Candidate {
    Candidate([i] + c.at, c.namedBy)
  }

  function AllPrefixed(i: nat, cs: seq<Candidate>): (r: seq<Candidate>)
    ensures |r| == |cs| && forall x :: 0 <= x < |cs| ==> r[x] == Prefixed(i, cs[x])
  {
    seq(|cs|, x requires 0 <= x < |cs| => Prefixed(i, cs[x]))
  }

  predicate ReadsThrough(g: Graph, t: nat, i: nat)
    requires t < |g| && i < |g[t]|
  {
    g[t][i].Embedded? && g[t][i].target.Some?
  }

  /** What a name reaches from a type on its own. */
  ghost function Cands(g: Graph, t: nat, name: string): seq<Candidate>
    requires Acyclic(g) && t < |g|
    decreases t, |g[t]| + 1
  {
    OwnOf(g[t], name, [], |g[t]|) + UnderOf(g, t, name, |g[t]|)
  }

  ghost function UnderOf(g: Graph, t: nat, name: string, i: nat): seq<Candidate>
    requires Acyclic(g) && t < |g| && i <= |g[t]|
    decreases t, i
  {
    if i == 0 then [] else UnderOf(g, t, name, i - 1) + Part(g, t, name, i - 1)
  }

  ghost function Part(g: Graph, t: nat, name: string, i: nat): seq<Candidate>
    requires Acyclic(g) && t < |g| && i < |g[t]|
    decreases t, i
  {
    assert EmbedsEarlier(g, t);
    if ReadsThrough(g, t, i) then AllPrefixed(i, Cands(g, g[t][i].target.value, name)) else []
  }

  // ---------------------------------------------------------------- the walk, where nothing is on its path

  function PrefixedBy(at: seq<nat>, cs: seq<Candidate>): seq<Candidate> {
    if cs == [] then []
    else
      var c := cs[|cs| - 1];
      PrefixedBy(at, cs[..|cs| - 1]) + [Candidate(at + c.at, c.namedBy)]
  }

  lemma {:induction false} PrefixedConcat(at: seq<nat>, a: seq<Candidate>, b: seq<Candidate>)
    ensures PrefixedBy(at, a + b) == PrefixedBy(at, a) + PrefixedBy(at, b)
    decreases |b|
  {
    if b == [] {
      assert a + b == a;
    } else {
      var n := |b| - 1;
      assert (a + b)[..|a| + n] == a + b[..n];
      PrefixedConcat(at, a, b[..n]);
    }
  }

  lemma {:induction false} PrefixedTwice(at: seq<nat>, i: nat, cs: seq<Candidate>)
    ensures PrefixedBy(at + [i], cs) == PrefixedBy(at, AllPrefixed(i, cs))
    decreases |cs|
  {
    if cs != [] {
      var n := |cs| - 1;
      assert AllPrefixed(i, cs)[..n] == AllPrefixed(i, cs[..n]);
      PrefixedTwice(at, i, cs[..n]);
      Assoc(at, [i], cs[n].at);
    }
  }

  lemma PrefixedOne(at: seq<nat>, c: Candidate)
    ensures PrefixedBy(at, [c]) == [Candidate(at + c.at, c.namedBy)]
  {
    var none: seq<Candidate> := [];
    assert [c][..0] == none && PrefixedBy(at, none) == none;
  }

  lemma {:induction false} OwnPrefixed(ms: seq<Member>, name: string, at: seq<nat>, none: seq<nat>, i: nat)
    requires i <= |ms| && none == []
    ensures OwnOf(ms, name, at, i) == PrefixedBy(at, OwnOf(ms, name, none, i))
  {
    if i > 0 {
      OwnPrefixed(ms, name, at, none, i - 1);
      if ms[i - 1].Named? && ms[i - 1].name == name {
        var c := Candidate(none + [i - 1], ms[i - 1].namedBy);
        assert c.at == [i - 1];
        PrefixedOne(at, c);
        PrefixedConcat(at, OwnOf(ms, name, none, i - 1), [c]);
      } else {
        assert OwnOf(ms, name, none, i) == OwnOf(ms, name, none, i - 1);
      }
    }
  }

  /** Where no type embeds itself the walk never turns back, and the fields it finds are those the type
      reaches on its own. */
  lemma {:induction false} ReachIsCands(g: Graph, t: nat, name: string, at: seq<nat>, onPath: set<nat>)
    requires Acyclic(g) && t < |g| && forall p: nat :: p in onPath ==> p >= t
    ensures Reach(g, t, name, at, onPath) == PrefixedBy(at, Cands(g, t, name))
    decreases t, |g[t]| + 1
  {
    OwnPrefixed(g[t], name, at, [], |g[t]|);
    UnderIsCands(g, t, name, at, onPath, |g[t]|);
    PrefixedConcat(at, OwnOf(g[t], name, [], |g[t]|), UnderOf(g, t, name, |g[t]|));
  }

  lemma {:induction false} UnderIsCands(g: Graph, t: nat, name: string, at: seq<nat>, onPath: set<nat>, i: nat)
    requires Acyclic(g) && t < |g| && i <= |g[t]| && forall p: nat :: p in onPath ==> p >= t
    ensures ReachUnder(g, t, name, at, onPath, i) == PrefixedBy(at, UnderOf(g, t, name, i))
    decreases t, i
  {
    if i == 0 {
      UnderNone(g, t, name, at, onPath);
    } else {
      UnderIsCands(g, t, name, at, onPath, i - 1);
      UnderNext(g, t, name, at, onPath, i - 1, i, PrefixedBy(at, UnderOf(g, t, name, i - 1)));
    }
  }

  lemma {:induction false} UnderNext(g: Graph, t: nat, name: string, at: seq<nat>, onPath: set<nat>, i: nat, j: nat,
                                     before: seq<Candidate>)
    requires Acyclic(g) && t < |g| && j == i + 1 <= |g[t]| && forall p: nat :: p in onPath ==> p >= t
    requires before == ReachUnder(g, t, name, at, onPath, i) == PrefixedBy(at, UnderOf(g, t, name, i))
    ensures ReachUnder(g, t, name, at, onPath, j) == PrefixedBy(at, UnderOf(g, t, name, j))
    decreases t, i, 2
  {
    UnderStep(g, t, name, at, onPath, i, j);
  }

  lemma UnderNone(g: Graph, t: nat, name: string, at: seq<nat>, onPath: set<nat>)
    requires Acyclic(g) && t < |g|
    ensures ReachUnder(g, t, name, at, onPath, 0) == PrefixedBy(at, UnderOf(g, t, name, 0)) == []
  {
    var none: seq<Candidate> := UnderOf(g, t, name, 0);
    assert none == [] && PrefixedBy(at, none) == [];
  }

  lemma {:induction false} UnderStep(g: Graph, t: nat, name: string, at: seq<nat>, onPath: set<nat>, i: nat, j: nat)
    requires Acyclic(g) && t < |g| && j == i + 1 <= |g[t]| && forall p: nat :: p in onPath ==> p >= t
    ensures ReachUnder(g, t, name, at, onPath, j)
            == ReachUnder(g, t, name, at, onPath, i) + PrefixedBy(at, Part(g, t, name, i))
    ensures PrefixedBy(at, UnderOf(g, t, name, j))
            == PrefixedBy(at, UnderOf(g, t, name, i)) + PrefixedBy(at, Part(g, t, name, i))
    decreases t, i, 1
  {
    PartIsCands(g, t, name, at, onPath, i);
    PrefixedConcat(at, UnderOf(g, t, name, i), Part(g, t, name, i));
  }

  lemma {:induction false} PartIsCands(g: Graph, t: nat, name: string, at: seq<nat>, onPath: set<nat>, i: nat)
    requires Acyclic(g) && t < |g| && i < |g[t]| && forall p: nat :: p in onPath ==> p >= t
    ensures ReachMember(g, t, name, at, onPath, i) == PrefixedBy(at, Part(g, t, name, i))
    decreases t, i, 0
  {
    assert EmbedsEarlier(g, t);
    if ReadsThrough(g, t, i) {
      var u := g[t][i].target.value;
      ReachIsCands(g, u, name, at + [i], onPath + {u});
      PrefixedTwice(at, i, Cands(g, u, name));
    }
  }

  // ---------------------------------------------------------------- where a candidate stands

  ghost predicate Heads(cs: seq<Candidate>, low: nat, high: nat) {
    forall k :: 0 <= k < |cs| ==> cs[k].at != [] && low <= cs[k].at[0] < high
  }

  lemma {:induction false} OwnShape(ms: seq<Member>, name: string, i: nat)
    requires i <= |ms|
    ensures forall k :: 0 <= k < |OwnOf(ms, name, [], i)| ==> OwnShaped(ms, name, OwnOf(ms, name, [], i)[k], i)
  {
    if i > 0 {
      OwnShape(ms, name, i - 1);
      assert [] + [i - 1] == [i - 1];
      forall k | 0 <= k < |OwnOf(ms, name, [], i - 1)| ensures OwnShaped(ms, name, OwnOf(ms, name, [], i)[k], i) {
        assert OwnShaped(ms, name, OwnOf(ms, name, [], i - 1)[k], i - 1);
      }
    }
  }

  ghost predicate OwnShaped(ms: seq<Member>, name: string, c: Candidate, i: nat) {
    && |c.at| == 1 && c.at[0] < i <= |ms| && ms[c.at[0]].Named?
    && ms[c.at[0]].name == name && c.namedBy == ms[c.at[0]].namedBy
  }

  lemma {:induction false} OwnFound(ms: seq<Member>, name: string, i: nat, h: nat) returns (k: nat)
    requires h < i <= |ms| && ms[h].Named? && ms[h].name == name
    ensures k < |OwnOf(ms, name, [], i)| && OwnOf(ms, name, [], i)[k] == Candidate([h], ms[h].namedBy)
  {
    assert [] + [i - 1] == [i - 1];
    if h == i - 1 { k := |OwnOf(ms, name, [], i - 1)|; } else { k := OwnFound(ms, name, i - 1, h); }
  }

  lemma {:induction false} UnderHeads(g: Graph, t: nat, name: string, i: nat)
    requires Acyclic(g) && t < |g| && i <= |g[t]|
    ensures Heads(UnderOf(g, t, name, i), 0, i)
    ensures forall k :: 0 <= k < |UnderOf(g, t, name, i)| ==> ReadsThrough(g, t, UnderOf(g, t, name, i)[k].at[0])
    decreases i
  {
    if i > 0 { UnderHeads(g, t, name, i - 1); }
  }

  /** The candidates a type reaches through one member, among those of the first n. */
  lemma {:induction false} Block(g: Graph, t: nat, name: string, i: nat, n: nat) returns (o: nat)
    requires Acyclic(g) && t < |g| && i < n <= |g[t]|
    ensures var cs, b := UnderOf(g, t, name, n), Part(g, t, name, i);
            && o + |b| <= |cs| && cs[o..o + |b|] == b
            && (forall k :: 0 <= k < |cs| && !(o <= k < o + |b|) ==> cs[k].at != [] && cs[k].at[0] != i)
    decreases n
  {
    if i == n - 1 {
      o := |UnderOf(g, t, name, i)|;
      UnderHeads(g, t, name, i);
    } else {
      o := Block(g, t, name, i, n - 1);
      var last := Part(g, t, name, n - 1);
      assert forall k :: 0 <= k < |last| ==> last[k].at[0] == n - 1;
    }
  }

  /** Of everything the type reaches, the candidates through member i stand in one stretch. */
  lemma Through(g: Graph, t: nat, name: string, i: nat) returns (o: nat)
    requires Acyclic(g) && t < |g| && i < |g[t]| && ReadsThrough(g, t, i)
    ensures var cs, b := Cands(g, t, name), Part(g, t, name, i);
            && o + |b| <= |cs| && cs[o..o + |b|] == b
            && (forall k :: 0 <= k < |cs| && !(o <= k < o + |b|) ==> cs[k].at != [] && cs[k].at[0] != i)
  {
    var p := Block(g, t, name, i, |g[t]|);
    var own, under, b := OwnOf(g[t], name, [], |g[t]|), UnderOf(g, t, name, |g[t]|), Part(g, t, name, i);
    o := |own| + p;
    OwnShape(g[t], name, |g[t]|);
    assert Cands(g, t, name)[o..o + |b|] == under[p..p + |b|];
    forall k | 0 <= k < |Cands(g, t, name)| && !(o <= k < o + |b|)
      ensures Cands(g, t, name)[k].at != [] && Cands(g, t, name)[k].at[0] != i
    {
      if k < |own| {
        assert OwnShaped(g[t], name, own[k], |g[t]|);
      } else {
        assert Cands(g, t, name)[k] == under[k - |own|];
      }
    }
  }

  // ---------------------------------------------------------------- promoted names

  /** Where the outer type is not refused for a name, no type it embeds is. */
  lemma NotRefusedUnder(g: Graph, json: bool, t: nat, name: string, i: nat)
    requires Acyclic(g) && t < |g| && i < |g[t]| && ReadsThrough(g, t, i) && !Refuses(json, Cands(g, t, name))
    ensures EmbedsEarlier(g, t) && !Refuses(json, Cands(g, g[t][i].target.value, name))
  {
    var o := Through(g, t, name, i);
    assert EmbedsEarlier(g, t);
    var cs, b := Cands(g, t, name), Cands(g, g[t][i].target.value, name);
    forall x | 0 <= x < |b| ensures b[x].namedBy == cs[o + x].namedBy { InBlock(cs, Part(g, t, name, i), o, x); }
  }

  lemma InBlock(cs: seq<Candidate>, b: seq<Candidate>, o: nat, x: nat)
    requires o + |b| <= |cs| && cs[o..o + |b|] == b && x < |b|
    ensures cs[o + x] == b[x]
  {
    assert cs[o..o + |b|][x] == cs[o + x];
  }

  /** A name the outer type reaches through a member is the one the embedded type reaches itself. */
  lemma PromotedAgrees(g: Graph, t: nat, name: string, i: nat, k: nat) returns (x: nat)
    requires Acyclic(g) && t < |g| && i < |g[t]| && ReadsThrough(g, t, i)
    requires BeatsAll(Cands(g, t, name), k) && Cands(g, t, name)[k].at != [] && Cands(g, t, name)[k].at[0] == i
    ensures EmbedsEarlier(g, t)
    ensures var b := Cands(g, g[t][i].target.value, name);
            BeatsAll(b, x) && Cands(g, t, name)[k] == Prefixed(i, b[x])
  {
    assert EmbedsEarlier(g, t);
    var o := Through(g, t, name, i);
    var cs, b := Cands(g, t, name), Cands(g, g[t][i].target.value, name);
    x := k - o;
    InBlock(cs, Part(g, t, name, i), o, x);
    forall y | 0 <= y < |b| && y != x ensures Beats(b[x], b[y]) {
      InBlock(cs, Part(g, t, name, i), o, y);
      assert Beats(cs[k], cs[o + y]);
    }
  }

  // ---------------------------------------------------------------- the encoder

  /** What was read of a type: the field each name reaches, and the names that reach none. */
  type Table = (map<string, Candidate>, set<string>)

  ghost predicate Tables(g: Graph, json: bool, tables: seq<Table>)
    requires Acyclic(g)
  {
    |tables| == |g| &&
    forall t, name :: 0 <= t < |g| && Settled(g, json, t) ==> TableFor(g, json, tables, t, name)
  }

  /** The walk refuses the type for no name. */
  ghost predicate Settled(g: Graph, json: bool, t: nat)
    requires Acyclic(g) && t < |g|
  {
    forall name :: !Refuses(json, Cands(g, t, name))
  }

  /** Then it refuses no type that one embeds. */
  lemma SettledUnder(g: Graph, json: bool, t: nat, i: nat)
    requires Acyclic(g) && t < |g| && i < |g[t]| && ReadsThrough(g, t, i) && Settled(g, json, t)
    ensures EmbedsEarlier(g, t) && Settled(g, json, g[t][i].target.value)
  {
    assert EmbedsEarlier(g, t);
    forall name ensures !Refuses(json, Cands(g, g[t][i].target.value, name)) {
      NotRefusedUnder(g, json, t, name, i);
    }
  }

  ghost predicate TableFor(g: Graph, json: bool, tables: seq<Table>, t: nat, name: string)
    requires Acyclic(g) && |tables| == |g| && t < |g|
  {
    Decided(tables[t], json, name, Cands(g, t, name))
  }

  /** writesPromoted. */
  predicate WritesPromoted(r: Table, name: string, index: nat) {
    if name in r.0 then |r.0[name].at| > 0 && r.0[name].at[0] == index else name !in r.1
  }

  /** A mapping entry: its key, and the field its value is of. */
  datatype Entry = Entry(name: string, at: seq<nat>)

  /** The entries a struct is encoded as, none omitted, of its first i fields. */
  ghost function WrittenUpTo(g: Graph, tables: seq<Table>, t: nat, i: nat): seq<Entry>
    requires Acyclic(g) && |tables| == |g| && t < |g| && i <= |g[t]|
    decreases t, i
  {
    if i == 0 then [] else WrittenUpTo(g, tables, t, i - 1) + WrittenOf(g, tables, t, i - 1)
  }

  ghost function WrittenOf(g: Graph, tables: seq<Table>, t: nat, i: nat): seq<Entry>
    requires Acyclic(g) && |tables| == |g| && t < |g| && i < |g[t]|
    decreases t, i
  {
    assert EmbedsEarlier(g, t);
    match g[t][i]
    case Named(name, _) => [Entry(name, [i])]
    case Embedded(Some(u)) => Promoted(tables[t], i, WrittenUpTo(g, tables, u, |g[u]|))
    case _ => []
  }

  /** The entries of an embedded struct that belong in the mapping around it. */
  function Promoted(r: Table, i: nat, es: seq<Entry>): seq<Entry> {
    if es == [] then []
    else
      var e := es[|es| - 1];
      Promoted(r, i, es[..|es| - 1]) + if WritesPromoted(r, e.name, i) then [Entry(e.name, [i] + e.at)] else []
  }

  lemma {:induction false} PromotedFrom(r: Table, i: nat, es: seq<Entry>, j: nat) returns (x: nat)
    requires j < |Promoted(r, i, es)|
    ensures x < |es| && WritesPromoted(r, es[x].name, i) && Promoted(r, i, es)[j] == Entry(es[x].name, [i] + es[x].at)
    decreases |es|
  {
    var m := |es| - 1;
    if j < |Promoted(r, i, es[..m])| { x := PromotedFrom(r, i, es[..m], j); } else { x := m; }
  }

  lemma {:induction false} PromotedTo(r: Table, i: nat, es: seq<Entry>, x: nat) returns (j: nat)
    requires x < |es| && WritesPromoted(r, es[x].name, i)
    ensures j < |Promoted(r, i, es)| && Promoted(r, i, es)[j] == Entry(es[x].name, [i] + es[x].at)
    decreases |es|
  {
    var m := |es| - 1;
    if x < m { j := PromotedTo(r, i, es[..m], x); } else { j := |Promoted(r, i, es[..m])|; }
  }

  ghost predicate NamesApart(es: seq<Entry>) {
    forall j, k :: 0 <= j < k < |es| ==> es[j].name != es[k].name
  }

  lemma {:induction false} PromotedApart(r: Table, i: nat, es: seq<Entry>)
    requires NamesApart(es)
    ensures NamesApart(Promoted(r, i, es))
    decreases |es|
  {
    if es != [] {
      var m := |es| - 1;
      PromotedApart(r, i, es[..m]);
      forall j | 0 <= j < |Promoted(r, i, es[..m])| ensures Promoted(r, i, es[..m])[j].name != es[m].name {
        var x := PromotedFrom(r, i, es[..m], j);
      }
    }
  }

  /** The entry is the field its name reaches, among the first i. */
  ghost predicate Reaches(r: Table, e: Entry, i: nat) {
    e.name in r.0 && r.0[e.name].at == e.at && e.at != [] && e.at[0] < i
  }

  ghost predicate Names(es: seq<Entry>, name: string) {
    exists j :: 0 <= j < |es| && es[j].name == name
  }

  /** Each name the type reaches by its first i fields is written once, and by the field it reaches. */
  ghost predicate WrittenOnce(r: Table, es: seq<Entry>, i: nat) {
    && (forall j :: 0 <= j < |es| ==> Reaches(r, es[j], i))
    && (forall name :: name in r.0 && r.0[name].at != [] && r.0[name].at[0] < i ==> Names(es, name))
    && NamesApart(es)
  }

  /** More entries, all of fields through member i and each such name once. */
  lemma WrittenMore(r: Table, es: seq<Entry>, more: seq<Entry>, i: nat)
    requires WrittenOnce(r, es, i) && NamesApart(more)
    requires forall j :: 0 <= j < |more| ==> Reaches(r, more[j], i + 1) && more[j].at[0] == i
    requires forall name :: name in r.0 && r.0[name].at != [] && r.0[name].at[0] == i ==> Names(more, name)
    ensures WrittenOnce(r, es + more, i + 1)
  {
    var all := es + more;
    forall j | 0 <= j < |all| ensures Reaches(r, all[j], i + 1) {
      if j < |es| { assert Reaches(r, es[j], i); } else { assert all[j] == more[j - |es|]; }
    }
    forall name | name in r.0 && r.0[name].at != [] && r.0[name].at[0] < i + 1 ensures Names(all, name) {
      if r.0[name].at[0] < i {
        var j :| 0 <= j < |es| && es[j].name == name;
        assert all[j].name == name;
      } else {
        var j :| 0 <= j < |more| && more[j].name == name;
        assert all[|es| + j].name == name;
      }
    }
    forall j, k | 0 <= j < k < |all| ensures all[j].name != all[k].name {
      if j < |es| <= k { assert Reaches(r, es[j], i) && Reaches(r, more[k - |es|], i + 1); }
    }
  }

  /** What a name reaches is some candidate that beats the others. */
  lemma Winner(g: Graph, json: bool, tables: seq<Table>, t: nat, name: string) returns (k: nat)
    requires Acyclic(g) && Tables(g, json, tables) && t < |g| && Settled(g, json, t) && name in tables[t].0
    ensures BeatsAll(Cands(g, t, name), k) && Cands(g, t, name)[k] == tables[t].0[name]
  {
    assert TableFor(g, json, tables, t, name);
    k :| BeatsAll(Cands(g, t, name), k) && Cands(g, t, name)[k] == tables[t].0[name];
  }

  lemma TableHas(g: Graph, json: bool, tables: seq<Table>, t: nat, name: string, k: nat)
    requires Acyclic(g) && Tables(g, json, tables) && t < |g| && Settled(g, json, t) && BeatsAll(Cands(g, t, name), k)
    ensures name in tables[t].0 && tables[t].0[name] == Cands(g, t, name)[k]
  {
    assert TableFor(g, json, tables, t, name);
    var j := Winner(g, json, tables, t, name);
    OneBeatsAll(Cands(g, t, name), j, k);
  }

  /** A type's own field is what its name reaches, whatever it embeds. */
  lemma OwnReached(g: Graph, json: bool, tables: seq<Table>, t: nat, i: nat)
    requires Acyclic(g) && Tables(g, json, tables) && t < |g| && Settled(g, json, t) && i < |g[t]| && g[t][i].Named?
    ensures var name := g[t][i].name; name in tables[t].0 && tables[t].0[name].at == [i]
  {
    var name, cs := g[t][i].name, Cands(g, t, g[t][i].name);
    var own := OwnOf(g[t], name, [], |g[t]|);
    var k := OwnFound(g[t], name, |g[t]|, i);
    OwnShape(g[t], name, |g[t]|);
    OwnOnce(g, t, name, i, |g[t]|);
    UnderDeep(g, t, name, |g[t]|);
    forall j | 0 <= j < |cs| && j != k ensures Beats(cs[k], cs[j]) {
      if j >= |own| { assert cs[j] == UnderOf(g, t, name, |g[t]|)[j - |own|]; }
    }
    TableHas(g, json, tables, t, name, k);
  }

  lemma {:induction false} OwnOnce(g: Graph, t: nat, name: string, h: nat, i: nat)
    requires t < |g| && i <= |g[t]| && h < |g[t]| && g[t][h].Named? && g[t][h].name == name
    ensures |OwnOf(g[t], name, [], i)| == if h < i then 1 else 0
    decreases i
  {
    if i > 0 {
      OwnOnce(g, t, name, h, i - 1);
      assert WellTypedStruct(|g|, g[t]);
    }
  }

  lemma {:induction false} UnderDeep(g: Graph, t: nat, name: string, i: nat)
    requires Acyclic(g) && t < |g| && i <= |g[t]|
    ensures forall k :: 0 <= k < |UnderOf(g, t, name, i)| ==> |UnderOf(g, t, name, i)[k].at| >= 2
    decreases i
  {
    if i > 0 {
      UnderDeep(g, t, name, i - 1);
      if ReadsThrough(g, t, i - 1) {
        assert EmbedsEarlier(g, t);
        var b, last := Cands(g, g[t][i - 1].target.value, name), Part(g, t, name, i - 1);
        NoneAtNothing(g, g[t][i - 1].target.value, name);
        forall k | 0 <= k < |last| ensures |last[k].at| >= 2 {
          assert last[k] == Prefixed(i - 1, b[k]) && b[k].at != [];
        }
      }
    }
  }

  lemma NoneAtNothing(g: Graph, t: nat, name: string)
    requires Acyclic(g) && t < |g|
    ensures forall k :: 0 <= k < |Cands(g, t, name)| ==> Cands(g, t, name)[k].at != []
  {
    var own, under := OwnOf(g[t], name, [], |g[t]|), UnderOf(g, t, name, |g[t]|);
    OwnShape(g[t], name, |g[t]|);
    UnderHeads(g, t, name, |g[t]|);
    forall k | 0 <= k < |Cands(g, t, name)| ensures Cands(g, t, name)[k].at != [] {
      if k < |own| {
        assert OwnShaped(g[t], name, own[k], |g[t]|);
      } else {
        assert Cands(g, t, name)[k] == under[k - |own|];
      }
    }
  }

  /** A candidate whose path opens on a member is that member, or is reached through it. */
  lemma HeadIs(g: Graph, t: nat, name: string, k: nat)
    requires Acyclic(g) && t < |g| && k < |Cands(g, t, name)|
    ensures var at := Cands(g, t, name)[k].at;
            && at != [] && at[0] < |g[t]|
            && ((g[t][at[0]].Named? && g[t][at[0]].name == name) || ReadsThrough(g, t, at[0]))
  {
    var own, under := OwnOf(g[t], name, [], |g[t]|), UnderOf(g, t, name, |g[t]|);
    OwnShape(g[t], name, |g[t]|);
    UnderHeads(g, t, name, |g[t]|);
    if k < |own| {
      assert OwnShaped(g[t], name, own[k], |g[t]|);
    } else {
      assert Cands(g, t, name)[k] == under[k - |own|];
    }
  }

  lemma OwnWritten(g: Graph, json: bool, tables: seq<Table>, t: nat, i: nat)
    requires Acyclic(g) && Tables(g, json, tables) && t < |g| && Settled(g, json, t)
    requires i < |g[t]| && !ReadsThrough(g, t, i)
    requires WrittenOnce(tables[t], WrittenUpTo(g, tables, t, i), i)
    ensures WrittenOnce(tables[t], WrittenUpTo(g, tables, t, i + 1), i + 1)
  {
    var r, more := tables[t], WrittenOf(g, tables, t, i);
    if g[t][i].Named? {
      OwnReached(g, json, tables, t, i);
      assert more == [Entry(g[t][i].name, [i])];
    }
    forall name | name in r.0 && r.0[name].at != [] && r.0[name].at[0] == i ensures Names(more, name) {
      var k := Winner(g, json, tables, t, name);
      HeadIs(g, t, name, k);
      assert more[0].name == name;
    }
    WrittenMore(r, WrittenUpTo(g, tables, t, i), more, i);
  }

  /** A name the embedded type writes and the outer one takes is the one the outer type reaches. */
  lemma TakenReaches(g: Graph, json: bool, tables: seq<Table>, t: nat, i: nat, name: string)
    requires Acyclic(g) && Tables(g, json, tables) && t < |g| && Settled(g, json, t)
    requires i < |g[t]| && ReadsThrough(g, t, i)
    requires EmbedsEarlier(g, t)
    requires var u := g[t][i].target.value; name in tables[u].0 && WritesPromoted(tables[t], name, i)
    ensures var u := g[t][i].target.value;
            name in tables[t].0 && tables[t].0[name].at == [i] + tables[u].0[name].at
  {
    var u := g[t][i].target.value;
    SettledUnder(g, json, t, i);
    var x := Winner(g, json, tables, u, name);
    var o := Through(g, t, name, i);
    assert TableFor(g, json, tables, t, name);
    assert |Part(g, t, name, i)| > 0;
    var k := Winner(g, json, tables, t, name);
    var y := PromotedAgrees(g, t, name, i, k);
    TableHas(g, json, tables, u, name, y);
    assert Prefixed(i, Cands(g, u, name)[y]).at == [i] + Cands(g, u, name)[y].at;
  }

  lemma EmbeddedWritten(g: Graph, json: bool, tables: seq<Table>, t: nat, i: nat)
    requires Acyclic(g) && Tables(g, json, tables) && t < |g| && Settled(g, json, t)
    requires i < |g[t]| && ReadsThrough(g, t, i)
    requires EmbedsEarlier(g, t)
    requires var u := g[t][i].target.value; WrittenOnce(tables[u], WrittenUpTo(g, tables, u, |g[u]|), |g[u]|)
    requires WrittenOnce(tables[t], WrittenUpTo(g, tables, t, i), i)
    ensures WrittenOnce(tables[t], WrittenUpTo(g, tables, t, i + 1), i + 1)
  {
    var r, u := tables[t], g[t][i].target.value;
    var es := WrittenUpTo(g, tables, u, |g[u]|);
    var more := Promoted(r, i, es);
    assert WrittenOf(g, tables, t, i) == more;
    PromotedApart(r, i, es);
    forall j | 0 <= j < |more| ensures Reaches(r, more[j], i + 1) && more[j].at[0] == i {
      var x := PromotedFrom(r, i, es, j);
      assert Reaches(tables[u], es[x], |g[u]|);
      TakenReaches(g, json, tables, t, i, es[x].name);
    }
    forall name | name in r.0 && r.0[name].at != [] && r.0[name].at[0] == i ensures Names(more, name) {
      EmbeddedNames(g, json, tables, t, i, name);
    }
    WrittenMore(r, WrittenUpTo(g, tables, t, i), more, i);
  }

  lemma EmbeddedNames(g: Graph, json: bool, tables: seq<Table>, t: nat, i: nat, name: string)
    requires Acyclic(g) && Tables(g, json, tables) && t < |g| && Settled(g, json, t)
    requires i < |g[t]| && ReadsThrough(g, t, i)
    requires EmbedsEarlier(g, t)
    requires var u := g[t][i].target.value; WrittenOnce(tables[u], WrittenUpTo(g, tables, u, |g[u]|), |g[u]|)
    requires name in tables[t].0 && tables[t].0[name].at != [] && tables[t].0[name].at[0] == i
    ensures var u := g[t][i].target.value; Names(Promoted(tables[t], i, WrittenUpTo(g, tables, u, |g[u]|)), name)
  {
    var u := g[t][i].target.value;
    SettledUnder(g, json, t, i);
    var es := WrittenUpTo(g, tables, u, |g[u]|);
    var k := Winner(g, json, tables, t, name);
    var x := PromotedAgrees(g, t, name, i, k);
    TableHas(g, json, tables, u, name, x);
    HeadIs(g, u, name, x);
    assert Names(es, name);
    var j :| 0 <= j < |es| && es[j].name == name;
    var p := PromotedTo(tables[t], i, es, j);
  }

  /** Encoded, a struct writes each name it reaches exactly once, and under it the field decoding the name
      fills. */
  lemma {:induction false} EachNameOnce(g: Graph, json: bool, tables: seq<Table>, t: nat, i: nat)
    requires Acyclic(g) && Tables(g, json, tables) && t < |g| && Settled(g, json, t) && i <= |g[t]|
    ensures WrittenOnce(tables[t], WrittenUpTo(g, tables, t, i), i)
    decreases t, i
  {
    if i > 0 {
      EachNameOnce(g, json, tables, t, i - 1);
      assert EmbedsEarlier(g, t);
      if ReadsThrough(g, t, i - 1) {
        var u := g[t][i - 1].target.value;
        SettledUnder(g, json, t, i - 1);
        EachNameOnce(g, json, tables, u, |g[u]|);
        EmbeddedWritten(g, json, tables, t, i - 1);
      } else {
        OwnWritten(g, json, tables, t, i - 1);
      }
    }
  }

  lemma {:induction false} PrefixedByNothing(at: seq<nat>, cs: seq<Candidate>)
    requires at == []
    ensures PrefixedBy(at, cs) == cs
    decreases |cs|
  {
    if cs != [] {
      PrefixedByNothing(at, cs[..|cs| - 1]);
      assert at + cs[|cs| - 1].at == cs[|cs| - 1].at;
    }
  }

  lemma ReachAlone(g: Graph, t: nat, name: string)
    requires Acyclic(g) && t < |g|
    ensures Reach(g, t, name, [], {t}) == Cands(g, t, name)
  {
    ReachIsCands(g, t, name, [], {t});
    PrefixedByNothing([], Cands(g, t, name));
  }

  /** A struct read by the decoder's rules and written by the encoder's: refused exactly where a name has no
      rule to settle it, and else the entries written are the fields read, each name once. */
  method ReadAndWrite(g: Graph, json: bool, t: nat) returns (tables: Option<seq<Table>>)
    requires Acyclic(g) && t < |g|
    ensures tables.None? <==> exists name :: NameRefused(g, json, t, name)
    ensures tables.Some? ==> Tables(g, json, tables.value)
                             && WrittenOnce(tables.value[t], WrittenUpTo(g, tables.value, t, |g[t]|), |g[t]|)
  {
    var read: seq<Table> := [];
    var refused := false;
    while |read| < |g|
      invariant |read| <= |g|
      invariant forall u, name :: 0 <= u < |read| && Settled(g, json, u) ==>
                  Decided(read[u], json, name, Cands(g, u, name))
      invariant t < |read| ==> (refused <==> exists name :: NameRefused(g, json, t, name))
      decreases |g| - |read|
    {
      var u := |read|;
      var r := ReadOne(g, json, u);
      if u == t {
        refused := r.None?;
      }
      read := read + [if r.Some? then r.value else (map[], {})];
    }
    assert Tables(g, json, read);
    if refused {
      return None;
    }
    forall name ensures !Refuses(json, Cands(g, t, name)) {
      ReachAlone(g, t, name);
      assert !NameRefused(g, json, t, name);
    }
    EachNameOnce(g, json, read, t, |g[t]|);
    return Some(read);
  }

  method ReadOne(g: Graph, json: bool, u: nat) returns (r: Option<Table>)
    requires Acyclic(g) && u < |g|
    ensures r.None? <==> exists name :: NameRefused(g, json, u, name)
    ensures r.None? ==> !Settled(g, json, u)
    ensures r.Some? ==> forall name :: Decided(r.value, json, name, Cands(g, u, name))
  {
    r := ReadType(g, json, u);
    forall name ensures Reach(g, u, name, [], {u}) == Cands(g, u, name) { ReachAlone(g, u, name); }
    if r.None? {
      ghost var name :| NameRefused(g, json, u, name);
      assert Refuses(json, Cands(g, u, name));
    }
  }
}
