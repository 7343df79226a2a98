/** The fields each name of a struct type reaches, its embedded structs read through (codec/struct.go), and
    what the encoder writes of them (codec/encode.go). */
module Flatten {
  datatype Option<+T> = None | Some(value: T)

  datatype TagSource = FromGo | FromYAML | FromJSON

  /** A field of a struct, by its position: one with a name of its own, one whose type is read through --
      where it is a struct, and does not read its own node -- or one neither. */
  datatype Member = Named(name: string, namedBy: TagSource) | Embedded(target: Option<nat>) | Ignored

  /** A field a name reaches: the positions that lead to it, and where its name comes from. */
  datatype Candidate = Candidate(at: seq<nat>, namedBy: TagSource)

  /** What readStructFields refuses no type for: an embedded type stands in the graph, and no type names
      two fields of its own alike. */
  predicate WellTyped(g: seq<seq<Member>>) {
    forall t :: 0 <= t < |g| ==> WellTypedStruct(|g|, g[t])
  }

  predicate WellTypedStruct(types: nat, ms: seq<Member>) {
    && (forall i :: 0 <= i < |ms| && ms[i].Embedded? && ms[i].target.Some? ==> ms[i].target.value < types)
    && (forall i, j :: 0 <= i < j < |ms| && ms[i].Named? && ms[j].Named? ==> ms[i].name != ms[j].name)
  }

  /** Types by number. */
  type Graph = g: seq<seq<Member>> | WellTyped(g) witness []

  // ---------------------------------------------------------------- the fields a name reaches

  /** The type's own field of the name, among its first i. */
  function OwnOf(ms: seq<Member>, name: string, at: seq<nat>, i: nat): seq<Candidate>
    requires i <= |ms|
  {
    if i == 0 then []
    else
      OwnOf(ms, name, at, i - 1)
      + if ms[i - 1].Named? && ms[i - 1].name == name then [Candidate(at + [i - 1], ms[i - 1].namedBy)] else []
  }

  /** The types below n. */
  ghost function Below(n: nat): (r: set<nat>)
    ensures forall t: nat :: t in r <==> t < n
  {
    if n == 0 then {} else Below(n - 1) + {n - 1}
  }

  /** In the order the walk meets them, types on the way here left out. */
  ghost function Reach(g: Graph, t: nat, name: string, at: seq<nat>, onPath: set<nat>): seq<Candidate>
    requires t < |g|
    decreases |Below(|g|) - onPath|, |g[t]| + 1
  {
    OwnOf(g[t], name, at, |g[t]|) + ReachUnder(g, t, name, at, onPath, |g[t]|)
  }

  ghost function ReachUnder(g: Graph, t: nat, name: string, at: seq<nat>, onPath: set<nat>, i: nat): seq<Candidate>
    requires t < |g| && i <= |g[t]|
    decreases |Below(|g|) - onPath|, i
  {
    if i == 0 then []
    else
      var m := g[t][i - 1];
      ReachUnder(g, t, name, at, onPath, i - 1)
      + if m.Embedded? && m.target.Some? && m.target.value !in onPath then
          assert WellTypedStruct(|g|, g[t]);
          Fewer(g, onPath, m.target.value);
          Reach(g, m.target.value, name, at + [i - 1], onPath + {m.target.value})
        else []
  }

  lemma Fewer(g: Graph, onPath: set<nat>, t: nat)
    requires t < |g| && t !in onPath
    ensures |Below(|g|) - (onPath + {t})| < |Below(|g|) - onPath|
  {
    assert Below(|g|) - onPath == (Below(|g|) - (onPath + {t})) + {t};
  }

  // ---------------------------------------------------------------- which of them it is

  /** c wins over d. */
  predicate Beats(c: Candidate, d: Candidate) {
    |c.at| < |d.at| || (|c.at| == |d.at| && c.namedBy != FromGo && d.namedBy == FromGo)
  }

  ghost predicate BeatsAll(cs: seq<Candidate>, k: nat) {
    k < |cs| && forall j :: 0 <= j < |cs| && j != k ==> Beats(cs[k], cs[j])
  }

  /** More than one field, and no rule to pick one by: the type is refused. */
  predicate Refuses(json: bool, cs: seq<Candidate>) {
    |cs| > 1 && (!json || exists i :: 0 <= i < |cs| && cs[i].namedBy == FromYAML)
  }

  lemma OneBeatsAll(cs: seq<Candidate>, j: nat, k: nat)
    requires BeatsAll(cs, j) && BeatsAll(cs, k)
    ensures j == k
  {
    var jk, kj := Beats(cs[j], cs[k]), Beats(cs[k], cs[j]);
  }

  datatype Verdict = Refused | Nothing | Won(c: Candidate)

  ghost predicate Settles(json: bool, cs: seq<Candidate>, v: Verdict) {
    match v
    case Refused => Refuses(json, cs)
    case Nothing => !Refuses(json, cs) && forall k :: 0 <= k < |cs| ==> !BeatsAll(cs, k)
    case Won(c) => !Refuses(json, cs) && exists k: nat :: BeatsAll(cs, k) && cs[k] == c
  }

  /** The candidates of a length, and the tagged ones of those. */
  function TopOf(cs: seq<Candidate>, n: nat, tagged: bool): seq<Candidate> {
    if cs == [] then []
    else
      var c := cs[|cs| - 1];
      TopOf(cs[..|cs| - 1], n, tagged) + if StandsOnTop(c, n, tagged) then [c] else []
  }

  predicate StandsOnTop(c: Candidate, n: nat, tagged: bool) {
    |c.at| == n && (tagged ==> c.namedBy != FromGo)
  }

  lemma {:induction false} TopIndex(cs: seq<Candidate>, n: nat, tagged: bool, x: nat) returns (k: nat)
    requires x < |TopOf(cs, n, tagged)|
    ensures k < |cs| && cs[k] == TopOf(cs, n, tagged)[x] && StandsOnTop(cs[k], n, tagged)
    decreases |cs|
  {
    var m := |cs| - 1;
    if x < |TopOf(cs[..m], n, tagged)| {
      k := TopIndex(cs[..m], n, tagged, x);
    } else {
      k := m;
    }
  }

  lemma {:induction false} TwoOnTop(cs: seq<Candidate>, n: nat, tagged: bool, j: nat, k: nat)
    requires j < k < |cs| && StandsOnTop(cs[j], n, tagged) && StandsOnTop(cs[k], n, tagged)
    ensures |TopOf(cs, n, tagged)| > 1
    decreases |cs|
  {
    var m := |cs| - 1;
    if k < m { TwoOnTop(cs[..m], n, tagged, j, k); } else { OnTop(cs[..m], n, tagged, j); }
  }

  lemma TopAlone(cs: seq<Candidate>, n: nat, tagged: bool, k: nat)
    requires |TopOf(cs, n, tagged)| == 1 && k < |cs| && StandsOnTop(cs[k], n, tagged)
    ensures forall j :: 0 <= j < |cs| && j != k ==> !StandsOnTop(cs[j], n, tagged)
  {
    forall j | 0 <= j < |cs| && j != k ensures !StandsOnTop(cs[j], n, tagged) {
      if StandsOnTop(cs[j], n, tagged) {
        if j < k { TwoOnTop(cs, n, tagged, j, k); } else { TwoOnTop(cs, n, tagged, k, j); }
      }
    }
  }

  lemma {:induction false} OnTop(cs: seq<Candidate>, n: nat, tagged: bool, k: nat)
    requires k < |cs| && StandsOnTop(cs[k], n, tagged)
    ensures TopOf(cs, n, tagged) != []
    decreases |cs|
  {
    if k < |cs| - 1 { OnTop(cs[..|cs| - 1], n, tagged, k); }
  }

  lemma {:induction false} AloneOnTop(cs: seq<Candidate>, n: nat, tagged: bool, k: nat)
    requires k <= |cs| && forall j :: 0 <= j < |cs| && j != k ==> !StandsOnTop(cs[j], n, tagged)
    ensures |TopOf(cs, n, tagged)| <= 1 && (k == |cs| ==> TopOf(cs, n, tagged) == [])
    decreases |cs|
  {
    if cs != [] {
      var m := |cs| - 1;
      AloneOnTop(cs[..m], n, tagged, if k < m then k else m);
    }
  }

  /** A candidate that beats the others stands alone on top, or alone of the tagged ones there. */
  lemma WinnerOnTop(cs: seq<Candidate>, shallowest: nat, low: nat, k: nat)
    requires low < |cs| && |cs[low].at| == shallowest && forall j :: 0 <= j < |cs| ==> shallowest <= |cs[j].at|
    requires BeatsAll(cs, k)
    ensures |TopOf(cs, shallowest, false)| == 1 || |TopOf(cs, shallowest, true)| == 1
  {
    var b := Beats(cs[k], cs[low]);
    var tagged := cs[k].namedBy != FromGo;
    OnTop(cs, shallowest, tagged, k);
    AloneOnTop(cs, shallowest, tagged, k);
  }

  // ---------------------------------------------------------------- the same by counting

  /** The candidates of the least depth. */
  ghost function Shallowest(cs: seq<Candidate>): set<nat> {
    set k: nat | k < |cs| && forall j :: 0 <= j < |cs| ==> |cs[k].at| <= |cs[j].at|
  }

  /** Those of them that a tag names. */
  ghost function ShallowestTagged(cs: seq<Candidate>): set<nat> {
    set k | k in Shallowest(cs) && cs[k].namedBy in {FromJSON, FromYAML}
  }

  /** encoding/json's rule: the shallowest candidate wins; at equal depth the one a tag names, if exactly one
      is; and otherwise none does. */
  ghost predicate Wins(cs: seq<Candidate>, k: nat) {
    Shallowest(cs) == {k} || (|Shallowest(cs)| > 1 && ShallowestTagged(cs) == {k})
  }

  lemma WinsBeats(cs: seq<Candidate>, k: nat)
    ensures Wins(cs, k) <==> BeatsAll(cs, k)
  {
    if Wins(cs, k) {
      assert k in {k};
      WinnerBeats(cs, k);
    }
    if BeatsAll(cs, k) { BeaterWins(cs, k); }
  }

  lemma WinnerBeats(cs: seq<Candidate>, k: nat)
    requires Wins(cs, k) && k in Shallowest(cs)
    ensures BeatsAll(cs, k)
  {
    forall j | 0 <= j < |cs| && j != k ensures Beats(cs[k], cs[j]) {
      if |cs[j].at| == |cs[k].at| {
        assert j in Shallowest(cs);
        assert j !in ShallowestTagged(cs);
      }
    }
  }

  lemma BeaterWins(cs: seq<Candidate>, k: nat)
    requires BeatsAll(cs, k)
    ensures Wins(cs, k)
  {
    forall j | 0 <= j < |cs| ensures |cs[k].at| <= |cs[j].at| {
      if j != k { assert Beats(cs[k], cs[j]); }
    }
    assert k in Shallowest(cs);
    forall j | j in Shallowest(cs) && j != k
      ensures cs[k].namedBy != FromGo && j !in ShallowestTagged(cs)
    {
      assert Beats(cs[k], cs[j]) && |cs[j].at| == |cs[k].at|;
    }
    if j :| j in Shallowest(cs) && j != k {
      assert ShallowestTagged(cs) == {k};
      assert {j, k} <= Shallowest(cs);
      TwoOrMore(Shallowest(cs), j, k);
    } else {
      assert Shallowest(cs) == {k};
    }
  }

  lemma TwoOrMore(s: set<nat>, j: nat, k: nat)
    requires j in s && k in s && j != k
    ensures |s| > 1
  {
    assert k in s - {j} && |s - {j}| == |s| - 1;
  }

  /** The verdict, by the two refusals and the three clauses. */
  ghost predicate ByRule(json: bool, cs: seq<Candidate>, v: Verdict) {
    var refused := |cs| > 1 && (!json || exists k: nat :: k < |cs| && cs[k].namedBy == FromYAML);
    match v
    case Refused => refused
    case Won(c) => !refused && exists k: nat :: k < |cs| && Wins(cs, k) && cs[k] == c
    case Nothing => !refused && forall k: nat :: !Wins(cs, k)
  }

  lemma SettlesByRule(json: bool, cs: seq<Candidate>, v: Verdict)
    ensures Settles(json, cs, v) <==> ByRule(json, cs, v)
  {
    forall k: nat ensures Wins(cs, k) <==> BeatsAll(cs, k) { WinsBeats(cs, k); }
  }

  /** dominant, of a name more than one field answers to. */
  method Dominant(json: bool, cs: seq<Candidate>) returns (v: Verdict)
    requires |cs| > 1
    ensures Settles(json, cs, v) && ByRule(json, cs, v)
  {
    v := Dominated(json, cs);
    SettlesByRule(json, cs, v);
  }

  method Dominated(json: bool, cs: seq<Candidate>) returns (v: Verdict)
    requires |cs| > 1
    ensures Settles(json, cs, v)
  {
    if !json {
      return Refused;
    }
    for i := 0 to |cs|
      invariant forall j :: 0 <= j < i ==> cs[j].namedBy != FromYAML
    {
      if cs[i].namedBy == FromYAML {
        return Refused;
      }
    }
    var shallowest := |cs[0].at|;
    ghost var low := 0;
    for i := 1 to |cs|
      invariant low < i && shallowest == |cs[low].at| && forall j :: 0 <= j < i ==> shallowest <= |cs[j].at|
    {
      if |cs[i].at| < shallowest {
        shallowest, low := |cs[i].at|, i;
      }
    }
    var top, tagged: seq<Candidate> := [], [];
    for i := 0 to |cs|
      invariant top == TopOf(cs[..i], shallowest, false) && tagged == TopOf(cs[..i], shallowest, true)
    {
      assert cs[..i + 1][..i] == cs[..i];
      if |cs[i].at| == shallowest {
        top := top + [cs[i]];
        if cs[i].namedBy != FromGo {
          tagged := tagged + [cs[i]];
        }
      }
    }
    assert cs[..|cs|] == cs;
    v := Picked(cs, shallowest, low, top, tagged);
  }

  method Picked(cs: seq<Candidate>, shallowest: nat, ghost low: nat, top: seq<Candidate>, tagged: seq<Candidate>)
    returns (v: Verdict)
    requires |cs| > 1 && forall j :: 0 <= j < |cs| ==> cs[j].namedBy != FromYAML
    requires low < |cs| && |cs[low].at| == shallowest && forall j :: 0 <= j < |cs| ==> shallowest <= |cs[j].at|
    requires top == TopOf(cs, shallowest, false) && tagged == TopOf(cs, shallowest, true)
    ensures Settles(true, cs, v)
  {
    OnTop(cs, shallowest, false, low);
    if |top| == 1 {
      ghost var k := TopIndex(cs, shallowest, false, 0);
      TopAlone(cs, shallowest, false, k);
      assert BeatsAll(cs, k);
      return Won(top[0]);
    }
    if |tagged| == 1 {
      ghost var k := TopIndex(cs, shallowest, true, 0);
      TopAlone(cs, shallowest, true, k);
      assert BeatsAll(cs, k);
      return Won(tagged[0]);
    }
    forall k | 0 <= k < |cs| ensures !BeatsAll(cs, k) {
      if BeatsAll(cs, k) { WinnerOnTop(cs, shallowest, low, k); }
    }
    return Nothing;
  }

  // ---------------------------------------------------------------- the walk

  class Flattener {
    const g: Graph
    const json: bool
    var candidates: map<string, seq<Candidate>>
    var onPath: set<nat>

    constructor (g: Graph, json: bool, root: nat)
      ensures this.g == g && this.json == json && candidates == map[] && onPath == {root}
    {
      this.g, this.json, candidates, onPath := g, json, map[], {root};
    }

    ghost function Found(name: string): seq<Candidate>
      reads this`candidates
    {
      FoundIn(candidates, name)
    }

    method Record(at: seq<nat>, i: nat, m: Member)
      requires m.Named?
      modifies this`candidates
      ensures candidates == Recorded(old(candidates), at, i, m)
    {
      var had := if m.name in candidates then candidates[m.name] else [];
      candidates := candidates[m.name := had + [Candidate(at + [i], m.namedBy)]];
    }

    /** walk: the type's own fields in whatever order Go hands the map of them over, then the structs it
        reads through. */
    method Walk(t: nat, at: seq<nat>)
      requires t < |g|
      requires NoneEmpty(candidates)
      modifies this`candidates, this`onPath
      ensures NoneEmpty(candidates)
      ensures onPath == old(onPath)
      ensures forall name :: Found(name) == old(Found(name)) + Reach(g, t, name, at, onPath)
      decreases |Below(|g|) - onPath|, |g[t]| + 1
    {
      ghost var was := candidates;
      WalkOwn(t, at);
      ghost var own := candidates;
      WalkUnder(t, at, |Below(|g|) - onPath|);
      forall name ensures Found(name) == FoundIn(was, name) + Reach(g, t, name, at, onPath) {
        assert FoundIn(own, name) == FoundIn(was, name) + OwnOf(g[t], name, at, |g[t]|);
      }
    }

    method WalkOwn(t: nat, at: seq<nat>)
      requires t < |g|
      requires NoneEmpty(candidates)
      modifies this`candidates
      ensures NoneEmpty(candidates)
      ensures forall name :: Found(name) == old(Found(name)) + OwnOf(g[t], name, at, |g[t]|)
    {
      ghost var was := candidates;
      var left := OwnFields(g[t], |g[t]|);
      ghost var done: set<nat> := {};
      NoneRecorded(was, g[t], at);
      while left != {}
        invariant forall i: nat :: i in left ==> i < |g[t]| && g[t][i].Named?
        invariant done !! left && forall i :: 0 <= i < |g[t]| && g[t][i].Named? ==> i in done || i in left
        invariant NoneEmpty(candidates) && AddedAmong(was, candidates, g[t], at, done)
        decreases |left|
      {
        var i: nat :| i in left;
        OneRecorded(was, candidates, g, t, at, done, i);
        Record(at, i, g[t][i]);
        left, done := left - {i}, done + {i};
      }
      AllRecorded(was, candidates, g[t], at, done);
      assert forall name :: Found(name) == FoundIn(candidates, name);
    }

    method WalkUnder(t: nat, at: seq<nat>, ghost room: nat)
      requires t < |g| && room == |Below(|g|) - onPath|
      requires NoneEmpty(candidates)
      modifies this`candidates, this`onPath
      ensures NoneEmpty(candidates)
      ensures onPath == old(onPath)
      ensures AddedUnder(old(candidates), candidates, g, t, at, onPath, |g[t]|)
      decreases room, |g[t]|
    {
      ghost var was, path := candidates, onPath;
      AddedNothing(was, g, t, at, path);
      var i, n := 0, |g[t]|;
      while i < n
        invariant i <= n && onPath == path && NoneEmpty(candidates)
        invariant AddedUnder(was, candidates, g, t, at, path, i)
      {
        WalkMember(t, at, i, was, room);
        i := i + 1;
      }
    }

    method WalkMember(t: nat, at: seq<nat>, i: nat, ghost was: map<string, seq<Candidate>>, ghost room: nat)
      requires t < |g| && i < |g[t]| && room == |Below(|g|) - onPath|
      requires NoneEmpty(candidates) && AddedUnder(was, candidates, g, t, at, onPath, i)
      modifies this`candidates, this`onPath
      ensures NoneEmpty(candidates) && onPath == old(onPath)
      ensures AddedUnder(was, candidates, g, t, at, onPath, i + 1)
      decreases room, i
    {
      ghost var before, path := candidates, onPath;
      var m := g[t][i];
      if m.Embedded? && m.target.Some? && m.target.value !in onPath {
        assert WellTypedStruct(|g|, g[t]);
        Fewer(g, onPath, m.target.value);
        onPath := onPath + {m.target.value};
        Walk(m.target.value, at + [i]);
        onPath := onPath - {m.target.value};
        assert onPath == path;
        forall name ensures FoundIn(candidates, name) == FoundIn(before, name) + ReachMember(g, t, name, at, path, i) {
          assert Found(name) == FoundIn(candidates, name);
        }
      }
      AddedMember(was, before, candidates, g, t, at, path, i);
    }

    /** resolve: what each name comes to, the names in whatever order Go hands them over. */
    method Resolve() returns (r: Option<(map<string, Candidate>, set<string>)>)
      requires NoneEmpty(candidates)
      ensures r.None? <==> exists name :: name in candidates && Refuses(json, candidates[name])
      ensures r.Some? ==> forall name :: Decided(r.value, json, name, Found(name))
    {
      var flat: map<string, Candidate>, dropped: set<string> := map[], {};
      var left := candidates.Keys;
      while left != {}
        invariant left <= candidates.Keys
        invariant forall name :: name in candidates && name !in left ==>
                    Decided((flat, dropped), json, name, candidates[name])
        invariant forall name :: name in flat || name in dropped ==> name in candidates && name !in left
        decreases |left|
      {
        var name :| name in left;
        var cs := candidates[name];
        if |cs| == 1 {
          assert BeatsAll(cs, 0);
          flat := flat[name := cs[0]];
        } else {
          var v := Dominant(json, cs);
          if v.Refused? {
            return None;
          } else if v.Nothing? {
            dropped := dropped + {name};
          } else {
            flat := flat[name := v.c];
          }
        }
        left := left - {name};
      }
      return Some((flat, dropped));
    }
  }

  /** A name reaches the candidate that beats the others, is dropped where none does, and is known in no
      other way. */
  ghost predicate Decided(r: (map<string, Candidate>, set<string>), json: bool, name: string, cs: seq<Candidate>) {
    && !Refuses(json, cs)
    && (name in r.0 ==> exists k: nat :: BeatsAll(cs, k) && cs[k] == r.0[name])
    && (name !in r.0 ==> forall k: nat :: !BeatsAll(cs, k))
    && (name in r.1 <==> cs != [] && name !in r.0)
  }

  /** What a name comes to. */
  function VerdictOn(r: (map<string, Candidate>, set<string>), name: string): Verdict {
    if name in r.0 then Won(r.0[name]) else Nothing
  }

  lemma DecidedByRule(r: (map<string, Candidate>, set<string>), json: bool, name: string, cs: seq<Candidate>)
    requires Decided(r, json, name, cs)
    ensures ByRule(json, cs, VerdictOn(r, name))
  {
    forall k: nat ensures Wins(cs, k) <==> BeatsAll(cs, k) { WinsBeats(cs, k); }
  }

  // ---------------------------------------------------------------- the fields reached, position by position

  /** Followed from the type, the positions lead through embedded structs, none of them met before, to a
      field of that name. */
  ghost predicate LeadsTo(g: Graph, t: nat, steps: seq<nat>, name: string, namedBy: TagSource, onPath: set<nat>)
    requires t < |g|
    decreases |steps|
  {
    && steps != [] && steps[0] < |g[t]|
    && var m := g[t][steps[0]];
       if |steps| == 1 then m == Named(name, namedBy)
       else
         && m.Embedded? && m.target.Some? && m.target.value !in onPath
         && assert WellTypedStruct(|g|, g[t]);
            LeadsTo(g, m.target.value, steps[1..], name, namedBy, onPath + {m.target.value})
  }

  /** The positions lead to such a field from the type, by a first step below i. */
  ghost predicate LeadsBelow(g: Graph, t: nat, at: seq<nat>, c: Candidate, name: string, onPath: set<nat>, i: nat,
                             own: bool)
    requires t < |g|
  {
    && |at| < |c.at| && c.at[..|at|] == at && c.at[|at|] < i && (own <==> |c.at| == |at| + 1)
    && LeadsTo(g, t, c.at[|at|..], name, c.namedBy, onPath)
  }

  lemma {:induction false} OwnReached(g: Graph, t: nat, name: string, at: seq<nat>, onPath: set<nat>, i: nat,
                                      c: Candidate)
    requires t < |g| && i <= |g[t]|
    ensures c in OwnOf(g[t], name, at, i) <==> LeadsBelow(g, t, at, c, name, onPath, i, true)
    decreases i
  {
    if i > 0 {
      OwnReached(g, t, name, at, onPath, i - 1, c);
      var m := g[t][i - 1];
      if LeadsBelow(g, t, at, c, name, onPath, i, true) && c.at[|at|] == i - 1 {
        assert c.at == at + [i - 1];
      }
    }
  }

  /** A field that a name reaches stands at the end of such positions, and each such field is reached. */
  lemma {:induction false} Reached(g: Graph, t: nat, name: string, at: seq<nat>, onPath: set<nat>, c: Candidate)
    requires t < |g|
    ensures c in Reach(g, t, name, at, onPath)
            <==> |at| < |c.at| && c.at[..|at|] == at && LeadsTo(g, t, c.at[|at|..], name, c.namedBy, onPath)
    decreases |Below(|g|) - onPath|, |g[t]| + 1
  {
    OwnReached(g, t, name, at, onPath, |g[t]|, c);
    UnderReached(g, t, name, at, onPath, |g[t]|, c);
  }

  lemma {:induction false} UnderReached(g: Graph, t: nat, name: string, at: seq<nat>, onPath: set<nat>, i: nat,
                                        c: Candidate)
    requires t < |g| && i <= |g[t]|
    ensures UnderIs(g, t, name, at, onPath, i, c)
    decreases |Below(|g|) - onPath|, i
  {
    if i > 0 {
      UnderReached(g, t, name, at, onPath, i - 1, c);
      MemberReached(g, t, name, at, onPath, i - 1, c);
      UnderIsStep(g, t, name, at, onPath, i, c);
    }
  }

  /** Of the fields reached through the first i members, said of one candidate. */
  ghost predicate UnderIs(g: Graph, t: nat, name: string, at: seq<nat>, onPath: set<nat>, i: nat, c: Candidate)
    requires t < |g| && i <= |g[t]|
  {
    c in ReachUnder(g, t, name, at, onPath, i) <==> LeadsBelow(g, t, at, c, name, onPath, i, false)
  }

  lemma UnderIsStep(g: Graph, t: nat, name: string, at: seq<nat>, onPath: set<nat>, i: nat, c: Candidate)
    requires t < |g| && 0 < i <= |g[t]| && UnderIs(g, t, name, at, onPath, i - 1, c)
    requires c in ReachMember(g, t, name, at, onPath, i - 1)
             <==> LeadsBelow(g, t, at, c, name, onPath, i, false) && c.at[|at|] == i - 1
    ensures UnderIs(g, t, name, at, onPath, i, c)
  {
    UnderMember(g, t, name, at, onPath, i, c);
    BelowStep(g, t, name, at, onPath, i, c);
  }

  lemma UnderMember(g: Graph, t: nat, name: string, at: seq<nat>, onPath: set<nat>, i: nat, c: Candidate)
    requires t < |g| && 0 < i <= |g[t]|
    ensures c in ReachUnder(g, t, name, at, onPath, i)
            <==> c in ReachUnder(g, t, name, at, onPath, i - 1) || c in ReachMember(g, t, name, at, onPath, i - 1)
  {
    UnderStep(g, t, name, at, onPath, i);
  }

  lemma BelowStep(g: Graph, t: nat, name: string, at: seq<nat>, onPath: set<nat>, i: nat, c: Candidate)
    requires t < |g| && 0 < i <= |g[t]|
    ensures LeadsBelow(g, t, at, c, name, onPath, i, false)
            <==> LeadsBelow(g, t, at, c, name, onPath, i - 1, false)
                 || (LeadsBelow(g, t, at, c, name, onPath, i, false) && c.at[|at|] == i - 1)
  {
  }

  lemma UnderStep(g: Graph, t: nat, name: string, at: seq<nat>, onPath: set<nat>, i: nat)
    requires t < |g| && 0 < i <= |g[t]|
    ensures ReachUnder(g, t, name, at, onPath, i)
            == ReachUnder(g, t, name, at, onPath, i - 1) + ReachMember(g, t, name, at, onPath, i - 1)
  {
  }

  lemma {:induction false} MemberReached(g: Graph, t: nat, name: string, at: seq<nat>, onPath: set<nat>, k: nat,
                                         c: Candidate)
    requires t < |g| && k < |g[t]|
    ensures c in ReachMember(g, t, name, at, onPath, k)
            <==> LeadsBelow(g, t, at, c, name, onPath, k + 1, false) && c.at[|at|] == k
    decreases |Below(|g|) - onPath|, k
  {
    var m := g[t][k];
    if m.Embedded? && m.target.Some? && m.target.value !in onPath {
      assert WellTypedStruct(|g|, g[t]);
      Fewer(g, onPath, m.target.value);
      Reached(g, m.target.value, name, at + [k], onPath + {m.target.value}, c);
      StepTaken(g, t, name, at, onPath, k, c);
    }
  }

  lemma StepTaken(g: Graph, t: nat, name: string, at: seq<nat>, onPath: set<nat>, k: nat, c: Candidate)
    requires t < |g| && k < |g[t]| && g[t][k].Embedded? && g[t][k].target.Some? && g[t][k].target.value !in onPath
    ensures g[t][k].target.value < |g|
    ensures var next, u := at + [k], g[t][k].target.value;
            (|next| < |c.at| && c.at[..|next|] == next
             && LeadsTo(g, u, c.at[|next|..], name, c.namedBy, onPath + {u}))
            <==> (LeadsBelow(g, t, at, c, name, onPath, k + 1, false) && c.at[|at|] == k)
  {
    assert WellTypedStruct(|g|, g[t]);
    var next := at + [k];
    if |next| < |c.at| {
      assert c.at[|at|..][1..] == c.at[|next|..];
      assert c.at[..|next|] == c.at[..|at|] + [c.at[|at|]];
    }
  }

  predicate Once(cs: seq<Candidate>) {
    forall i, j :: 0 <= i < j < |cs| ==> cs[i].at != cs[j].at
  }

  lemma OnceConcat(a: seq<Candidate>, b: seq<Candidate>)
    requires Once(a) && Once(b) && forall c, d :: c in a && d in b ==> c.at != d.at
    ensures Once(a + b)
  {
    var cs := a + b;
    forall i, j | 0 <= i < j < |cs| ensures cs[i].at != cs[j].at {
      if i < |a| <= j { assert a[i] in a && b[j - |a|] in b; }
    }
  }

  lemma {:induction false} OwnOnce(g: Graph, t: nat, name: string, at: seq<nat>, onPath: set<nat>, i: nat)
    requires t < |g| && i <= |g[t]|
    ensures Once(OwnOf(g[t], name, at, i))
    decreases i
  {
    if i > 0 {
      OwnOnce(g, t, name, at, onPath, i - 1);
      forall c | c in OwnOf(g[t], name, at, i - 1) ensures c.at != at + [i - 1] {
        OwnReached(g, t, name, at, onPath, i - 1, c);
      }
    }
  }

  /** No field is reached twice. */
  lemma {:induction false} ReachedOnce(g: Graph, t: nat, name: string, at: seq<nat>, onPath: set<nat>)
    requires t < |g|
    ensures Once(Reach(g, t, name, at, onPath))
    decreases |Below(|g|) - onPath|, |g[t]| + 1
  {
    var n := |g[t]|;
    OwnOnce(g, t, name, at, onPath, n);
    UnderOnce(g, t, name, at, onPath, n);
    forall c, d | c in OwnOf(g[t], name, at, n) && d in ReachUnder(g, t, name, at, onPath, n) ensures c.at != d.at {
      OwnReached(g, t, name, at, onPath, n, c);
      UnderReached(g, t, name, at, onPath, n, d);
    }
    OnceConcat(OwnOf(g[t], name, at, n), ReachUnder(g, t, name, at, onPath, n));
  }

  lemma ReachedApart(g: Graph, t: nat, name: string, at: seq<nat>, onPath: set<nat>, k: nat, c: Candidate,
                     d: Candidate)
    requires t < |g| && k < |g[t]|
    requires c in ReachUnder(g, t, name, at, onPath, k) && d in ReachMember(g, t, name, at, onPath, k)
    ensures c.at != d.at
  {
    UnderReached(g, t, name, at, onPath, k, c);
    MemberReached(g, t, name, at, onPath, k, d);
  }

  lemma UnderMemberOnce(g: Graph, t: nat, name: string, at: seq<nat>, onPath: set<nat>, k: nat,
                        before: seq<Candidate>, more: seq<Candidate>)
    requires t < |g| && k < |g[t]| && Once(before) && Once(more)
    requires before == ReachUnder(g, t, name, at, onPath, k) && more == ReachMember(g, t, name, at, onPath, k)
    ensures Once(before + more)
  {
    forall c, d | c in before && d in more ensures c.at != d.at {
      ReachedApart(g, t, name, at, onPath, k, c, d);
    }
    OnceConcat(before, more);
  }

  lemma {:induction false} UnderOnce(g: Graph, t: nat, name: string, at: seq<nat>, onPath: set<nat>, i: nat)
    requires t < |g| && i <= |g[t]|
    ensures Once(ReachUnder(g, t, name, at, onPath, i))
    decreases |Below(|g|) - onPath|, i
  {
    if i > 0 {
      UnderOnce(g, t, name, at, onPath, i - 1);
      MemberOnce(g, t, name, at, onPath, i - 1);
      UnderMemberOnce(g, t, name, at, onPath, i - 1, ReachUnder(g, t, name, at, onPath, i - 1),
                      ReachMember(g, t, name, at, onPath, i - 1));
      UnderStep(g, t, name, at, onPath, i);
    }
  }

  lemma {:induction false} MemberOnce(g: Graph, t: nat, name: string, at: seq<nat>, onPath: set<nat>, k: nat)
    requires t < |g| && k < |g[t]|
    ensures Once(ReachMember(g, t, name, at, onPath, k))
    decreases |Below(|g|) - onPath|, k
  {
    var m := g[t][k];
    if m.Embedded? && m.target.Some? && m.target.value !in onPath {
      assert WellTypedStruct(|g|, g[t]);
      Fewer(g, onPath, m.target.value);
      ReachedOnce(g, m.target.value, name, at + [k], onPath + {m.target.value});
    }
  }

  /** Embedding A, which names a field X, and B, which tags one "X": B's is the one read. */
  lemma TaggedOneWins(v: Verdict)
    ensures var cs := [Candidate([0, 0], FromGo), Candidate([1, 0], FromJSON)];
            ByRule(true, cs, v) <==> v == Won(cs[1])
  {
    var cs := [Candidate([0, 0], FromGo), Candidate([1, 0], FromJSON)];
    assert 0 in Shallowest(cs) && 1 in Shallowest(cs);
    TwoOrMore(Shallowest(cs), 0, 1);
    assert ShallowestTagged(cs) == {1};
    assert Wins(cs, 1);
    forall k: nat | Wins(cs, k) ensures k == 1 {
      WinsBeats(cs, k);
      WinsBeats(cs, 1);
      OneBeatsAll(cs, k, 1);
    }
  }

  ghost predicate AddedUnder(was: map<string, seq<Candidate>>, now: map<string, seq<Candidate>>, g: Graph, t: nat,
                             at: seq<nat>, onPath: set<nat>, i: nat)
    requires t < |g| && i <= |g[t]|
  {
    forall name :: FoundIn(now, name) == FoundIn(was, name) + ReachUnder(g, t, name, at, onPath, i)
  }

  ghost predicate AddedOne(was: map<string, seq<Candidate>>, now: map<string, seq<Candidate>>, g: Graph, t: nat,
                           at: seq<nat>, onPath: set<nat>, i: nat)
    requires t < |g| && i < |g[t]|
  {
    forall name :: FoundIn(now, name) == FoundIn(was, name) + ReachMember(g, t, name, at, onPath, i)
  }

  lemma AddedNothing(was: map<string, seq<Candidate>>, g: Graph, t: nat, at: seq<nat>, onPath: set<nat>)
    requires t < |g|
    ensures AddedUnder(was, was, g, t, at, onPath, 0)
  {
  }

  lemma AddedMember(was: map<string, seq<Candidate>>, before: map<string, seq<Candidate>>,
                    now: map<string, seq<Candidate>>,
                    g: Graph, t: nat, at: seq<nat>, onPath: set<nat>, i: nat)
    requires t < |g| && i < |g[t]|
    requires AddedUnder(was, before, g, t, at, onPath, i) && AddedOne(before, now, g, t, at, onPath, i)
    ensures AddedUnder(was, now, g, t, at, onPath, i + 1)
  {
    forall name ensures FoundIn(now, name) == FoundIn(was, name) + ReachUnder(g, t, name, at, onPath, i + 1) {
      Assoc(FoundIn(was, name), ReachUnder(g, t, name, at, onPath, i), ReachMember(g, t, name, at, onPath, i));
    }
  }

  lemma Assoc<T>(a: seq<T>, b: seq<T>, c: seq<T>)
    ensures (a + b) + c == a + (b + c)
  {
  }

  ghost predicate NoneEmpty(candidates: map<string, seq<Candidate>>) {
    forall name :: name in candidates ==> candidates[name] != []
  }

  ghost function FoundIn(candidates: map<string, seq<Candidate>>, name: string): seq<Candidate> {
    if name in candidates then candidates[name] else []
  }

  ghost function Recorded(candidates: map<string, seq<Candidate>>, at: seq<nat>, i: nat, m: Member)
    : map<string, seq<Candidate>>
    requires m.Named?
  {
    candidates[m.name := FoundIn(candidates, m.name) + [Candidate(at + [i], m.namedBy)]]
  }

  ghost function ReachMember(g: Graph, t: nat, name: string, at: seq<nat>, onPath: set<nat>, i: nat): seq<Candidate>
    requires t < |g| && i < |g[t]|
  {
    var m := g[t][i];
    if m.Embedded? && m.target.Some? && m.target.value !in onPath then
      assert WellTypedStruct(|g|, g[t]);
      Reach(g, m.target.value, name, at + [i], onPath + {m.target.value})
    else []
  }

  function OwnFields(ms: seq<Member>, i: nat): (r: set<nat>)
    requires i <= |ms|
    ensures forall j: nat :: j in r <==> j < i && ms[j].Named?
  {
    if i == 0 then {} else OwnFields(ms, i - 1) + if ms[i - 1].Named? then {i - 1} else {}
  }

  /** The type's own field of the name, among those of a set. */
  ghost function OwnAmong(ms: seq<Member>, name: string, at: seq<nat>, among: set<nat>, i: nat): seq<Candidate>
    requires i <= |ms|
  {
    if i == 0 then []
    else
      OwnAmong(ms, name, at, among, i - 1)
      + if ms[i - 1].Named? && ms[i - 1].name == name && i - 1 in among
        then [Candidate(at + [i - 1], ms[i - 1].namedBy)] else []
  }

  ghost predicate AddedAmong(was: map<string, seq<Candidate>>, now: map<string, seq<Candidate>>, ms: seq<Member>,
                             at: seq<nat>, done: set<nat>)
  {
    forall name :: FoundIn(now, name) == FoundIn(was, name) + OwnAmong(ms, name, at, done, |ms|)
  }

  lemma NoneRecorded(was: map<string, seq<Candidate>>, ms: seq<Member>, at: seq<nat>)
    ensures AddedAmong(was, was, ms, at, {})
  {
    forall name ensures OwnAmong(ms, name, at, {}, |ms|) == [] { NoneAmong(ms, name, at, |ms|); }
  }

  lemma OneRecorded(was: map<string, seq<Candidate>>, now: map<string, seq<Candidate>>, g: Graph, t: nat, at: seq<nat>,
                    done: set<nat>, i: nat)
    requires t < |g| && i < |g[t]| && i !in done && g[t][i].Named? && AddedAmong(was, now, g[t], at, done)
    ensures AddedAmong(was, Recorded(now, at, i, g[t][i]), g[t], at, done + {i})
  {
    assert WellTypedStruct(|g|, g[t]);
    forall name
      ensures FoundIn(Recorded(now, at, i, g[t][i]), name)
              == FoundIn(was, name) + OwnAmong(g[t], name, at, done + {i}, |g[t]|)
    {
      OneMore(g[t], name, at, done, i, |g[t]|);
    }
  }

  lemma AllRecorded(was: map<string, seq<Candidate>>, now: map<string, seq<Candidate>>, ms: seq<Member>, at: seq<nat>,
                    done: set<nat>)
    requires AddedAmong(was, now, ms, at, done) && forall i :: 0 <= i < |ms| && ms[i].Named? ==> i in done
    ensures forall name :: FoundIn(now, name) == FoundIn(was, name) + OwnOf(ms, name, at, |ms|)
  {
    forall name ensures OwnAmong(ms, name, at, done, |ms|) == OwnOf(ms, name, at, |ms|) {
      AllAmong(ms, name, at, done, |ms|);
    }
  }

  lemma {:induction false} NoneAmong(ms: seq<Member>, name: string, at: seq<nat>, i: nat)
    requires i <= |ms|
    ensures OwnAmong(ms, name, at, {}, i) == []
  {
    if i > 0 { NoneAmong(ms, name, at, i - 1); }
  }

  lemma {:induction false} AllAmong(ms: seq<Member>, name: string, at: seq<nat>, among: set<nat>, i: nat)
    requires i <= |ms| && forall j :: 0 <= j < i && ms[j].Named? ==> j in among
    ensures OwnAmong(ms, name, at, among, i) == OwnOf(ms, name, at, i)
  {
    if i > 0 { AllAmong(ms, name, at, among, i - 1); }
  }

  /** A type's own fields have names of their own, so none of them stands before another under a name. */
  lemma {:induction false} OneMore(ms: seq<Member>, name: string, at: seq<nat>, among: set<nat>, k: nat, i: nat)
    requires i <= |ms| && k < |ms| && k !in among && ms[k].Named?
    requires forall j, l :: 0 <= j < l < |ms| && ms[j].Named? && ms[l].Named? ==> ms[j].name != ms[l].name
    ensures OwnAmong(ms, name, at, among + {k}, i)
            == OwnAmong(ms, name, at, among, i)
               + if ms[k].name == name && k < i then [Candidate(at + [k], ms[k].namedBy)] else []
    ensures ms[k].name == name ==> OwnAmong(ms, name, at, among, i) == []
  {
    if i > 0 { OneMore(ms, name, at, among, k, i - 1); }
  }

  ghost predicate NameRefused(g: Graph, json: bool, root: nat, name: string)
    requires root < |g|
  {
    Refuses(json, Reach(g, root, name, [], {root}))
  }

  /** readType, of a type that reads others through: refused exactly where some name has no rule to settle
      it, and otherwise each name settled by the fields it reaches, whatever order Go takes its maps in. */
  method ReadType(g: Graph, json: bool, root: nat) returns (r: Option<(map<string, Candidate>, set<string>)>)
    requires root < |g|
    ensures r.None? <==> exists name :: NameRefused(g, json, root, name)
    ensures r.Some? ==> forall name :: Decided(r.value, json, name, Reach(g, root, name, [], {root}))
    ensures r.Some? ==> forall name :: ByRule(json, Reach(g, root, name, [], {root}), VerdictOn(r.value, name))
  {
    var f := new Flattener(g, json, root);
    f.Walk(root, []);
    ghost var found := f.candidates;
    forall name ensures FoundIn(found, name) == Reach(g, root, name, [], {root}) {
      assert f.Found(name) == FoundIn(map[], name) + Reach(g, root, name, [], {root});
    }
    r := f.Resolve();
    if r.None? {
      ghost var name :| name in found && Refuses(json, found[name]);
      assert NameRefused(g, json, root, name);
    } else {
      forall name ensures Decided(r.value, json, name, Reach(g, root, name, [], {root})) {
        assert Decided(r.value, json, name, f.Found(name));
      }
      forall name
        ensures !NameRefused(g, json, root, name)
        ensures ByRule(json, Reach(g, root, name, [], {root}), VerdictOn(r.value, name))
      {
        assert Decided(r.value, json, name, Reach(g, root, name, [], {root}));
        DecidedByRule(r.value, json, name, Reach(g, root, name, [], {root}));
      }
    }
  }
}
