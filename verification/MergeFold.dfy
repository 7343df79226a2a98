/** A mapping with "<<" entries read into a Go map: by the walk, in one pass and in document order
    (codec/walkvalue.go), and by the tree decoder, its own entries first (codec/decode.go). */
module MergeFold {
  datatype Option<+T> = None | Some(value: T)

  datatype Kind = Null | Bool | Int | Float

  /** Kinds one YAML key of which may be two keys of a Go map. A wide number is one no 64-bit number
      holds, so none of them names what a key of the other kinds does. */
  datatype ValueKind = Timestamp | WideInt | WideFloat | Binary

  /** A decoded key: a string, a scalar Go compares as YAML does, or one it does not, told from others of
      its YAML identity by `repr`. */
  datatype Key =
    | Text(name: string)
    | Plain(kind: Kind, name: string)
    | ByValue(sort: ValueKind, name: string, repr: nat)

  /** sameMapKey: one YAML key. */
  predicate SameKey(a: Key, b: Key) {
    a == b || (a.ByValue? && b.ByValue? && a.sort == b.sort && a.name == b.name)
  }

  datatype Pair<V> = Pair(key: Key, value: V)

  /** A mapping, aliases read through. */
  datatype Mapping<V> = Mapping(entries: seq<Entry<V>>)

  datatype Entry<V> = Own(key: Key, value: V) | Merge(source: Source<V>)

  datatype Source<V> = One(mapping: Mapping<V>) | Many(mappings: seq<Mapping<V>>)

  // ---------------------------------------------------------------- maps in which one YAML key stands once

  ghost predicate Holds<V>(m: map<Key, V>, k: Key) {
    exists h :: h in m && SameKey(h, k)
  }

  ghost predicate OneEach<V>(m: map<Key, V>) {
    forall a, b {:trigger SameKey(a, b)} :: a in m && b in m && SameKey(a, b) ==> a == b
  }

  /** Written where none stands. */
  ghost function Add<V>(m: map<Key, V>, p: Pair<V>): map<Key, V> {
    if Holds(m, p.key) then m else m[p.key := p.value]
  }

  ghost function AddAll<V>(m: map<Key, V>, ps: seq<Pair<V>>): map<Key, V> {
    if ps == [] then m else Add(AddAll(m, ps[..|ps| - 1]), ps[|ps| - 1])
  }

  /** The first of each YAML key stands. */
  ghost function FirstWins<V>(ps: seq<Pair<V>>): map<Key, V> {
    AddAll(map[], ps)
  }

  lemma {:induction false} AddAllOneEach<V>(m: map<Key, V>, ps: seq<Pair<V>>)
    requires OneEach(m)
    ensures OneEach(AddAll(m, ps))
    decreases |ps|
  {
    if ps != [] {
      AddAllOneEach(m, ps[..|ps| - 1]);
      var f, k := AddAll(m, ps[..|ps| - 1]), ps[|ps| - 1].key;
      if !Holds(f, k) {
        assert forall h :: h in f ==> !SameKey(h, k);
      }
    }
  }

  /** No YAML key stands twice in what is left. */
  lemma FirstWinsOneEach<V>(ps: seq<Pair<V>>)
    ensures OneEach(FirstWins(ps))
  {
    AddAllOneEach(map[], ps);
  }

  /** Written over whatever stands. */
  ghost function Set<V>(m: map<Key, V>, p: Pair<V>): map<Key, V> {
    (map k | k in m && !SameKey(k, p.key) :: m[k])[p.key := p.value]
  }

  /** What f holds added to m. */
  ghost function Extend<V>(m: map<Key, V>, f: map<Key, V>): map<Key, V> {
    map k | k in m.Keys + f.Keys && (k in m || !Holds(m, k)) :: if k in m then m[k] else f[k]
  }

  lemma {:induction false} AddAllConcat<V>(m: map<Key, V>, a: seq<Pair<V>>, b: seq<Pair<V>>)
    ensures AddAll(m, a + b) == AddAll(AddAll(m, a), b)
  {
    if b == [] {
      assert a + b == a;
    } else {
      assert (a + b)[..|a + b| - 1] == a + b[..|b| - 1];
      AddAllConcat(m, a, b[..|b| - 1]);
    }
  }

  lemma HoldsExtended<V>(m: map<Key, V>, f: map<Key, V>, k: Key)
    ensures Holds(Extend(m, f), k) <==> Holds(m, k) || Holds(f, k)
  {
    var e := Extend(m, f);
    if Holds(m, k) {
      var h :| h in m && SameKey(h, k);
      assert h in e;
    } else if Holds(f, k) {
      var h :| h in f && SameKey(h, k);
      assert !Holds(m, h) by {
        if Holds(m, h) { var g :| g in m && SameKey(g, h); assert SameKey(g, k); }
      }
      assert h in e;
    }
  }

  lemma ExtendAdd<V>(m: map<Key, V>, f: map<Key, V>, p: Pair<V>)
    requires OneEach(m) && OneEach(f)
    ensures Extend(m, Add(f, p)) == Add(Extend(m, f), p)
  {
    HoldsExtended(m, f, p.key);
    if !Holds(f, p.key) {
      if Holds(m, p.key) { ExtendHeld(m, f, p); } else { ExtendNew(m, f, p); }
    }
  }

  lemma ExtendHeld<V>(m: map<Key, V>, f: map<Key, V>, p: Pair<V>)
    requires Holds(m, p.key) && !Holds(f, p.key)
    ensures Extend(m, f[p.key := p.value]) == Extend(m, f)
  {
    if p.key in m { assert p.key in Extend(m, f); }
  }

  lemma ExtendNew<V>(m: map<Key, V>, f: map<Key, V>, p: Pair<V>)
    requires !Holds(m, p.key)
    ensures Extend(m, f[p.key := p.value]) == Extend(m, f)[p.key := p.value]
  {
    assert SameKey(p.key, p.key);
  }

  /** Adding pairs in turn adds the map they come to. */
  lemma {:induction false} AddAllIsExtend<V>(m: map<Key, V>, ps: seq<Pair<V>>)
    requires OneEach(m)
    ensures AddAll(m, ps) == Extend(m, FirstWins(ps))
    decreases |ps|
  {
    if ps == [] {
      assert Extend(m, map[]) == m;
    } else {
      AddAllIsExtend(m, ps[..|ps| - 1]);
      FirstWinsOneEach(ps[..|ps| - 1]);
      ExtendAdd(m, FirstWins(ps[..|ps| - 1]), ps[|ps| - 1]);
    }
  }

  ghost predicate Names<V>(ps: seq<Pair<V>>, k: Key) {
    exists i :: 0 <= i < |ps| && SameKey(ps[i].key, k)
  }

  lemma HoldsAdd<V>(f: map<Key, V>, p: Pair<V>, k: Key)
    ensures Holds(Add(f, p), k) <==> Holds(f, k) || SameKey(p.key, k)
  {
    var g := Add(f, p);
    if Holds(f, k) {
      var h :| h in f && SameKey(h, k);
      assert h in g;
    } else if SameKey(p.key, k) {
      assert !Holds(f, p.key);
      assert p.key in g;
    }
  }

  lemma NamesSnoc<V>(ps: seq<Pair<V>>, k: Key)
    requires ps != []
    ensures Names(ps, k) <==> Names(ps[..|ps| - 1], k) || SameKey(ps[|ps| - 1].key, k)
  {
    var n := |ps| - 1;
    if Names(ps[..n], k) {
      var i :| 0 <= i < n && SameKey(ps[..n][i].key, k);
      assert SameKey(ps[i].key, k);
    }
    if Names(ps, k) {
      var i :| 0 <= i < |ps| && SameKey(ps[i].key, k);
      assert i < n ==> ps[..n][i] == ps[i];
    }
  }

  lemma {:induction false} AddedNames<V>(ps: seq<Pair<V>>, k: Key)
    ensures Holds(FirstWins(ps), k) <==> Names(ps, k)
    decreases |ps|
  {
    if ps != [] {
      var n := |ps| - 1;
      AddedNames(ps[..n], k);
      HoldsAdd(FirstWins(ps[..n]), ps[n], k);
      NamesSnoc(ps, k);
    }
  }

  lemma SetAdd<V>(m: map<Key, V>, p: Pair<V>, q: Pair<V>)
    ensures Add(Set(m, p), q) == Set(Add(m, q), p)
  {
    var s := Set(m, p);
    if SameKey(p.key, q.key) {
      assert p.key in s && Holds(s, q.key);
      assert Set(m[q.key := q.value], p) == s;
    } else {
      assert Holds(s, q.key) == Holds(m, q.key) by {
        if Holds(m, q.key) { var h :| h in m && SameKey(h, q.key); assert h in s; }
        if Holds(s, q.key) { var h :| h in s && SameKey(h, q.key); assert h in m; }
      }
      assert Set(m[q.key := q.value], p) == s[q.key := q.value];
    }
  }

  /** An own key written after pairs a "<<" brought in is as if it had been written before them. */
  lemma {:induction false} OwnAfterMerged<V>(own: seq<Pair<V>>, p: Pair<V>, merged: seq<Pair<V>>)
    requires !Names(own, p.key)
    ensures FirstWins((own + [p]) + merged) == Set(FirstWins(own + merged), p)
    decreases |merged|
  {
    if merged == [] {
      assert (own + [p]) + merged == own + [p] && own + merged == own;
      assert (own + [p])[..|own|] == own;
      AddedNames(own, p.key);
      var f := FirstWins(own);
      forall k | k in f ensures !SameKey(k, p.key) { }
      assert Set(f, p) == f[p.key := p.value];
    } else {
      var n := |merged| - 1;
      var a, b := (own + [p]) + merged, own + merged;
      assert a[..|a| - 1] == (own + [p]) + merged[..n] && b[..|b| - 1] == own + merged[..n];
      OwnAfterMerged(own, p, merged[..n]);
      SetAdd(FirstWins(own + merged[..n]), p, merged[n]);
    }
  }

  // ---------------------------------------------------------------- what a mapping comes to

  /** The pairs a mapping writes itself, of its first i entries. */
  function OwnUpTo<V>(m: Mapping<V>, i: nat): seq<Pair<V>>
    requires i <= |m.entries|
  {
    if i == 0 then []
    else
      var e := m.entries[i - 1];
      OwnUpTo(m, i - 1) + if e.Own? then [Pair(e.key, e.value)] else []
  }

  /** Everything a mapping holds, in the order of precedence: its own pairs, then those of each "<<", an
      earlier one first and an earlier mapping of a sequence first. */
  function Flat<V>(m: Mapping<V>): seq<Pair<V>>
    decreases m, |m.entries| + 1
  {
    OwnUpTo(m, |m.entries|) + MergedUpTo(m, |m.entries|)
  }

  function MergedUpTo<V>(m: Mapping<V>, i: nat): seq<Pair<V>>
    requires i <= |m.entries|
    decreases m, i
  {
    if i == 0 then []
    else
      var e := m.entries[i - 1];
      MergedUpTo(m, i - 1) + if e.Own? then [] else SourcePairs(e.source)
  }

  function SourcePairs<V>(s: Source<V>): seq<Pair<V>>
    decreases s, 0
  {
    match s
    case One(m) => Flat(m)
    case Many(ms) => ManyUpTo(s, |ms|)
  }

  function ManyUpTo<V>(s: Source<V>, j: nat): seq<Pair<V>>
    requires s.Many? && j <= |s.mappings|
    decreases s, 0, j
  {
    if j == 0 then [] else ManyUpTo(s, j - 1) + Flat(s.mappings[j - 1])
  }

  /** No mapping writes one YAML key twice itself. */
  ghost predicate Distinct<V>(m: Mapping<V>)
    decreases m, 1
  {
    OwnApart(m) && (forall i :: 0 <= i < |m.entries| ==> DistinctEntry(m.entries[i]))
  }

  predicate OwnApart<V>(m: Mapping<V>) {
    forall i, j :: 0 <= i < j < |m.entries| ==> Apart(m.entries[i], m.entries[j])
  }

  predicate Apart<V>(a: Entry<V>, b: Entry<V>) {
    a.Own? && b.Own? ==> !SameKey(a.key, b.key)
  }

  ghost predicate DistinctEntry<V>(e: Entry<V>)
    decreases e, 1
  {
    e.Merge? ==> DistinctSource(e.source)
  }

  ghost predicate DistinctSource<V>(s: Source<V>)
    decreases s, 1
  {
    match s
    case One(m) => Distinct(m)
    case Many(ms) => forall j :: 0 <= j < |ms| ==> Distinct(ms[j])
  }

  lemma {:induction false} OwnNotNamed<V>(m: Mapping<V>, i: nat, k: nat)
    requires OwnApart(m) && i <= k < |m.entries| && m.entries[k].Own?
    ensures !Names(OwnUpTo(m, i), m.entries[k].key)
    decreases i
  {
    if i > 0 {
      OwnNotNamed(m, i - 1, k);
      assert Apart(m.entries[i - 1], m.entries[k]);
      var ps, before := OwnUpTo(m, i), OwnUpTo(m, i - 1);
      forall x | 0 <= x < |ps| ensures !SameKey(ps[x].key, m.entries[k].key) {
        if x < |before| { assert ps[x] == before[x]; }
      }
    }
  }

  // ---------------------------------------------------------------- the map a document is read into

  /** map[string]any, or map[any]any from the first key on that is no string. */
  datatype Rep<V> = Named(byName: map<string, V>) | Widened(byKey: map<Key, V>)

  function Wide<V>(m: map<string, V>): map<Key, V> {
    map k: Key | k in (set s | s in m :: Text(s)) :: m[k.name]
  }

  ghost function Abs<V>(r: Rep<V>): map<Key, V> {
    if r.Named? then Wide(r.byName) else r.byKey
  }

  ghost predicate AnyOther<V>(m: map<Key, V>) {
    exists k :: k in m && !k.Text?
  }

  /** Widened only where a key is no string; a map of names can hold none. */
  ghost predicate Settled<V>(r: Rep<V>) {
    r.Named? || AnyOther(r.byKey)
  }

  lemma OnlyText<V>(m: map<string, V>, w: map<Key, V>)
    requires Wide(m) == w
    ensures !AnyOther(w)
  {
  }

  /** Two readings that hold the same and are each widened as they should be are one reading. */
  lemma OneReading<V>(a: Rep<V>, b: Rep<V>)
    requires Abs(a) == Abs(b) && Settled(a) && Settled(b)
    ensures a == b
  {
    if a.Widened? && b.Named? { OnlyText(b.byName, a.byKey); }
    if b.Widened? && a.Named? { OnlyText(a.byName, b.byKey); }
    if a.Named? {
      forall s | s in a.byName ensures s in b.byName && a.byName[s] == b.byName[s] { assert Text(s) in Abs(a); }
      forall s | s in b.byName ensures s in a.byName { assert Text(s) in Abs(b); }
    }
  }

  lemma WideSet<V>(m: map<string, V>, s: string, v: V)
    ensures Wide(m[s := v]) == Wide(m)[Text(s) := v]
  {
    assert Text(s) in Wide(m[s := v]);
  }

  lemma HoldsIsIn<V>(m: map<Key, V>, k: Key)
    requires !k.ByValue?
    ensures Holds(m, k) <==> k in m
  {
    if k in m { assert SameKey(k, k); }
  }

  /** sameKeyIn: a scan, in whatever order, for keys Go may tell apart alone. */
  method SameKeyIn<V>(m: map<Key, V>, key: Key) returns (held: Option<Key>)
    ensures held.Some? <==> key.ByValue? && Holds(m, key)
    ensures held.Some? ==> held.value in m && SameKey(held.value, key)
  {
    if !key.ByValue? {
      return None;
    }
    var rest := m.Keys;
    while rest != {}
      invariant rest <= m.Keys
      invariant forall h :: h in m.Keys - rest ==> !SameKey(h, key)
      decreases |rest|
    {
      var h :| h in rest;
      if SameKey(h, key) {
        return Some(h);
      }
      rest := rest - {h};
    }
    return None;
  }

  /** What holds answers, for either reading. */
  method HeldIn<V>(r: Rep<V>, key: Key) returns (held: bool)
    ensures held <==> Holds(Abs(r), key)
  {
    if r.Widened? {
      if key in r.byKey {
        assert SameKey(key, key);
        return true;
      }
      var same := SameKeyIn(r.byKey, key);
      if !key.ByValue? { HoldsIsIn(r.byKey, key); }
      return same.Some?;
    }
    if !key.Text? {
      return false;
    }
    HoldsIsIn(Abs(r), key);
    return key.name in r.byName;
  }

  // ---------------------------------------------------------------- the walk

  class BuildFrame<V> {
    var rep: Rep<V>
    var key: Option<Key>
    var broughtByValue: bool

    constructor ()
      ensures rep == Named(map[]) && !broughtByValue
    {
      rep, key, broughtByValue := Named(map[]), None, false;
    }

    method Keyed(k: Key)
      modifies this`key
      ensures key == Some(k)
    {
      key := Some(k);
    }

    method Widen()
      requires rep.Named?
      modifies this`rep
      ensures rep == Widened(Wide(old(rep.byName)))
    {
      rep := Widened(Wide(rep.byName));
    }

    /** put, of a key that stands already only where a "<<" brought it in. */
    method Put(value: V)
      requires key.Some? && Settled(rep) && OneEach(Abs(rep))
      requires Holds(Abs(rep), key.value) && key.value !in Abs(rep) ==> broughtByValue
      modifies this`rep
      ensures Settled(rep) && Abs(rep) == Set(old(Abs(rep)), Pair(key.value, value))
    {
      var k := key.value;
      ghost var was := Abs(rep);
      if k.Text? && rep.Named? {
        WideSet(rep.byName, k.name, value);
        PlainSet(was, k, value);
        rep := Named(rep.byName[k.name := value]);
        return;
      }
      if rep.Named? {
        Widen();
      }
      var byKey := rep.byKey;
      assert byKey == was;
      if broughtByValue {
        var held := SameKeyIn(byKey, k);
        if held.Some? {
          OnlyHeld(was, held.value, k);
          byKey := byKey - {held.value};
        }
      }
      rep := Widened(byKey[k := value]);
      SetIs(was, byKey, k, value);
      StaysWide(was, k, value);
    }

    /** bring, of a key nothing holds. */
    method Bring(k: Key, value: V)
      requires Settled(rep) && !Holds(Abs(rep), k)
      modifies this`rep, this`broughtByValue
      ensures Settled(rep) && Abs(rep) == old(Abs(rep))[k := value]
      ensures broughtByValue == (old(broughtByValue) || k.ByValue?)
    {
      if k.Text? && rep.Named? {
        WideSet(rep.byName, k.name, value);
        rep := Named(rep.byName[k.name := value]);
        return;
      }
      if rep.Named? {
        Widen();
      }
      if k.ByValue? {
        broughtByValue := true;
      }
      ghost var was := rep.byKey;
      rep := Widened(rep.byKey[k := value]);
      KeptWide(was, k, value);
    }
  }

  lemma OnlyHeld<V>(m: map<Key, V>, held: Key, k: Key)
    requires OneEach(m) && held in m && SameKey(held, k)
    ensures forall h :: h in m && SameKey(h, k) ==> h == held
  {
    forall h | h in m && SameKey(h, k) ensures h == held { assert SameKey(h, held); }
  }

  lemma PlainSet<V>(m: map<Key, V>, k: Key, v: V)
    requires !k.ByValue?
    ensures Set(m, Pair(k, v)) == m[k := v]
  {
  }

  lemma SetIs<V>(m: map<Key, V>, left: map<Key, V>, k: Key, v: V)
    requires OneEach(m) && left.Keys <= m.Keys && (forall h <- left :: left[h] == m[h])
    requires forall h :: h in m && h !in left ==> SameKey(h, k)
    requires forall h :: h in left && SameKey(h, k) ==> h == k
    ensures left[k := v] == Set(m, Pair(k, v))
  {
  }

  lemma StaysWide<V>(m: map<Key, V>, k: Key, v: V)
    requires AnyOther(m) || !k.Text?
    ensures AnyOther(Set(m, Pair(k, v)))
  {
    var s := Set(m, Pair(k, v));
    assert k in s;
    if k.Text? {
      var h :| h in m && !h.Text?;
      assert h in s;
    }
  }

  lemma KeptWide<V>(m: map<Key, V>, k: Key, v: V)
    requires AnyOther(m) || !k.Text?
    ensures AnyOther(m[k := v])
  {
    assert k in m[k := v];
    if k.Text? {
      var h :| h in m && !h.Text?;
      assert h in m[k := v];
    }
  }

  /** merge, of one mapping already read: its pairs in whatever order Go hands them over. */
  method MergeOne<V>(top: BuildFrame<V>, source: Rep<V>)
    requires Settled(top.rep) && OneEach(Abs(top.rep)) && OneEach(Abs(source))
    modifies top`rep, top`broughtByValue
    ensures Settled(top.rep) && Abs(top.rep) == Extend(old(Abs(top.rep)), Abs(source))
    ensures Noted(old(Abs(top.rep)), Abs(top.rep), old(top.broughtByValue), top.broughtByValue)
  {
    ghost var was, f := Abs(top.rep), Abs(source);
    var pairs := if source.Named? then Wide(source.byName) else source.byKey;
    var rest := pairs.Keys;
    NothingMerged(top.rep, f);
    while rest != {}
      invariant rest <= f.Keys && MergedBut(top.rep, was, f, rest)
      invariant Noted(was, Abs(top.rep), old(top.broughtByValue), top.broughtByValue)
      decreases |rest|
    {
      var k :| k in rest;
      MergeKey(top, pairs, was, rest, k, old(top.broughtByValue));
      rest := rest - {k};
    }
    AllMerged(top.rep, was, f);
  }

  lemma NothingMerged<V>(rep: Rep<V>, f: map<Key, V>)
    requires Settled(rep)
    ensures MergedBut(rep, Abs(rep), f, f.Keys)
  {
    assert Extend(Abs(rep), Without(f, f.Keys)) == Abs(rep);
  }

  lemma AllMerged<V>(rep: Rep<V>, was: map<Key, V>, f: map<Key, V>)
    requires MergedBut(rep, was, f, {})
    ensures Abs(rep) == Extend(was, f)
  {
    assert Without(f, {}) == f;
  }

  /** What stood, and of f all but the rest. */
  ghost predicate MergedBut<V>(rep: Rep<V>, was: map<Key, V>, f: map<Key, V>, rest: set<Key>) {
    Settled(rep) && Abs(rep) == Extend(was, Without(f, rest))
  }

  method MergeKey<V>(top: BuildFrame<V>, f: map<Key, V>, ghost was: map<Key, V>, ghost rest: set<Key>, k: Key,
                     ghost noted: bool)
    requires OneEach(was) && OneEach(f) && rest <= f.Keys && k in rest && MergedBut(top.rep, was, f, rest)
    requires Noted(was, Abs(top.rep), noted, top.broughtByValue)
    modifies top`rep, top`broughtByValue
    ensures MergedBut(top.rep, was, f, rest - {k}) && Noted(was, Abs(top.rep), noted, top.broughtByValue)
  {
    var held := HeldIn(top.rep, k);
    BroughtIn(was, f, rest, k);
    if !held {
      top.Bring(k, f[k]);
    }
  }

  /** Keys Go may tell apart that were not there before are noted. */
  ghost predicate Noted<V>(was: map<Key, V>, now: map<Key, V>, noted: bool, noted': bool) {
    (noted ==> noted') && forall k :: k in now && k.ByValue? && k !in was ==> noted'
  }

  ghost function Without<V>(f: map<Key, V>, rest: set<Key>): map<Key, V> {
    map k | k in f && k !in rest :: f[k]
  }

  lemma BroughtIn<V>(m: map<Key, V>, f: map<Key, V>, rest: set<Key>, k: Key)
    requires OneEach(m) && OneEach(f) && rest <= f.Keys && k in rest
    ensures Holds(Extend(m, Without(f, rest)), k) <==> Holds(m, k)
    ensures Extend(m, Without(f, rest - {k}))
            == if Holds(m, k) then Extend(m, Without(f, rest)) else Extend(m, Without(f, rest))[k := f[k]]
  {
    HoldsExtended(m, Without(f, rest), k);
    assert !Holds(Without(f, rest), k);
    assert Without(f, rest - {k}) == Without(f, rest)[k := f[k]];
    ExtendAdd(m, Without(f, rest), Pair(k, f[k]));
  }

  /** What a "<<" was handed: a mapping read, or a sequence of them. */
  datatype Folded<V> = OneRead(rep: Rep<V>) | ManyRead(reps: seq<Rep<V>>)

  ghost predicate Reads<V>(r: Rep<V>, m: Mapping<V>) {
    Settled(r) && Abs(r) == FirstWins(Flat(m))
  }

  ghost predicate ReadsSource<V>(v: Folded<V>, s: Source<V>) {
    match s
    case One(m) => v.OneRead? && Reads(v.rep, m)
    case Many(ms) => v.ManyRead? && |v.reps| == |ms| && forall j :: 0 <= j < |ms| ==> Reads(v.reps[j], ms[j])
  }

  /** merge. */
  method MergeInto<V>(top: BuildFrame<V>, v: Folded<V>, ghost s: Source<V>)
    requires Settled(top.rep) && OneEach(Abs(top.rep)) && ReadsSource(v, s)
    modifies top`rep, top`broughtByValue
    ensures Settled(top.rep) && Abs(top.rep) == AddAll(old(Abs(top.rep)), SourcePairs(s))
    ensures Noted(old(Abs(top.rep)), Abs(top.rep), old(top.broughtByValue), top.broughtByValue)
  {
    ghost var was := Abs(top.rep);
    if v.OneRead? {
      MergePairs(top, v.rep, SourcePairs(s));
      return;
    }
    for j := 0 to |v.reps|
      invariant Settled(top.rep) && OneEach(Abs(top.rep)) && Abs(top.rep) == AddAll(was, ManyUpTo(s, j))
      invariant Noted(was, Abs(top.rep), old(top.broughtByValue), top.broughtByValue)
    {
      MergePairs(top, v.reps[j], Flat(s.mappings[j]));
      AddAllConcat(was, ManyUpTo(s, j), Flat(s.mappings[j]));
    }
  }

  method MergePairs<V>(top: BuildFrame<V>, source: Rep<V>, ghost ps: seq<Pair<V>>)
    requires Settled(top.rep) && OneEach(Abs(top.rep)) && Abs(source) == FirstWins(ps)
    modifies top`rep, top`broughtByValue
    ensures Settled(top.rep) && OneEach(Abs(top.rep)) && Abs(top.rep) == AddAll(old(Abs(top.rep)), ps)
    ensures Noted(old(Abs(top.rep)), Abs(top.rep), old(top.broughtByValue), top.broughtByValue)
  {
    FirstWinsOneEach(ps);
    AddAllIsExtend(Abs(top.rep), ps);
    AddAllOneEach(Abs(top.rep), ps);
    MergeOne(top, source);
  }

  ghost predicate OwnHas<V>(m: Mapping<V>, i: nat, k: Key)
    requires i <= |m.entries|
  {
    exists j :: 0 <= j < i && m.entries[j].Own? && m.entries[j].key == k
  }

  /** A mapping part read: its first i entries. */
  ghost predicate ReadUpTo<V>(rep: Rep<V>, noted: bool, m: Mapping<V>, i: nat)
    requires i <= |m.entries|
  {
    && Settled(rep) && Abs(rep) == FirstWins(OwnUpTo(m, i) + MergedUpTo(m, i))
    && (forall k :: k in Abs(rep) && k.ByValue? ==> noted || OwnHas(m, i, k))
  }

  /** An own key stands already only where a "<<" brought it in. */
  lemma OwnStandsBrought<V>(rep: Rep<V>, noted: bool, m: Mapping<V>, i: nat)
    requires OwnApart(m) && i < |m.entries| && m.entries[i].Own? && ReadUpTo(rep, noted, m, i)
    ensures Holds(Abs(rep), m.entries[i].key) && m.entries[i].key !in Abs(rep) ==> noted
  {
    var k := m.entries[i].key;
    if Holds(Abs(rep), k) && k !in Abs(rep) {
      var h :| h in Abs(rep) && SameKey(h, k);
      forall j | 0 <= j < i && m.entries[j].Own? ensures m.entries[j].key != h {
        assert Apart(m.entries[j], m.entries[i]);
      }
      assert h.ByValue? && !OwnHas(m, i, h);
    }
  }

  lemma OwnRead<V>(m: Mapping<V>, i: nat)
    requires OwnApart(m) && i < |m.entries| && m.entries[i].Own?
    ensures FirstWins(OwnUpTo(m, i + 1) + MergedUpTo(m, i + 1))
            == Set(FirstWins(OwnUpTo(m, i) + MergedUpTo(m, i)), Pair(m.entries[i].key, m.entries[i].value))
  {
    OwnNotNamed(m, i, i);
    OwnAfterMerged(OwnUpTo(m, i), Pair(m.entries[i].key, m.entries[i].value), MergedUpTo(m, i));
    assert MergedUpTo(m, i + 1) == MergedUpTo(m, i);
  }

  lemma MergeRead<V>(m: Mapping<V>, i: nat)
    requires i < |m.entries| && m.entries[i].Merge?
    ensures FirstWins(OwnUpTo(m, i + 1) + MergedUpTo(m, i + 1))
            == AddAll(FirstWins(OwnUpTo(m, i) + MergedUpTo(m, i)), SourcePairs(m.entries[i].source))
  {
    var o, g, s := OwnUpTo(m, i), MergedUpTo(m, i), SourcePairs(m.entries[i].source);
    assert OwnUpTo(m, i + 1) == o;
    assert o + (g + s) == (o + g) + s;
    AddAllConcat(map[], o + g, s);
  }

  lemma NothingRead<V>(m: Mapping<V>)
    ensures ReadUpTo(Named(map[]), false, m, 0)
  {
    assert OwnUpTo(m, 0) + MergedUpTo(m, 0) == [];
  }

  /** The walk reads a mapping in one pass, in document order, and comes to what the order of precedence
      says: own keys first, then each "<<", the first to write a key winning. */
  method Walked<V>(m: Mapping<V>) returns (r: Rep<V>)
    requires Distinct(m)
    ensures Settled(r) && Abs(r) == FirstWins(Flat(m))
    decreases m, 1
  {
    var top := new BuildFrame<V>();
    NothingRead(m);
    for i := 0 to |m.entries|
      invariant ReadUpTo(top.rep, top.broughtByValue, m, i)
    {
      ReadEntry(m, i, top);
    }
    r := top.rep;
  }

  method ReadEntry<V>(m: Mapping<V>, i: nat, top: BuildFrame<V>)
    requires Distinct(m) && i < |m.entries| && ReadUpTo(top.rep, top.broughtByValue, m, i)
    modifies top`rep, top`key, top`broughtByValue
    ensures ReadUpTo(top.rep, top.broughtByValue, m, i + 1)
    decreases m, 0
  {
    if m.entries[i].Own? {
      ReadOwn(m, i, top);
    } else {
      assert DistinctEntry(m.entries[i]);
      var v := WalkedSource(m.entries[i].source);
      ReadMerge(m, i, top, v);
    }
  }

  method ReadOwn<V>(m: Mapping<V>, i: nat, top: BuildFrame<V>)
    requires OwnApart(m) && i < |m.entries| && m.entries[i].Own? && ReadUpTo(top.rep, top.broughtByValue, m, i)
    modifies top`rep, top`key
    ensures ReadUpTo(top.rep, top.broughtByValue, m, i + 1)
  {
    ghost var was := Abs(top.rep);
    OwnStandsBrought(top.rep, top.broughtByValue, m, i);
    FirstWinsOneEach(OwnUpTo(m, i) + MergedUpTo(m, i));
    top.Keyed(m.entries[i].key);
    top.Put(m.entries[i].value);
    OwnRead(m, i);
    assert forall k :: OwnHas(m, i, k) ==> OwnHas(m, i + 1, k);
    assert OwnHas(m, i + 1, m.entries[i].key);
    assert forall k :: k in Abs(top.rep) ==> k in was || k == m.entries[i].key;
  }

  method ReadMerge<V>(m: Mapping<V>, i: nat, top: BuildFrame<V>, v: Folded<V>)
    requires i < |m.entries| && m.entries[i].Merge? && ReadUpTo(top.rep, top.broughtByValue, m, i)
    requires ReadsSource(v, m.entries[i].source)
    modifies top`rep, top`broughtByValue
    ensures ReadUpTo(top.rep, top.broughtByValue, m, i + 1)
  {
    FirstWinsOneEach(OwnUpTo(m, i) + MergedUpTo(m, i));
    MergeInto(top, v, m.entries[i].source);
    MergeRead(m, i);
    assert forall k :: OwnHas(m, i, k) ==> OwnHas(m, i + 1, k);
  }

  method WalkedSource<V>(s: Source<V>) returns (v: Folded<V>)
    requires DistinctSource(s)
    ensures ReadsSource(v, s)
    decreases s, 0
  {
    match s
    case One(m) =>
      var r := Walked(m);
      v := OneRead(r);
    case Many(ms) =>
      var reps: seq<Rep<V>> := [];
      for j := 0 to |ms|
        invariant |reps| == j && forall i :: 0 <= i < j ==> Reads(reps[i], ms[i])
      {
        var r := Walked(ms[j]);
        reps := reps + [r];
      }
      v := ManyRead(reps);
  }
}
