/** The two orders of reading a mapping with "<<" against each other: the walk's (codec/walkvalue.go), and
    the tree decoder's, which flattens a sequence of mappings in the order it is written (codec/decode.go). */
module MergeOrders {
  import opened MergeFold
  import opened MergeTree

  // ---------------------------------------------------------------- which pair a key is read from

  /** The first pair of a YAML key. */
  ghost function First<V>(ps: seq<Pair<V>>, k: Key): Option<Pair<V>> {
    if ps == [] then None
    else
      var n := |ps| - 1;
      var first := First(ps[..n], k);
      if first.Some? then first else if SameKey(ps[n].key, k) then Some(ps[n]) else None
  }

  lemma {:induction false} FirstConcat<V>(a: seq<Pair<V>>, b: seq<Pair<V>>, k: Key)
    ensures First(a + b, k) == if First(a, k).Some? then First(a, k) else First(b, k)
    decreases |b|
  {
    if b == [] {
      assert a + b == a;
    } else {
      var n := |b| - 1;
      assert (a + b)[..|a| + n] == a + b[..n];
      FirstConcat(a, b[..n], k);
    }
  }

  lemma FirstSnoc<V>(ps: seq<Pair<V>>, p: Pair<V>, k: Key)
    ensures First(ps + [p], k)
            == if First(ps, k).Some? then First(ps, k) else if SameKey(p.key, k) then Some(p) else None
  {
    assert (ps + [p])[..|ps|] == ps;
  }

  /** The pair that stands in the map the pairs come to. */
  ghost predicate Stands<V>(m: map<Key, V>, k: Key, p: Option<Pair<V>>) {
    if p.None? then !Holds(m, k) else SameKey(p.value.key, k) && p.value.key in m && m[p.value.key] == p.value.value
  }

  lemma {:induction false} FirstStands<V>(ps: seq<Pair<V>>, k: Key)
    ensures Stands(FirstWins(ps), k, First(ps, k))
    decreases |ps|
  {
    if ps != [] {
      var n := |ps| - 1;
      var f := FirstWins(ps[..n]);
      FirstStands(ps[..n], k);
      HoldsAdd(f, ps[n], k);
      var first := First(ps[..n], k);
      if first.Some? {
        if first.value.key == ps[n].key { assert SameKey(first.value.key, ps[n].key) && Holds(f, ps[n].key); }
      } else if SameKey(ps[n].key, k) {
        NotHeld(f, ps[n].key, k);
      }
    }
  }

  lemma NotHeld<V>(m: map<Key, V>, a: Key, k: Key)
    requires SameKey(a, k) && !Holds(m, k)
    ensures !Holds(m, a)
  {
    if Holds(m, a) {
      var h :| h in m && SameKey(h, a);
      assert SameKey(h, k);
    }
  }

  /** Every key is read from equal pairs. */
  ghost predicate Alike<V>(a: seq<Pair<V>>, b: seq<Pair<V>>) {
    forall k: Key :: First(a, k) == First(b, k)
  }

  /** Two lists of pairs come to one map if and only if every key is read from equal pairs. */
  lemma SameReading<V>(a: seq<Pair<V>>, b: seq<Pair<V>>)
    ensures FirstWins(a) == FirstWins(b) <==> Alike(a, b)
  {
    FirstWinsOneEach(a);
    FirstWinsOneEach(b);
    if FirstWins(a) == FirstWins(b) {
      forall k: Key ensures First(a, k) == First(b, k) {
        FirstStands(a, k);
        FirstStands(b, k);
        OneStands(FirstWins(a), k, First(a, k), First(b, k));
      }
    }
    if Alike(a, b) {
      MapFrom(a, b);
      MapFrom(b, a);
      assert FirstWins(a).Keys == FirstWins(b).Keys;
    }
  }

  lemma OneStands<V>(m: map<Key, V>, k: Key, p: Option<Pair<V>>, q: Option<Pair<V>>)
    requires OneEach(m) && Stands(m, k, p) && Stands(m, k, q)
    ensures p == q
  {
    if p.Some? && q.Some? { assert SameKey(p.value.key, q.value.key); }
  }

  lemma MapFrom<V>(a: seq<Pair<V>>, b: seq<Pair<V>>)
    requires Alike(a, b)
    ensures var m, n := FirstWins(a), FirstWins(b); forall k :: k in m ==> k in n && n[k] == m[k]
  {
    var m := FirstWins(a);
    FirstWinsOneEach(a);
    forall k | k in m ensures k in FirstWins(b) && FirstWins(b)[k] == m[k] {
      FirstStands(a, k);
      FirstStands(b, k);
      assert SameKey(k, k) && Holds(m, k);
      assert SameKey(First(a, k).value.key, k);
    }
  }

  // ---------------------------------------------------------------- when the two readings part

  /** An own entry of a mapping, and the pair of its key that a "<<" in front of it brings in. */
  datatype Clash<V> = Clash(own: Pair<V>, front: Pair<V>)

  /** Followed to the place it is read from, a key comes to a mapping of a sequence in which an own entry of
      the key stands behind a "<<" that names it. */
  ghost function Overtaken<V>(m: Mapping<V>, k: Key): Option<Clash<V>>
    decreases m, |m.entries| + 2
  {
    if First(OwnUpTo(m, |m.entries|), k).Some? then None else OvertakenUpTo(m, k, |m.entries|)
  }

  ghost function OvertakenUpTo<V>(m: Mapping<V>, k: Key, i: nat): Option<Clash<V>>
    requires i <= |m.entries|
    decreases m, i + 1
  {
    if i == 0 then None
    else if First(MergedUpTo(m, i - 1), k).Some? then OvertakenUpTo(m, k, i - 1)
    else if m.entries[i - 1].Own? then None
    else OvertakenSource(m.entries[i - 1].source, k)
  }

  ghost function OvertakenSource<V>(s: Source<V>, k: Key): Option<Clash<V>>
    decreases s, 0
  {
    match s
    case One(m) => Overtaken(m, k)
    case Many(ms) => OvertakenMany(s, k, |ms|)
  }

  ghost function OvertakenMany<V>(s: Source<V>, k: Key, j: nat): Option<Clash<V>>
    requires s.Many? && j <= |s.mappings|
    decreases s, 0, j
  {
    if j == 0 then None
    else if First(ManyUpTo(s, j - 1), k).Some? then OvertakenMany(s, k, j - 1)
    else OvertakenRaw(s.mappings[j - 1], k, |s.mappings[j - 1].entries|)
  }

  /** In a mapping of a sequence: the first entry to name the key is a "<<", and an own one names it too. */
  ghost function OvertakenRaw<V>(m: Mapping<V>, k: Key, i: nat): Option<Clash<V>>
    requires i <= |m.entries|
    decreases m, i + 1
  {
    if i == 0 then None
    else if First(RawUpTo(m, i - 1), k).Some? then OvertakenRaw(m, k, i - 1)
    else if m.entries[i - 1].Own? then None
    else
      var own, front := First(OwnUpTo(m, |m.entries|), k), First(TreeSource(m.entries[i - 1].source), k);
      if own.None? then OvertakenSource(m.entries[i - 1].source, k)
      else if front.None? then None else Some(Clash(own.value, front.value))
  }

  /** What the walk and the tree read a key from: the same pair, or the two that clash. */
  ghost predicate ReadFrom<V>(walk: Option<Pair<V>>, tree: Option<Pair<V>>, c: Option<Clash<V>>) {
    if c.None? then walk == tree else walk == Some(c.value.own) && tree == Some(c.value.front)
  }

  lemma {:induction false} FlatReadFrom<V>(m: Mapping<V>, k: Key)
    ensures ReadFrom(First(Flat(m), k), First(TreeFlat(m), k), Overtaken(m, k))
    decreases m, |m.entries| + 2
  {
    var n := |m.entries|;
    MergedReadFrom(m, k, n);
    FirstConcat(OwnUpTo(m, n), MergedUpTo(m, n), k);
    FirstConcat(OwnUpTo(m, n), TreeMergedUpTo(m, n), k);
  }

  lemma {:induction false} MergedReadFrom<V>(m: Mapping<V>, k: Key, i: nat)
    requires i <= |m.entries|
    ensures ReadFrom(First(MergedUpTo(m, i), k), First(TreeMergedUpTo(m, i), k), OvertakenUpTo(m, k, i))
    decreases m, i + 1
  {
    if i > 0 {
      MergedReadFrom(m, k, i - 1);
      var e := m.entries[i - 1];
      if e.Merge? {
        SourceReadFrom(e.source, k);
        FirstConcat(MergedUpTo(m, i - 1), SourcePairs(e.source), k);
        FirstConcat(TreeMergedUpTo(m, i - 1), TreeSource(e.source), k);
      } else {
        assert MergedUpTo(m, i) == MergedUpTo(m, i - 1) && TreeMergedUpTo(m, i) == TreeMergedUpTo(m, i - 1);
      }
    }
  }

  lemma {:induction false} SourceReadFrom<V>(s: Source<V>, k: Key)
    ensures ReadFrom(First(SourcePairs(s), k), First(TreeSource(s), k), OvertakenSource(s, k))
    decreases s, 0
  {
    match s
    case One(m) => FlatReadFrom(m, k);
    case Many(ms) => ManyReadFrom(s, k, |ms|);
  }

  lemma {:induction false} ManyReadFrom<V>(s: Source<V>, k: Key, j: nat)
    requires s.Many? && j <= |s.mappings|
    ensures ReadFrom(First(ManyUpTo(s, j), k), First(RawManyUpTo(s, j), k), OvertakenMany(s, k, j))
    decreases s, 0, j
  {
    if j > 0 {
      var m := s.mappings[j - 1];
      ManyReadFrom(s, k, j - 1);
      RawReadFrom(m, k, |m.entries|);
      FirstConcat(OwnUpTo(m, |m.entries|), MergedUpTo(m, |m.entries|), k);
      FirstConcat(ManyUpTo(s, j - 1), Flat(m), k);
      FirstConcat(RawManyUpTo(s, j - 1), RawUpTo(m, |m.entries|), k);
    }
  }

  /** What the walk reads a key of a mapping from, if it reads it from an own entry or from one of the first
      i "<<". */
  ghost function WalkUpTo<V>(m: Mapping<V>, k: Key, i: nat): Option<Pair<V>>
    requires i <= |m.entries|
  {
    var own := First(OwnUpTo(m, |m.entries|), k);
    if own.Some? then own else First(MergedUpTo(m, i), k)
  }

  /** The first i entries in the order they are written. */
  lemma {:induction false} RawReadFrom<V>(m: Mapping<V>, k: Key, i: nat)
    requires i <= |m.entries|
    ensures var raw := First(RawUpTo(m, i), k);
            if raw.None? then
              OvertakenRaw(m, k, i).None? && First(OwnUpTo(m, i), k).None? && First(MergedUpTo(m, i), k).None?
            else ReadFrom(WalkUpTo(m, k, i), raw, OvertakenRaw(m, k, i))
    decreases m, i + 1
  {
    if i > 0 {
      RawReadFrom(m, k, i - 1);
      var e := m.entries[i - 1];
      if e.Own? {
        RawOwn(m, k, i);
      } else {
        SourceReadFrom(e.source, k);
        FirstConcat(RawUpTo(m, i - 1), TreeSource(e.source), k);
        FirstConcat(MergedUpTo(m, i - 1), SourcePairs(e.source), k);
        assert OwnUpTo(m, i) == OwnUpTo(m, i - 1);
      }
    }
  }

  /** An own entry, behind entries read as they should be. */
  lemma RawOwn<V>(m: Mapping<V>, k: Key, i: nat)
    requires 0 < i <= |m.entries| && m.entries[i - 1].Own?
    requires First(RawUpTo(m, i - 1), k).None? ==> First(OwnUpTo(m, i - 1), k).None?
    ensures MergedUpTo(m, i) == MergedUpTo(m, i - 1)
    ensures First(RawUpTo(m, i - 1), k).Some? ==> First(RawUpTo(m, i), k) == First(RawUpTo(m, i - 1), k)
    ensures First(RawUpTo(m, i - 1), k).None? ==> First(RawUpTo(m, i), k) == First(OwnUpTo(m, i), k)
    ensures First(OwnUpTo(m, i), k).Some? ==> First(OwnUpTo(m, |m.entries|), k) == First(OwnUpTo(m, i), k)
  {
    var p := Pair(m.entries[i - 1].key, m.entries[i - 1].value);
    FirstSnoc(RawUpTo(m, i - 1), p, k);
    FirstSnoc(OwnUpTo(m, i - 1), p, k);
    OwnPrefix(m, k, i, |m.entries|);
  }

  lemma {:induction false} OwnPrefix<V>(m: Mapping<V>, k: Key, i: nat, n: nat)
    requires i <= n <= |m.entries|
    ensures First(OwnUpTo(m, i), k).Some? ==> First(OwnUpTo(m, n), k) == First(OwnUpTo(m, i), k)
    decreases n
  {
    if i < n {
      OwnPrefix(m, k, i, n - 1);
      var e := m.entries[n - 1];
      if e.Own? {
        FirstSnoc(OwnUpTo(m, n - 1), Pair(e.key, e.value), k);
      } else {
        assert OwnUpTo(m, n) == OwnUpTo(m, n - 1);
      }
    }
  }

  /** No key is read from an own entry that a "<<" in front of it overtakes with another pair. */
  ghost predicate NoneOvertaken<V>(m: Mapping<V>) {
    forall k: Key :: Harmless(Overtaken(m, k))
  }

  ghost predicate Harmless<V>(c: Option<Clash<V>>) {
    c.Some? ==> c.value.own == c.value.front
  }

  /** The walk and the tree read a mapping alike if and only if that is so. */
  lemma ReadAlike<V>(m: Mapping<V>)
    ensures FirstWins(Flat(m)) == FirstWins(TreeFlat(m)) <==> NoneOvertaken(m)
  {
    SameReading(Flat(m), TreeFlat(m));
    forall k: Key
      ensures First(Flat(m), k) == First(TreeFlat(m), k) <==> Harmless(Overtaken(m, k))
    {
      FlatReadFrom(m, k);
    }
    if NoneOvertaken(m) {
      forall k: Key ensures First(Flat(m), k) == First(TreeFlat(m), k) { assert Harmless(Overtaken(m, k)); }
    }
    if Alike(Flat(m), TreeFlat(m)) {
      forall k: Key ensures Harmless(Overtaken(m, k)) { assert First(Flat(m), k) == First(TreeFlat(m), k); }
    }
  }

  // ---------------------------------------------------------------- when the two orders are one

  /** Own entries stand in front of every "<<". */
  ghost predicate OwnInFront<V>(m: Mapping<V>) {
    forall i, j :: 0 <= i < j < |m.entries| && m.entries[j].Own? ==> m.entries[i].Own?
  }

  /** Each mapping a "<<" names in a sequence writes its own entries in front of its own "<<". */
  ghost predicate InOrder<V>(m: Mapping<V>)
    decreases m
  {
    forall i :: 0 <= i < |m.entries| && m.entries[i].Merge? ==> SourceInOrder(m.entries[i].source)
  }

  ghost predicate SourceInOrder<V>(s: Source<V>)
    decreases s
  {
    match s
    case One(m) => InOrder(m)
    case Many(ms) => forall j :: 0 <= j < |ms| ==> OwnInFront(ms[j]) && InOrder(ms[j])
  }

  lemma {:induction false} FlatInOrder<V>(m: Mapping<V>)
    requires InOrder(m)
    ensures TreeFlat(m) == Flat(m)
    decreases m, |m.entries| + 2
  {
    MergedInOrder(m, |m.entries|);
  }

  lemma {:induction false} MergedInOrder<V>(m: Mapping<V>, i: nat)
    requires InOrder(m) && i <= |m.entries|
    ensures TreeMergedUpTo(m, i) == MergedUpTo(m, i)
    decreases m, i + 1
  {
    if i > 0 {
      MergedInOrder(m, i - 1);
      if m.entries[i - 1].Merge? { SourceFlatInOrder(m.entries[i - 1].source); }
    }
  }

  lemma {:induction false} SourceFlatInOrder<V>(s: Source<V>)
    requires SourceInOrder(s)
    ensures TreeSource(s) == SourcePairs(s)
    decreases s, 0
  {
    match s
    case One(m) => FlatInOrder(m);
    case Many(ms) => ManyInOrder(s, |ms|);
  }

  lemma {:induction false} ManyInOrder<V>(s: Source<V>, j: nat)
    requires s.Many? && SourceInOrder(s) && j <= |s.mappings|
    ensures RawManyUpTo(s, j) == ManyUpTo(s, j)
    decreases s, 0, j
  {
    if j > 0 {
      ManyInOrder(s, j - 1);
      var m := s.mappings[j - 1];
      RawInOrder(m, |m.entries|);
      MergedInOrder(m, |m.entries|);
    }
  }

  lemma {:induction false} RawInOrder<V>(m: Mapping<V>, i: nat)
    requires OwnInFront(m) && i <= |m.entries|
    ensures RawUpTo(m, i) == OwnUpTo(m, i) + TreeMergedUpTo(m, i)
    decreases i
  {
    if i > 0 {
      RawInOrder(m, i - 1);
      var o, g := OwnUpTo(m, i - 1), TreeMergedUpTo(m, i - 1);
      if m.entries[i - 1].Own? {
        NoneMerged(m, i - 1);
        assert o + g == o;
      } else {
        var s := TreeSource(m.entries[i - 1].source);
        assert (o + g) + s == o + (g + s);
      }
    }
  }

  lemma {:induction false} NoneMerged<V>(m: Mapping<V>, i: nat)
    requires OwnInFront(m) && i < |m.entries| && m.entries[i].Own?
    ensures forall k :: 0 <= k <= i ==> TreeMergedUpTo(m, k) == []
  {
    var k := 0;
    while k < i
      invariant k <= i && forall j :: 0 <= j <= k ==> TreeMergedUpTo(m, j) == []
    {
      assert m.entries[k].Own?;
      k := k + 1;
    }
  }

  /** It is so where each mapping a "<<" names in a sequence writes its own entries in front of its "<<". */
  lemma InOrderReadAlike<V>(m: Mapping<V>)
    requires InOrder(m)
    ensures NoneOvertaken(m)
  {
    FlatInOrder(m);
    ReadAlike(m);
  }

  /** Where it is not so the two readings part: a "<<" over a sequence of one mapping that itself merges
      x: 1 and only then writes x: 2. */
  lemma OrdersPart(inner: Mapping<int>, source: Mapping<int>, m: Mapping<int>, x: Key)
    requires x == Text("x") && inner == Mapping([Own(x, 1)]) && source == Mapping([Merge(One(inner)), Own(x, 2)])
    requires m == Mapping([Merge(Many([source]))])
    ensures Distinct(m) && !InOrder(m) && !NoneOvertaken(m)
    ensures FirstWins(Flat(m)) == map[x := 2] && FirstWins(TreeFlat(m)) == map[x := 1]
  {
    var one, two, s := Pair(x, 1), Pair(x, 2), m.entries[0].source;
    InnerPairs(inner, one);
    SourceBoth(source, inner, one, two);
    ManyPairs(m, s, source, [two, one], [one, two]);
    FirstOfTwo(two, one);
    FirstOfTwo(one, two);
    DistinctMerged(inner, source, m, s);
    ReadAlike(m);
    assert map[x := 2][x] != map[x := 1][x];
  }

  lemma InnerPairs(inner: Mapping<int>, one: Pair<int>)
    requires inner == Mapping([Own(one.key, one.value)])
    ensures Flat(inner) == [one] && TreeFlat(inner) == [one]
  {
    assert OwnUpTo(inner, 1) == OwnUpTo(inner, 0) + [one];
    assert MergedUpTo(inner, 1) == MergedUpTo(inner, 0) + []
           && TreeMergedUpTo(inner, 1) == TreeMergedUpTo(inner, 0) + [];
  }

  lemma SourceBoth(source: Mapping<int>, inner: Mapping<int>, one: Pair<int>, two: Pair<int>)
    requires source == Mapping([Merge(One(inner)), Own(two.key, two.value)]) && Flat(inner) == [one]
    requires TreeFlat(inner) == [one]
    ensures Flat(source) == [two, one] && RawUpTo(source, 2) == [one, two]
  {
    assert OwnUpTo(source, 1) == OwnUpTo(source, 0) + [] && OwnUpTo(source, 2) == OwnUpTo(source, 1) + [two];
    assert MergedUpTo(source, 1) == MergedUpTo(source, 0) + [one]
           && MergedUpTo(source, 2) == MergedUpTo(source, 1) + [];
    assert RawUpTo(source, 1) == RawUpTo(source, 0) + [one] && RawUpTo(source, 2) == RawUpTo(source, 1) + [two];
  }

  lemma ManyPairs(m: Mapping<int>, s: Source<int>, source: Mapping<int>, flat: seq<Pair<int>>, raw: seq<Pair<int>>)
    requires s == Many([source]) && m == Mapping([Merge(s)]) && |source.entries| == 2
    requires Flat(source) == flat && RawUpTo(source, 2) == raw
    ensures Flat(m) == flat && TreeFlat(m) == raw
  {
    assert ManyUpTo(s, 1) == ManyUpTo(s, 0) + flat && RawManyUpTo(s, 1) == RawManyUpTo(s, 0) + raw;
    assert OwnUpTo(m, 1) == OwnUpTo(m, 0) + [];
    assert MergedUpTo(m, 1) == MergedUpTo(m, 0) + SourcePairs(s)
           && TreeMergedUpTo(m, 1) == TreeMergedUpTo(m, 0) + TreeSource(s);
  }

  lemma DistinctMerged(inner: Mapping<int>, source: Mapping<int>, m: Mapping<int>, s: Source<int>)
    requires inner.entries == [Own(Text("x"), 1)] && source.entries == [Merge(One(inner)), Own(Text("x"), 2)]
    requires s == Many([source]) && m.entries == [Merge(s)]
    ensures Distinct(m) && !InOrder(m)
  {
    assert Distinct(inner) && DistinctSource(One(inner));
    assert Distinct(source) && DistinctSource(s);
    assert source.entries[1].Own? && !source.entries[0].Own?;
    assert !OwnInFront(s.mappings[0]);
    assert m.entries[0].Merge? && !SourceInOrder(m.entries[0].source);
  }

  lemma FirstOfTwo(p: Pair<int>, q: Pair<int>)
    requires p.key == q.key
    ensures FirstWins([p, q]) == map[p.key := p.value]
  {
    var none: seq<Pair<int>>, empty: map<Key, int> := [], map[];
    assert [p, q][..1] == [p] && [p][..0] == none;
    assert !Holds(empty, p.key);
    assert AddAll(empty, [p]) == Add(AddAll(empty, none), p) == map[p.key := p.value];
    assert p.key in map[p.key := p.value] && SameKey(p.key, q.key);
    assert Holds(map[p.key := p.value], q.key);
  }

  /** A document read through the walk and through the tree comes back the same, widened in both or in
      neither, if and only if no key is read from an own entry of a mapping in a sequence behind a "<<"
      that brings another pair of it in. */
  method ReadBothWays<V>(m: Mapping<V>) returns (walk: Rep<V>, tree: Rep<V>)
    requires Distinct(m)
    ensures Abs(walk) == FirstWins(Flat(m)) && Abs(tree) == FirstWins(TreeFlat(m))
    ensures walk == tree <==> NoneOvertaken(m)
  {
    walk := Walked(m);
    tree := TreeRead(m);
    ReadAlike(m);
    if NoneOvertaken(m) {
      OneReading(walk, tree);
    }
  }
}
