/** What a mapping read either way holds, said of the entries of the document alone: which identities
    (codec/decode.go), each under one key, and from which entry. */
module MergeKeys {
  import opened MergeFold
  import opened MergeTree
  import opened MergeOrders

  // ---------------------------------------------------------------- the identity of a key

  /** A wide number is one no 64-bit number holds, so it shares a name with none and has a kind of its own
      here. */
  datatype IdKind = NullId | StringId | BoolId | IntId | FloatId | WideIntId | WideFloatId | TimestampId | BinaryId

  datatype Identity = Identity(kind: IdKind, name: string)

  /** keyIDOf: the kind and the name a key is compared by. */
  function KeyIdOf(k: Key): Identity {
    match k
    case Text(name) => Identity(StringId, name)
    case Plain(Null, name) => Identity(NullId, name)
    case Plain(Bool, name) => Identity(BoolId, name)
    case Plain(Int, name) => Identity(IntId, name)
    case Plain(Float, name) => Identity(FloatId, name)
    case ByValue(Timestamp, name, _) => Identity(TimestampId, name)
    case ByValue(WideInt, name, _) => Identity(WideIntId, name)
    case ByValue(WideFloat, name, _) => Identity(WideFloatId, name)
    case ByValue(Binary, name, _) => Identity(BinaryId, name)
  }

  /** Two keys are one exactly where their kinds and names are; of keys Go compares as YAML does, exactly
      where they are equal. */
  lemma OneKeyOneIdentity(a: Key, b: Key)
    ensures SameKey(a, b) <==> KeyIdOf(a) == KeyIdOf(b)
    ensures !a.ByValue? || !b.ByValue? ==> (KeyIdOf(a) == KeyIdOf(b) <==> a == b)
  {
  }

  // ---------------------------------------------------------------- pairs in an order of precedence

  ghost predicate NamesId<V>(ps: seq<Pair<V>>, id: Identity) {
    exists i :: 0 <= i < |ps| && KeyIdOf(ps[i].key) == id
  }

  /** The pair is the first of its identity. */
  ghost predicate Heads<V>(ps: seq<Pair<V>>, p: Pair<V>) {
    exists i :: HeadsAt(ps, p, i)
  }

  ghost predicate HeadsAt<V>(ps: seq<Pair<V>>, p: Pair<V>, i: int) {
    0 <= i < |ps| && ps[i] == p && !NamesId(ps[..i], KeyIdOf(p.key))
  }

  lemma NamesIdConcat<V>(a: seq<Pair<V>>, b: seq<Pair<V>>, id: Identity)
    ensures NamesId(a + b, id) <==> NamesId(a, id) || NamesId(b, id)
  {
    var c := a + b;
    if NamesId(a, id) {
      var i :| 0 <= i < |a| && KeyIdOf(a[i].key) == id;
      assert c[i] == a[i];
    }
    if NamesId(b, id) {
      var i :| 0 <= i < |b| && KeyIdOf(b[i].key) == id;
      assert c[|a| + i] == b[i];
    }
  }

  lemma HeadsConcat<V>(a: seq<Pair<V>>, b: seq<Pair<V>>, p: Pair<V>)
    ensures Heads(a + b, p) <==> Heads(a, p) || (!NamesId(a, KeyIdOf(p.key)) && Heads(b, p))
  {
    var c, id := a + b, KeyIdOf(p.key);
    if i :| HeadsAt(a, p, i) {
      assert c[..i] == a[..i];
      assert HeadsAt(c, p, i);
    }
    if !NamesId(a, id) && Heads(b, p) {
      var i :| HeadsAt(b, p, i);
      assert c[..|a| + i] == a + b[..i];
      NamesIdConcat(a, b[..i], id);
      assert HeadsAt(c, p, |a| + i);
    }
    if i :| HeadsAt(c, p, i) {
      if i < |a| {
        assert c[..i] == a[..i];
        assert HeadsAt(a, p, i);
      } else {
        assert c[..i] == a + b[..i - |a|];
        NamesIdConcat(a, b[..i - |a|], id);
        assert HeadsAt(b, p, i - |a|);
      }
    }
  }

  lemma HeadsOne<V>(q: Pair<V>, p: Pair<V>)
    ensures Heads([q], p) <==> q == p
    ensures NamesId([q], KeyIdOf(p.key)) <==> KeyIdOf(q.key) == KeyIdOf(p.key)
  {
    if q == p { assert HeadsAt([q], p, 0); }
    assert [q][0] == q;
  }

  lemma HeadsNone<V>(p: Pair<V>)
    ensures !Heads([], p) && !NamesId<V>([], KeyIdOf(p.key))
  {
  }

  lemma NamesIsNamesId<V>(ps: seq<Pair<V>>, k: Key)
    ensures Names(ps, k) <==> NamesId(ps, KeyIdOf(k))
  {
    if Names(ps, k) {
      var i :| 0 <= i < |ps| && SameKey(ps[i].key, k);
      OneKeyOneIdentity(ps[i].key, k);
    }
    if NamesId(ps, KeyIdOf(k)) {
      var i :| 0 <= i < |ps| && KeyIdOf(ps[i].key) == KeyIdOf(k);
      OneKeyOneIdentity(ps[i].key, k);
    }
  }

  ghost predicate HasPair<V>(m: map<Key, V>, p: Pair<V>) {
    p.key in m && m[p.key] == p.value
  }

  /** Of pairs in an order of precedence the first of each identity stands, and nothing else. */
  lemma {:induction false} FirstWinsHeads<V>(ps: seq<Pair<V>>, p: Pair<V>)
    ensures HasPair(FirstWins(ps), p) <==> Heads(ps, p)
    decreases |ps|
  {
    if ps != [] {
      var n := |ps| - 1;
      var before, q := ps[..n], ps[n];
      FirstWinsHeads(before, p);
      AddedNames(before, q.key);
      NamesIsNamesId(before, q.key);
      HeadsConcat(before, [q], p);
      HeadsOne(q, p);
      assert before + [q] == ps;
      HeldKey(before, p);
    }
  }

  /** A key that stands is one the pairs name. */
  lemma HeldKey<V>(ps: seq<Pair<V>>, p: Pair<V>)
    ensures p.key in FirstWins(ps) ==> NamesId(ps, KeyIdOf(p.key))
  {
    if p.key in FirstWins(ps) {
      assert SameKey(p.key, p.key);
      AddedNames(ps, p.key);
      NamesIsNamesId(ps, p.key);
    }
  }

  // ---------------------------------------------------------------- what a document writes

  /** A key of the identity is written somewhere in the mapping, or in one its "<<" entries merge. */
  ghost predicate Writes<V>(m: Mapping<V>, id: Identity)
    decreases m, 1
  {
    exists i :: 0 <= i < |m.entries| && EntryWrites(m.entries[i], id)
  }

  ghost predicate EntryWrites<V>(e: Entry<V>, id: Identity)
    decreases e, 1
  {
    match e
    case Own(key, _) => KeyIdOf(key) == id
    case Merge(source) => SourceWrites(source, id)
  }

  ghost predicate SourceWrites<V>(s: Source<V>, id: Identity)
    decreases s, 1
  {
    match s
    case One(m) => Writes(m, id)
    case Many(ms) => exists j :: 0 <= j < |ms| && Writes(ms[j], id)
  }

  ghost predicate OwnWrites<V>(e: Entry<V>, id: Identity) {
    e.Own? && KeyIdOf(e.key) == id
  }

  /** Of a mapping's own entries, the i'th is the first of its identity. */
  ghost predicate OwnFirst<V>(m: Mapping<V>, p: Pair<V>, i: int) {
    && 0 <= i < |m.entries| && m.entries[i] == Own(p.key, p.value)
    && forall h :: 0 <= h < i ==> !OwnWrites(m.entries[h], KeyIdOf(p.key))
  }

  ghost predicate NoOwn<V>(m: Mapping<V>, id: Identity) {
    forall i :: 0 <= i < |m.entries| ==> !OwnWrites(m.entries[i], id)
  }

  /** By precedence the mapping holds the pair: an own entry, or, where no own entry writes its identity,
      what the first "<<" to write it brings in. */
  ghost predicate Keeps<V>(m: Mapping<V>, p: Pair<V>)
    decreases m, 1
  {
    || (exists i :: OwnFirst(m, p, i))
    || (NoOwn(m, KeyIdOf(p.key)) && exists i :: 0 <= i < |m.entries| && MergesFirst(m, m.entries[i], p, i))
  }

  ghost predicate MergesFirst<V>(m: Mapping<V>, e: Entry<V>, p: Pair<V>, i: nat)
    requires i < |m.entries| && e == m.entries[i]
    decreases m, 0, e
  {
    && e.Merge? && SourceKeeps(e.source, p)
    && forall h :: 0 <= h < i && m.entries[h].Merge? ==> !SourceWrites(m.entries[h].source, KeyIdOf(p.key))
  }

  /** Of a sequence of mappings, what the first to write the identity holds. */
  ghost predicate SourceKeeps<V>(s: Source<V>, p: Pair<V>)
    decreases s, 1
  {
    match s
    case One(m) => Keeps(m, p)
    case Many(ms) =>
      exists j :: 0 <= j < |ms| && Keeps(ms[j], p) && forall h :: 0 <= h < j ==> !Writes(ms[h], KeyIdOf(p.key))
  }

  lemma {:induction false} OwnHeads<V>(m: Mapping<V>, p: Pair<V>, n: nat)
    requires n <= |m.entries|
    ensures Heads(OwnUpTo(m, n), p) <==> exists i :: OwnFirst(m, p, i) && i < n
    ensures NamesId(OwnUpTo(m, n), KeyIdOf(p.key))
            <==> exists i :: 0 <= i < n && OwnWrites(m.entries[i], KeyIdOf(p.key))
    decreases n
  {
    if n == 0 {
      HeadsNone(p);
    } else {
      OwnHeads(m, p, n - 1);
      var e, before := m.entries[n - 1], OwnUpTo(m, n - 1);
      if e.Own? {
        HeadsConcat(before, [Pair(e.key, e.value)], p);
        NamesIdConcat(before, [Pair(e.key, e.value)], KeyIdOf(p.key));
        HeadsOne(Pair(e.key, e.value), p);
        if Heads(OwnUpTo(m, n), p) && !Heads(before, p) {
          assert OwnFirst(m, p, n - 1);
        }
      } else {
        assert OwnUpTo(m, n) == before;
      }
    }
  }

  /** What the walk's order of precedence comes to. */
  lemma {:induction false} FlatKeeps<V>(m: Mapping<V>, p: Pair<V>)
    ensures Heads(Flat(m), p) <==> Keeps(m, p)
    ensures NamesId(Flat(m), KeyIdOf(p.key)) <==> Writes(m, KeyIdOf(p.key))
    decreases m, |m.entries| + 1
  {
    var n, id := |m.entries|, KeyIdOf(p.key);
    OwnHeads(m, p, n);
    MergedKeeps(m, p, n);
    HeadsConcat(OwnUpTo(m, n), MergedUpTo(m, n), p);
    NamesIdConcat(OwnUpTo(m, n), MergedUpTo(m, n), id);
    WrittenEitherWay(m, id);
  }

  lemma WrittenEitherWay<V>(m: Mapping<V>, id: Identity)
    ensures Writes(m, id) <==> !NoOwn(m, id) || MergeWrites(m, id, |m.entries|)
  {
    if Writes(m, id) {
      var i :| 0 <= i < |m.entries| && EntryWrites(m.entries[i], id);
      assert m.entries[i].Own? ==> OwnWrites(m.entries[i], id);
    }
    if !NoOwn(m, id) {
      var i :| 0 <= i < |m.entries| && OwnWrites(m.entries[i], id);
      assert EntryWrites(m.entries[i], id);
    }
    if MergeWrites(m, id, |m.entries|) {
      var i :| 0 <= i < |m.entries| && m.entries[i].Merge? && SourceWrites(m.entries[i].source, id);
      assert EntryWrites(m.entries[i], id);
    }
  }

  /** One of the first n "<<" writes it. */
  ghost predicate MergeWrites<V>(m: Mapping<V>, id: Identity, n: nat)
    requires n <= |m.entries|
  {
    exists i :: 0 <= i < n && m.entries[i].Merge? && SourceWrites(m.entries[i].source, id)
  }

  ghost predicate MergeKeeps<V>(m: Mapping<V>, p: Pair<V>, n: nat)
    requires n <= |m.entries|
  {
    exists i :: 0 <= i < n && MergesFirst(m, m.entries[i], p, i)
  }

  lemma {:induction false} MergedKeeps<V>(m: Mapping<V>, p: Pair<V>, n: nat)
    requires n <= |m.entries|
    ensures Heads(MergedUpTo(m, n), p) <==> MergeKeeps(m, p, n)
    ensures NamesId(MergedUpTo(m, n), KeyIdOf(p.key)) <==> MergeWrites(m, KeyIdOf(p.key), n)
    decreases m, n
  {
    if n == 0 {
      HeadsNone(p);
    } else {
      MergedKeeps(m, p, n - 1);
      var e, before := m.entries[n - 1], MergedUpTo(m, n - 1);
      if e.Merge? {
        SourcePairsKeep(e.source, p);
        HeadsConcat(before, SourcePairs(e.source), p);
        NamesIdConcat(before, SourcePairs(e.source), KeyIdOf(p.key));
        MergeKeepsStep(m, p, n);
      } else {
        assert MergedUpTo(m, n) == before;
        MergeKeepsStep(m, p, n);
      }
    }
  }

  lemma MergeKeepsStep<V>(m: Mapping<V>, p: Pair<V>, n: nat)
    requires 0 < n <= |m.entries|
    ensures var e, id := m.entries[n - 1], KeyIdOf(p.key);
            && (MergeWrites(m, id, n) <==> MergeWrites(m, id, n - 1) || (e.Merge? && SourceWrites(e.source, id)))
            && (MergeKeeps(m, p, n) <==> MergeKeeps(m, p, n - 1)
                                         || (e.Merge? && !MergeWrites(m, id, n - 1) && SourceKeeps(e.source, p)))
  {
    var e, id := m.entries[n - 1], KeyIdOf(p.key);
    if e.Merge? && !MergeWrites(m, id, n - 1) && SourceKeeps(e.source, p) {
      assert MergesFirst(m, e, p, n - 1);
    }
  }

  lemma {:induction false} SourcePairsKeep<V>(s: Source<V>, p: Pair<V>)
    ensures Heads(SourcePairs(s), p) <==> SourceKeeps(s, p)
    ensures NamesId(SourcePairs(s), KeyIdOf(p.key)) <==> SourceWrites(s, KeyIdOf(p.key))
    decreases s, 0
  {
    match s
    case One(m) => FlatKeeps(m, p);
    case Many(ms) => ManyKeep(s, p, |ms|);
  }

  lemma {:induction false} ManyKeep<V>(s: Source<V>, p: Pair<V>, n: nat)
    requires s.Many? && n <= |s.mappings|
    ensures Heads(ManyUpTo(s, n), p) <==> ManyKeeps(s.mappings, p, n)
    ensures NamesId(ManyUpTo(s, n), KeyIdOf(p.key)) <==> ManyWrites(s.mappings, KeyIdOf(p.key), n)
    decreases s, 0, n
  {
    if n == 0 {
      HeadsNone(p);
    } else {
      ManyKeep(s, p, n - 1);
      var m, before := s.mappings[n - 1], ManyUpTo(s, n - 1);
      FlatKeeps(m, p);
      HeadsConcat(before, Flat(m), p);
      NamesIdConcat(before, Flat(m), KeyIdOf(p.key));
    }
  }

  ghost predicate ManyWrites<V>(ms: seq<Mapping<V>>, id: Identity, n: nat)
    requires n <= |ms|
  {
    exists j :: 0 <= j < n && Writes(ms[j], id)
  }

  ghost predicate ManyKeeps<V>(ms: seq<Mapping<V>>, p: Pair<V>, n: nat)
    requires n <= |ms|
  {
    exists j :: 0 <= j < n && Keeps(ms[j], p) && forall h :: 0 <= h < j ==> !Writes(ms[h], KeyIdOf(p.key))
  }

  // ---------------------------------------------------------------- the tree decoder's order

  /** As Keeps, but for a mapping of a sequence of them, which the tree decoder reads entry by entry. */
  ghost predicate TreeKeeps<V>(m: Mapping<V>, p: Pair<V>)
    decreases m, 1
  {
    || (exists i :: OwnFirst(m, p, i))
    || (NoOwn(m, KeyIdOf(p.key)) && exists i :: 0 <= i < |m.entries| && TreeMergesFirst(m, m.entries[i], p, i))
  }

  ghost predicate TreeMergesFirst<V>(m: Mapping<V>, e: Entry<V>, p: Pair<V>, i: nat)
    requires i < |m.entries| && e == m.entries[i]
    decreases m, 0, e
  {
    && e.Merge? && TreeSourceKeeps(e.source, p)
    && forall h :: 0 <= h < i && m.entries[h].Merge? ==> !SourceWrites(m.entries[h].source, KeyIdOf(p.key))
  }

  ghost predicate TreeSourceKeeps<V>(s: Source<V>, p: Pair<V>)
    decreases s, 1
  {
    match s
    case One(m) => TreeKeeps(m, p)
    case Many(ms) =>
      exists j :: 0 <= j < |ms| && AsWritten(ms[j], p) && forall h :: 0 <= h < j ==> !Writes(ms[h], KeyIdOf(p.key))
  }

  /** What the first entry to write the identity holds, a "<<" an entry like any other. */
  ghost predicate AsWritten<V>(m: Mapping<V>, p: Pair<V>)
    decreases m, 1
  {
    exists i :: 0 <= i < |m.entries| && WrittenFirst(m, m.entries[i], p, i)
  }

  ghost predicate WrittenFirst<V>(m: Mapping<V>, e: Entry<V>, p: Pair<V>, i: nat)
    requires i < |m.entries| && e == m.entries[i]
    decreases m, 0, e
  {
    && (if e.Own? then e == Own(p.key, p.value) else TreeSourceKeeps(e.source, p))
    && forall h :: 0 <= h < i ==> !EntryWrites(m.entries[h], KeyIdOf(p.key))
  }

  /** What the tree decoder's order of precedence comes to. */
  lemma {:induction false} TreeFlatKeeps<V>(m: Mapping<V>, p: Pair<V>)
    ensures Heads(TreeFlat(m), p) <==> TreeKeeps(m, p)
    ensures NamesId(TreeFlat(m), KeyIdOf(p.key)) <==> Writes(m, KeyIdOf(p.key))
    decreases m, |m.entries| + 2
  {
    var n, id := |m.entries|, KeyIdOf(p.key);
    OwnHeads(m, p, n);
    TreeMergedKeeps(m, p, n);
    HeadsConcat(OwnUpTo(m, n), TreeMergedUpTo(m, n), p);
    NamesIdConcat(OwnUpTo(m, n), TreeMergedUpTo(m, n), id);
    WrittenEitherWay(m, id);
  }

  ghost predicate TreeMergeKeeps<V>(m: Mapping<V>, p: Pair<V>, n: nat)
    requires n <= |m.entries|
  {
    exists i :: 0 <= i < n && TreeMergesFirst(m, m.entries[i], p, i)
  }

  lemma {:induction false} TreeMergedKeeps<V>(m: Mapping<V>, p: Pair<V>, n: nat)
    requires n <= |m.entries|
    ensures Heads(TreeMergedUpTo(m, n), p) <==> TreeMergeKeeps(m, p, n)
    ensures NamesId(TreeMergedUpTo(m, n), KeyIdOf(p.key)) <==> MergeWrites(m, KeyIdOf(p.key), n)
    decreases m, n + 1
  {
    if n == 0 {
      HeadsNone(p);
    } else {
      TreeMergedKeeps(m, p, n - 1);
      var e, before := m.entries[n - 1], TreeMergedUpTo(m, n - 1);
      MergeKeepsStep(m, p, n);
      TreeMergeKeepsStep(m, p, n);
      if e.Merge? {
        TreeSourcePairs(e.source, p);
        HeadsConcat(before, TreeSource(e.source), p);
        NamesIdConcat(before, TreeSource(e.source), KeyIdOf(p.key));
      } else {
        assert TreeMergedUpTo(m, n) == before;
      }
    }
  }

  lemma TreeMergeKeepsStep<V>(m: Mapping<V>, p: Pair<V>, n: nat)
    requires 0 < n <= |m.entries|
    ensures var e, id := m.entries[n - 1], KeyIdOf(p.key);
            TreeMergeKeeps(m, p, n) <==> TreeMergeKeeps(m, p, n - 1)
                                         || (e.Merge? && !MergeWrites(m, id, n - 1) && TreeSourceKeeps(e.source, p))
  {
    var e, id := m.entries[n - 1], KeyIdOf(p.key);
    if e.Merge? && !MergeWrites(m, id, n - 1) && TreeSourceKeeps(e.source, p) {
      assert TreeMergesFirst(m, e, p, n - 1);
    }
  }

  lemma {:induction false} TreeSourcePairs<V>(s: Source<V>, p: Pair<V>)
    ensures Heads(TreeSource(s), p) <==> TreeSourceKeeps(s, p)
    ensures NamesId(TreeSource(s), KeyIdOf(p.key)) <==> SourceWrites(s, KeyIdOf(p.key))
    decreases s, 0
  {
    match s
    case One(m) => TreeFlatKeeps(m, p);
    case Many(ms) => RawManyKeep(s, p, |ms|);
  }

  ghost predicate RawManyKeeps<V>(ms: seq<Mapping<V>>, p: Pair<V>, n: nat)
    requires n <= |ms|
  {
    exists j :: 0 <= j < n && AsWritten(ms[j], p) && forall h :: 0 <= h < j ==> !Writes(ms[h], KeyIdOf(p.key))
  }

  lemma {:induction false} RawManyKeep<V>(s: Source<V>, p: Pair<V>, n: nat)
    requires s.Many? && n <= |s.mappings|
    ensures Heads(RawManyUpTo(s, n), p) <==> RawManyKeeps(s.mappings, p, n)
    ensures NamesId(RawManyUpTo(s, n), KeyIdOf(p.key)) <==> ManyWrites(s.mappings, KeyIdOf(p.key), n)
    decreases s, 0, n
  {
    if n == 0 {
      HeadsNone(p);
    } else {
      RawManyKeep(s, p, n - 1);
      var m, before := s.mappings[n - 1], RawManyUpTo(s, n - 1);
      var raw := RawUpTo(m, |m.entries|);
      RawKeep(m, p, |m.entries|);
      HeadsConcat(before, raw, p);
      NamesIdConcat(before, raw, KeyIdOf(p.key));
    }
  }

  ghost predicate RawWrites<V>(m: Mapping<V>, id: Identity, n: nat)
    requires n <= |m.entries|
  {
    exists i :: 0 <= i < n && EntryWrites(m.entries[i], id)
  }

  ghost predicate RawKeeps<V>(m: Mapping<V>, p: Pair<V>, n: nat)
    requires n <= |m.entries|
  {
    exists i :: 0 <= i < n && WrittenFirst(m, m.entries[i], p, i)
  }

  lemma {:induction false} RawKeep<V>(m: Mapping<V>, p: Pair<V>, n: nat)
    requires n <= |m.entries|
    ensures Heads(RawUpTo(m, n), p) <==> RawKeeps(m, p, n)
    ensures NamesId(RawUpTo(m, n), KeyIdOf(p.key)) <==> RawWrites(m, KeyIdOf(p.key), n)
    decreases m, n + 1
  {
    if n == 0 {
      HeadsNone(p);
    } else {
      RawKeep(m, p, n - 1);
      var e, before, id := m.entries[n - 1], RawUpTo(m, n - 1), KeyIdOf(p.key);
      var more := if e.Own? then [Pair(e.key, e.value)] else TreeSource(e.source);
      if e.Own? { HeadsOne(Pair(e.key, e.value), p); } else { TreeSourcePairs(e.source, p); }
      HeadsConcat(before, more, p);
      NamesIdConcat(before, more, id);
      RawKeepsStep(m, p, n);
    }
  }

  lemma RawKeepsStep<V>(m: Mapping<V>, p: Pair<V>, n: nat)
    requires 0 < n <= |m.entries|
    ensures var e, id := m.entries[n - 1], KeyIdOf(p.key);
            && (RawWrites(m, id, n) <==> RawWrites(m, id, n - 1) || EntryWrites(e, id))
            && (RawKeeps(m, p, n) <==>
                  RawKeeps(m, p, n - 1)
                  || (!RawWrites(m, id, n - 1)
                      && if e.Own? then e == Own(p.key, p.value) else TreeSourceKeeps(e.source, p)))
  {
    var e, id := m.entries[n - 1], KeyIdOf(p.key);
    if !RawWrites(m, id, n - 1) && if e.Own? then e == Own(p.key, p.value) else TreeSourceKeeps(e.source, p) {
      assert WrittenFirst(m, e, p, n - 1);
    }
  }

  // ---------------------------------------------------------------- what the two readings hold

  /** One key of each identity written, and no other. */
  ghost predicate OneOfEach<V>(m: Mapping<V>, r: map<Key, V>) {
    && (forall k :: k in r ==> Writes(m, KeyIdOf(k)))
    && (forall a, b {:trigger KeyIdOf(a), KeyIdOf(b)} :: a in r && b in r && KeyIdOf(a) == KeyIdOf(b) ==> a == b)
    && (forall id :: Writes(m, id) ==> Held(r, id))
  }

  ghost predicate Held<V>(r: map<Key, V>, id: Identity) {
    exists k :: k in r && KeyIdOf(k) == id
  }

  lemma EachHeld<V>(ps: seq<Pair<V>>, id: Identity)
    requires NamesId(ps, id)
    ensures Held(FirstWins(ps), id)
  {
    var i :| 0 <= i < |ps| && KeyIdOf(ps[i].key) == id;
    NamesIsNamesId(ps, ps[i].key);
    AddedNames(ps, ps[i].key);
    var k :| k in FirstWins(ps) && SameKey(k, ps[i].key);
    OneKeyOneIdentity(k, ps[i].key);
  }

  lemma FirstWinsEach<V>(m: Mapping<V>, ps: seq<Pair<V>>)
    requires forall id :: NamesId(ps, id) <==> Writes(m, id)
    ensures OneOfEach(m, FirstWins(ps))
  {
    var r := FirstWins(ps);
    forall k | k in r ensures Writes(m, KeyIdOf(k)) {
      HeldKey(ps, Pair(k, r[k]));
    }
    FirstWinsOneEach(ps);
    forall a, b | a in r && b in r && KeyIdOf(a) == KeyIdOf(b) ensures a == b {
      OneKeyOneIdentity(a, b);
    }
    forall id | Writes(m, id) ensures Held(r, id) {
      EachHeld(ps, id);
    }
  }

  /** An entry that writes the identity. */
  lemma {:induction false} SomePair<V>(m: Mapping<V>, id: Identity) returns (p: Pair<V>)
    requires Writes(m, id)
    ensures KeyIdOf(p.key) == id
    decreases m, 1
  {
    var i :| 0 <= i < |m.entries| && EntryWrites(m.entries[i], id);
    match m.entries[i]
    case Own(key, value) => p := Pair(key, value);
    case Merge(source) =>
      assert SourceWrites(source, id);
      match source
      case One(inner) => p := SomePair(inner, id);
      case Many(ms) =>
        var j :| 0 <= j < |ms| && Writes(ms[j], id);
        p := SomePair(ms[j], id);
  }

  /** Both orders name what the document writes. */
  lemma BothName<V>(m: Mapping<V>, id: Identity)
    ensures NamesId(Flat(m), id) <==> Writes(m, id)
    ensures NamesId(TreeFlat(m), id) <==> Writes(m, id)
  {
    if Writes(m, id) {
      var p := SomePair(m, id);
      FlatKeeps(m, p);
      TreeFlatKeeps(m, p);
    }
    if NamesId(Flat(m), id) {
      var i :| 0 <= i < |Flat(m)| && KeyIdOf(Flat(m)[i].key) == id;
      FlatKeeps(m, Flat(m)[i]);
    }
    if NamesId(TreeFlat(m), id) {
      var i :| 0 <= i < |TreeFlat(m)| && KeyIdOf(TreeFlat(m)[i].key) == id;
      TreeFlatKeeps(m, TreeFlat(m)[i]);
    }
  }

  /** Every identity written anywhere in a document is held under exactly one key by either reading, no key
      gives way to one of another identity, and each key stands with the value of the entry that precedence
      says it is read from. */
  lemma BothHoldEach<V>(m: Mapping<V>)
    ensures OneOfEach(m, FirstWins(Flat(m))) && OneOfEach(m, FirstWins(TreeFlat(m)))
    ensures forall p :: HasPair(FirstWins(Flat(m)), p) <==> Keeps(m, p)
    ensures forall p :: HasPair(FirstWins(TreeFlat(m)), p) <==> TreeKeeps(m, p)
  {
    forall p ensures HasPair(FirstWins(Flat(m)), p) <==> Keeps(m, p) {
      FlatKeeps(m, p);
      FirstWinsHeads(Flat(m), p);
    }
    forall p ensures HasPair(FirstWins(TreeFlat(m)), p) <==> TreeKeeps(m, p) {
      TreeFlatKeeps(m, p);
      FirstWinsHeads(TreeFlat(m), p);
    }
    forall id ensures (NamesId(Flat(m), id) <==> Writes(m, id)) && (NamesId(TreeFlat(m), id) <==> Writes(m, id)) {
      BothName(m, id);
    }
    FirstWinsEach(m, Flat(m));
    FirstWinsEach(m, TreeFlat(m));
  }

  /** A document read both ways: what the two readings hold. */
  method ReadEach<V>(m: Mapping<V>) returns (walk: Rep<V>, tree: Rep<V>)
    requires Distinct(m)
    ensures OneOfEach(m, Abs(walk)) && OneOfEach(m, Abs(tree))
    ensures forall p :: HasPair(Abs(walk), p) <==> Keeps(m, p)
    ensures forall p :: HasPair(Abs(tree), p) <==> TreeKeeps(m, p)
  {
    walk := Walked(m);
    tree := TreeRead(m);
    BothHoldEach(m);
  }

  /** "{<<: {2001-01-01: 1}, 2001-01-02: 2}": two timestamps, both held. */
  lemma TwoDaysHeld(first: Key, second: Key, inner: Mapping<int>, m: Mapping<int>)
    requires first == ByValue(Timestamp, "2001-01-01T00:00:00Z", 0)
    requires second == ByValue(Timestamp, "2001-01-02T00:00:00Z", 0)
    requires inner == Mapping([Own(first, 1)]) && m == Mapping([Merge(One(inner)), Own(second, 2)])
    ensures Distinct(m) && HasPair(FirstWins(Flat(m)), Pair(first, 1)) && HasPair(FirstWins(Flat(m)), Pair(second, 2))
  {
    assert "2001-01-01T00:00:00Z"[9] != "2001-01-02T00:00:00Z"[9];
    OneMergeDistinct(inner, m, first, second);
    assert OwnFirst(m, Pair(second, 2), 1) && OwnFirst(inner, Pair(first, 1), 0);
    KeptThroughMerge(inner, m, Pair(first, 1));
    FlatKeeps(m, Pair(first, 1));
    FirstWinsHeads(Flat(m), Pair(first, 1));
    FlatKeeps(m, Pair(second, 2));
    FirstWinsHeads(Flat(m), Pair(second, 2));
  }

  lemma OneMergeDistinct(inner: Mapping<int>, m: Mapping<int>, first: Key, second: Key)
    requires inner == Mapping([Own(first, 1)]) && m == Mapping([Merge(One(inner)), Own(second, 2)])
    ensures Distinct(m)
  {
    assert OwnApart(inner) && DistinctEntry(inner.entries[0]);
    assert Distinct(inner);
    assert DistinctSource(One(inner));
    assert DistinctEntry(m.entries[0]) && DistinctEntry(m.entries[1]);
  }

  lemma KeptThroughMerge<V>(inner: Mapping<V>, m: Mapping<V>, p: Pair<V>)
    requires m.entries != [] && m.entries[0] == Merge(One(inner)) && Keeps(inner, p) && NoOwn(m, KeyIdOf(p.key))
    ensures Keeps(m, p)
  {
    assert SourceKeeps(One(inner), p);
    assert MergesFirst(m, m.entries[0], p, 0);
  }
}
