/** The same mapping read from the tree, own entries first (codec/decode.go), and looked up in it
    (ast/lookup.go). */
module MergeTree {
  import opened MergeFold

  // ---------------------------------------------------------------- what the tree decoder reads, in order

  /** The pairs of a mapping as eachEntryOwnFirst hands them over. */
  function TreeFlat<V>(m: Mapping<V>): seq<Pair<V>>
    decreases m, |m.entries| + 2
  {
    OwnUpTo(m, |m.entries|) + TreeMergedUpTo(m, |m.entries|)
  }

  function TreeMergedUpTo<V>(m: Mapping<V>, i: nat): seq<Pair<V>>
    requires i <= |m.entries|
    decreases m, i + 1
  {
    if i == 0 then []
    else TreeMergedUpTo(m, i - 1) + if m.entries[i - 1].Own? then [] else TreeSource(m.entries[i - 1].source)
  }

  function TreeSource<V>(s: Source<V>): seq<Pair<V>>
    decreases s, 0
  {
    match s
    case One(m) => TreeFlat(m)
    case Many(ms) => RawManyUpTo(s, |ms|)
  }

  /** A sequence of mappings is one list of entries, in the order they are written. */
  function RawManyUpTo<V>(s: Source<V>, j: nat): seq<Pair<V>>
    requires s.Many? && j <= |s.mappings|
    decreases s, 0, j
  {
    if j == 0 then [] else RawManyUpTo(s, j - 1) + RawUpTo(s.mappings[j - 1], |s.mappings[j - 1].entries|)
  }

  function RawUpTo<V>(m: Mapping<V>, i: nat): seq<Pair<V>>
    requires i <= |m.entries|
    decreases m, i + 1
  {
    if i == 0 then []
    else
      var e := m.entries[i - 1];
      RawUpTo(m, i - 1) + if e.Own? then [Pair(e.key, e.value)] else TreeSource(e.source)
  }

  // ---------------------------------------------------------------- the tree decoder

  class KeyedMap<V> {
    var rep: Rep<V>

    constructor ()
      ensures rep == Named(map[])
    {
      rep := Named(map[]);
    }

    method Put(key: Key, value: V)
      requires Settled(rep)
      modifies this
      ensures Settled(rep) && Abs(rep) == old(Abs(rep))[key := value]
    {
      if key.Text? && rep.Named? {
        WideSet(rep.byName, key.name, value);
        rep := Named(rep.byName[key.name := value]);
        return;
      }
      if rep.Named? {
        rep := Widened(Wide(rep.byName));
      }
      ghost var was := rep.byKey;
      rep := Widened(rep.byKey[key := value]);
      KeptWide(was, key, value);
    }

    method PutMerged(key: Key, value: V)
      requires Settled(rep)
      modifies this
      ensures Settled(rep) && Abs(rep) == Add(old(Abs(rep)), Pair(key, value))
    {
      var held := HeldIn(rep, key);
      if !held {
        Put(key, value);
      }
    }
  }

  /** What stood before, and the pairs added to it in turn. */
  ghost predicate Added<V>(rep: Rep<V>, was: map<Key, V>, ps: seq<Pair<V>>) {
    Settled(rep) && Abs(rep) == AddAll(was, ps)
  }

  lemma NoneAdded<V>(rep: Rep<V>, ps: seq<Pair<V>>)
    requires Settled(rep) && ps == []
    ensures Added(rep, Abs(rep), ps)
  {
  }

  /** What stood before, and the pairs put over it in turn. */
  ghost function PutAll<V>(m: map<Key, V>, ps: seq<Pair<V>>): map<Key, V> {
    if ps == [] then m else PutAll(m, ps[..|ps| - 1])[ps[|ps| - 1].key := ps[|ps| - 1].value]
  }

  lemma {:induction false} OwnPutIsAdded<V>(m: Mapping<V>, i: nat)
    requires OwnApart(m) && i <= |m.entries|
    ensures PutAll(map[], OwnUpTo(m, i)) == FirstWins(OwnUpTo(m, i))
    decreases i
  {
    if i > 0 {
      OwnPutIsAdded(m, i - 1);
      var ps := OwnUpTo(m, i);
      if m.entries[i - 1].Own? {
        assert ps[..|ps| - 1] == OwnUpTo(m, i - 1);
        OwnNotNamed(m, i - 1, i - 1);
        AddedNames(OwnUpTo(m, i - 1), m.entries[i - 1].key);
      } else {
        assert ps == OwnUpTo(m, i - 1);
      }
    }
  }

  /** setToMapValue, over a mapping: its own entries, then what each "<<" brings in. */
  method SetToMapValue<V>(m: Mapping<V>, km: KeyedMap<V>, merged: bool)
    requires Settled(km.rep)
    modifies km
    ensures merged ==> Added(km.rep, old(Abs(km.rep)), TreeFlat(m))
    ensures !merged ==> Added(km.rep, PutAll(old(Abs(km.rep)), OwnUpTo(m, |m.entries|)), TreeMergedUpTo(m, |m.entries|))
    decreases m, |m.entries| + 2
  {
    SetOwns(m, km, merged);
    SetMerges(m, km);
    AddAllConcat(old(Abs(km.rep)), OwnUpTo(m, |m.entries|), TreeMergedUpTo(m, |m.entries|));
  }

  /** An own entry is put where it stands, one of a merged mapping only where none does. */
  ghost predicate OwnSet<V>(rep: Rep<V>, was: map<Key, V>, m: Mapping<V>, i: nat, merged: bool)
    requires i <= |m.entries|
  {
    Settled(rep) && Abs(rep) == if merged then AddAll(was, OwnUpTo(m, i)) else PutAll(was, OwnUpTo(m, i))
  }

  lemma NoneSet<V>(rep: Rep<V>, m: Mapping<V>, merged: bool)
    requires Settled(rep)
    ensures OwnSet(rep, Abs(rep), m, 0, merged)
  {
  }

  method SetOwns<V>(m: Mapping<V>, km: KeyedMap<V>, merged: bool)
    requires Settled(km.rep)
    modifies km
    ensures OwnSet(km.rep, old(Abs(km.rep)), m, |m.entries|, merged)
  {
    ghost var was := Abs(km.rep);
    NoneSet(km.rep, m, merged);
    var i, n := 0, |m.entries|;
    while i < n
      invariant i <= n && OwnSet(km.rep, was, m, i, merged)
    {
      SetOwn(m, i, km, merged, was);
      i := i + 1;
    }
  }

  method SetOwn<V>(m: Mapping<V>, i: nat, km: KeyedMap<V>, merged: bool, ghost was: map<Key, V>)
    requires i < |m.entries| && OwnSet(km.rep, was, m, i, merged)
    modifies km
    ensures OwnSet(km.rep, was, m, i + 1, merged)
  {
    if m.entries[i].Merge? {
      assert OwnUpTo(m, i + 1) == OwnUpTo(m, i);
      return;
    }
    assert OwnUpTo(m, i + 1)[..|OwnUpTo(m, i)|] == OwnUpTo(m, i);
    if merged {
      km.PutMerged(m.entries[i].key, m.entries[i].value);
    } else {
      km.Put(m.entries[i].key, m.entries[i].value);
    }
  }

  method SetMerges<V>(m: Mapping<V>, km: KeyedMap<V>)
    requires Settled(km.rep)
    modifies km
    ensures Added(km.rep, old(Abs(km.rep)), TreeMergedUpTo(m, |m.entries|))
    decreases m, |m.entries| + 1
  {
    ghost var was := Abs(km.rep);
    NoneAdded(km.rep, TreeMergedUpTo(m, 0));
    var i, n := 0, |m.entries|;
    while i < n
      invariant i <= n && Added(km.rep, was, TreeMergedUpTo(m, i))
    {
      SetMergeEntry(m, i, km, was);
      i := i + 1;
    }
  }

  method SetMergeEntry<V>(m: Mapping<V>, i: nat, km: KeyedMap<V>, ghost was: map<Key, V>)
    requires i < |m.entries| && Added(km.rep, was, TreeMergedUpTo(m, i))
    modifies km
    ensures Added(km.rep, was, TreeMergedUpTo(m, i + 1))
    decreases m, |m.entries|
  {
    if m.entries[i].Merge? {
      SetMerged(m.entries[i].source, km);
      AddAllConcat(was, TreeMergedUpTo(m, i), TreeSource(m.entries[i].source));
    } else {
      assert TreeMergedUpTo(m, i + 1) == TreeMergedUpTo(m, i);
    }
  }

  /** eachMergedEntry, over what one "<<" names. */
  method SetMerged<V>(s: Source<V>, km: KeyedMap<V>)
    requires Settled(km.rep)
    modifies km
    ensures Added(km.rep, old(Abs(km.rep)), TreeSource(s))
    decreases s, 0
  {
    ghost var was := Abs(km.rep);
    match s
    case One(m) => SetToMapValue(m, km, true);
    case Many(ms) =>
      NoneAdded(km.rep, RawManyUpTo(s, 0));
      for j := 0 to |ms|
        invariant Added(km.rep, was, RawManyUpTo(s, j))
      {
        SetRaw(ms[j], km);
        AddAllConcat(was, RawManyUpTo(s, j), RawUpTo(ms[j], |ms[j].entries|));
      }
  }

  /** One mapping of a sequence, entry by entry as written. */
  method SetRaw<V>(m: Mapping<V>, km: KeyedMap<V>)
    requires Settled(km.rep)
    modifies km
    ensures Added(km.rep, old(Abs(km.rep)), RawUpTo(m, |m.entries|))
    decreases m, |m.entries| + 1
  {
    ghost var was := Abs(km.rep);
    NoneAdded(km.rep, RawUpTo(m, 0));
    var i, n := 0, |m.entries|;
    while i < n
      invariant i <= n && Added(km.rep, was, RawUpTo(m, i))
    {
      SetRawEntry(m, i, km, was);
      i := i + 1;
    }
  }

  method SetRawEntry<V>(m: Mapping<V>, i: nat, km: KeyedMap<V>, ghost was: map<Key, V>)
    requires i < |m.entries| && Added(km.rep, was, RawUpTo(m, i))
    modifies km
    ensures Added(km.rep, was, RawUpTo(m, i + 1))
    decreases m, |m.entries|
  {
    ghost var before := RawUpTo(m, i);
    if m.entries[i].Own? {
      km.PutMerged(m.entries[i].key, m.entries[i].value);
      assert RawUpTo(m, i + 1)[..|before|] == before;
    } else {
      SetMerged(m.entries[i].source, km);
      AddAllConcat(was, before, TreeSource(m.entries[i].source));
    }
  }

  method TreeRead<V>(m: Mapping<V>) returns (r: Rep<V>)
    requires Distinct(m)
    ensures Settled(r) && Abs(r) == FirstWins(TreeFlat(m))
  {
    var km := new KeyedMap<V>();
    SetToMapValue(m, km, false);
    OwnPutIsAdded(m, |m.entries|);
    assert Wide<V>(map[]) == map[];
    AddAllConcat(map[], OwnUpTo(m, |m.entries|), TreeMergedUpTo(m, |m.entries|));
    r := km.rep;
  }

  // ---------------------------------------------------------------- looking a key up

  /** KeyName of an entry's key. */
  function NameOf<V>(e: Entry<V>): string {
    if e.Own? then e.key.name else "<<"
  }

  predicate NoMerge(name: string) { name != "<<" }

  /** LookupIn, over the first i entries. */
  function LookupIn<V>(m: Mapping<V>, name: string, i: nat): Option<Entry<V>>
    requires i <= |m.entries|
  {
    if i == 0 then None
    else
      var first := LookupIn(m, name, i - 1);
      if first.Some? then first
      else if NameOf(m.entries[i - 1]) == name then Some(m.entries[i - 1]) else None
  }

  function LookupMerged<V>(m: Mapping<V>, name: string): Option<Entry<V>>
    decreases m, |m.entries| + 2
  {
    var own := LookupIn(m, name, |m.entries|);
    if own.Some? then own else LookupSources(m, name, |m.entries|)
  }

  function LookupSources<V>(m: Mapping<V>, name: string, i: nat): Option<Entry<V>>
    requires i <= |m.entries|
    decreases m, i + 1
  {
    if i == 0 then None
    else
      var first := LookupSources(m, name, i - 1);
      if first.Some? then first
      else if m.entries[i - 1].Own? then None
      else LookupSource(m.entries[i - 1].source, name)
  }

  function LookupSource<V>(s: Source<V>, name: string): Option<Entry<V>>
    decreases s, 1
  {
    match s
    case One(m) => LookupMerged(m, name)
    case Many(ms) => LookupMany(s, name, |ms|)
  }

  function LookupMany<V>(s: Source<V>, name: string, j: nat): Option<Entry<V>>
    requires s.Many? && j <= |s.mappings|
    decreases s, 0, j
  {
    if j == 0 then None
    else
      var first := LookupMany(s, name, j - 1);
      if first.Some? then first else LookupMerged(s.mappings[j - 1], name)
  }

  /** The first pair of a name. */
  function FirstNamed<V>(ps: seq<Pair<V>>, name: string): Option<Entry<V>> {
    if ps == [] then None
    else
      var n := |ps| - 1;
      var first := FirstNamed(ps[..n], name);
      if first.Some? then first else if ps[n].key.name == name then Some(Own(ps[n].key, ps[n].value)) else None
  }

  lemma {:induction false} FirstNamedConcat<V>(a: seq<Pair<V>>, b: seq<Pair<V>>, name: string)
    ensures FirstNamed(a + b, name) == if FirstNamed(a, name).Some? then FirstNamed(a, name) else FirstNamed(b, name)
    decreases |b|
  {
    if b == [] {
      assert a + b == a;
    } else {
      var n := |b| - 1;
      assert (a + b)[..|a| + n] == a + b[..n];
      FirstNamedConcat(a, b[..n], name);
    }
  }

  lemma {:induction false} LookupInNamed<V>(m: Mapping<V>, name: string, i: nat)
    requires i <= |m.entries| && NoMerge(name)
    ensures LookupIn(m, name, i) == FirstNamed(OwnUpTo(m, i), name)
    decreases i
  {
    if i > 0 {
      LookupInNamed(m, name, i - 1);
      if m.entries[i - 1].Own? {
        assert OwnUpTo(m, i)[..|OwnUpTo(m, i - 1)|] == OwnUpTo(m, i - 1);
      } else {
        assert OwnUpTo(m, i) == OwnUpTo(m, i - 1);
      }
    }
  }

  /** LookupMerged finds the first entry of the name in the order of precedence. */
  lemma {:induction false} LookupIsFirst<V>(m: Mapping<V>, name: string)
    requires NoMerge(name)
    ensures LookupMerged(m, name) == FirstNamed(Flat(m), name)
    decreases m, |m.entries| + 2
  {
    LookupInNamed(m, name, |m.entries|);
    SourcesAreFirst(m, name, |m.entries|);
    FirstNamedConcat(OwnUpTo(m, |m.entries|), MergedUpTo(m, |m.entries|), name);
  }

  lemma {:induction false} SourcesAreFirst<V>(m: Mapping<V>, name: string, i: nat)
    requires i <= |m.entries| && NoMerge(name)
    ensures LookupSources(m, name, i) == FirstNamed(MergedUpTo(m, i), name)
    decreases m, i + 1
  {
    if i > 0 {
      SourcesAreFirst(m, name, i - 1);
      var first := FirstNamed(MergedUpTo(m, i - 1), name);
      if m.entries[i - 1].Merge? {
        SourceIsFirst(m.entries[i - 1].source, name);
        var next := FirstNamed(SourcePairs(m.entries[i - 1].source), name);
        SourcesStep(m, name, i, first, next);
        MergedStep(m, name, i, first, next);
      } else {
        SourcesStep(m, name, i, first, None);
        MergedStep(m, name, i, first, None);
      }
    }
  }

  lemma SourcesStep<V>(m: Mapping<V>, name: string, i: nat, first: Option<Entry<V>>, next: Option<Entry<V>>)
    requires 0 < i <= |m.entries| && first == LookupSources(m, name, i - 1)
    requires next == if m.entries[i - 1].Own? then None else LookupSource(m.entries[i - 1].source, name)
    ensures LookupSources(m, name, i) == if first.Some? then first else next
  {
  }

  lemma MergedStep<V>(m: Mapping<V>, name: string, i: nat, first: Option<Entry<V>>, next: Option<Entry<V>>)
    requires 0 < i <= |m.entries| && first == FirstNamed(MergedUpTo(m, i - 1), name)
    requires next == if m.entries[i - 1].Own? then None else FirstNamed(SourcePairs(m.entries[i - 1].source), name)
    ensures FirstNamed(MergedUpTo(m, i), name) == if first.Some? then first else next
  {
    if m.entries[i - 1].Own? {
      assert MergedUpTo(m, i) == MergedUpTo(m, i - 1);
    } else {
      FirstNamedConcat(MergedUpTo(m, i - 1), SourcePairs(m.entries[i - 1].source), name);
    }
  }

  lemma {:induction false} SourceIsFirst<V>(s: Source<V>, name: string)
    requires NoMerge(name)
    ensures LookupSource(s, name) == FirstNamed(SourcePairs(s), name)
    decreases s, 1
  {
    match s
    case One(m) => LookupIsFirst(m, name);
    case Many(ms) => ManyAreFirst(s, name, |ms|);
  }

  lemma {:induction false} ManyAreFirst<V>(s: Source<V>, name: string, j: nat)
    requires s.Many? && j <= |s.mappings| && NoMerge(name)
    ensures LookupMany(s, name, j) == FirstNamed(ManyUpTo(s, j), name)
    decreases s, 0, j
  {
    if j > 0 {
      ManyAreFirst(s, name, j - 1);
      var m := s.mappings[j - 1];
      LookupIsFirst(m, name);
      var first, next := FirstNamed(ManyUpTo(s, j - 1), name), FirstNamed(Flat(m), name);
      ManyStep(s, name, j, m, first, next);
      ManyPairsStep(s, name, j, m, first, next);
    }
  }

  lemma ManyStep<V>(s: Source<V>, name: string, j: nat, m: Mapping<V>, first: Option<Entry<V>>,
                    next: Option<Entry<V>>)
    requires s.Many? && 0 < j <= |s.mappings| && m == s.mappings[j - 1]
    requires first == LookupMany(s, name, j - 1) && next == LookupMerged(m, name)
    ensures LookupMany(s, name, j) == if first.Some? then first else next
  {
  }

  lemma ManyPairsStep<V>(s: Source<V>, name: string, j: nat, m: Mapping<V>, first: Option<Entry<V>>,
                         next: Option<Entry<V>>)
    requires s.Many? && 0 < j <= |s.mappings| && m == s.mappings[j - 1]
    requires first == FirstNamed(ManyUpTo(s, j - 1), name) && next == FirstNamed(Flat(m), name)
    ensures FirstNamed(ManyUpTo(s, j), name) == if first.Some? then first else next
  {
    FirstNamedConcat(ManyUpTo(s, j - 1), Flat(m), name);
  }

  /** The first pair of a name is a string's. */
  ghost predicate TextFirst<V>(ps: seq<Pair<V>>, name: string) {
    var first := FirstNamed(ps, name);
    first.Some? ==> first.value.Own? && first.value.key.Text?
  }

  /** The entry a map holds under a string. */
  ghost function EntryOf<V>(m: map<Key, V>, k: Key): Option<Entry<V>> {
    if k in m then Some(Own(k, m[k])) else None
  }

  lemma {:induction false} FirstNamedStands<V>(ps: seq<Pair<V>>, name: string)
    ensures FirstNamed(ps, name) == EntryOf(FirstWins(ps), Text(name)) <==> TextFirst(ps, name)
    ensures FirstNamed(ps, name).None? ==> Text(name) !in FirstWins(ps)
    decreases |ps|
  {
    if ps != [] {
      var n := |ps| - 1;
      FirstNamedStands(ps[..n], name);
      HoldsIsIn(FirstWins(ps[..n]), Text(name));
      HoldsIsIn(FirstWins(ps), Text(name));
    }
  }

  /** LookupMerged returns what the map the document is read into holds under a string if and only if the
      first pair of its name is a string's: no number or other key spelled the same comes before. */
  lemma LookupAgrees<V>(m: Mapping<V>, name: string)
    requires NoMerge(name)
    ensures LookupMerged(m, name) == EntryOf(FirstWins(Flat(m)), Text(name)) <==> TextFirst(Flat(m), name)
  {
    LookupIsFirst(m, name);
    FirstNamedStands(Flat(m), name);
  }
}
