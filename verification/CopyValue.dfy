/** The value an alias stands for, built again so that it shares nothing with the anchor's, within a budget
    (codec/walkvalue.go). */
module CopyValue {
  /** A Go value: one a caller cannot write through, or a reference to a map by string, to a slice, to a
      buffer -- bytes or a wide number -- or to a map by any key. */
  datatype Val = Leaf(data: nat) | MapRef(at: nat) | SliceRef(at: nat) | BufferRef(at: nat) | AnyRef(at: nat)

  datatype Option<+T> = None | Some(value: T)

  datatype Obj = MapObj(m: map<string, Val>) | SliceObj(items: seq<Val>) | BufferObj(data: nat) | AnyObj(data: nat)

  /** What stands at each address. A value is built from the inside out and holds no cycle, so each object
      refers to earlier ones alone. */
  type Heap = seq<Obj>

  ghost predicate Points(h: Heap, v: Val, n: nat) {
    match v
    case Leaf(_) => true
    case MapRef(a) => a < n && a < |h| && h[a].MapObj?
    case SliceRef(a) => a < n && a < |h| && h[a].SliceObj?
    case BufferRef(a) => a < n && a < |h| && h[a].BufferObj?
    case AnyRef(a) => a < n && a < |h| && h[a].AnyObj?
  }

  ghost predicate ObjSound(h: Heap, a: nat)
    requires a < |h|
  {
    match h[a]
    case MapObj(m) => forall k :: k in m ==> Points(h, m[k], a)
    case SliceObj(items) => forall i :: 0 <= i < |items| ==> Points(h, items[i], a)
    case _ => true
  }

  ghost predicate Sound(h: Heap) {
    forall a :: 0 <= a < |h| ==> ObjSound(h, a)
  }

  function Rank(v: Val): nat {
    if v.Leaf? then 0 else v.at + 1
  }

  // ---------------------------------------------------------------- what a value is

  /** A value read through its references. A map by any key is what it is by its address. */
  datatype Tree =
    | Data(data: nat)
    | Buffer(data: nat)
    | Map(m: map<string, Tree>)
    | Slice(items: seq<Tree>)
    | Any(at: nat)

  ghost function TreeOf(h: Heap, v: Val): Tree
    requires Sound(h) && Points(h, v, |h|)
    decreases Rank(v)
  {
    match v
    case Leaf(data) => Data(data)
    case BufferRef(a) => Buffer(h[a].data)
    case AnyRef(a) => Any(a)
    case MapRef(a) => assert ObjSound(h, a); Map(map k | k in h[a].m :: TreeOf(h, h[a].m[k]))
    case SliceRef(a) =>
      assert ObjSound(h, a);
      Slice(seq(|h[a].items|, i requires 0 <= i < |h[a].items| => TreeOf(h, h[a].items[i])))
  }

  ghost function Pick(keys: set<string>): (k: string)
    requires keys != {}
    ensures k in keys
  {
    var key :| key in keys; key
  }

  /** How many values a value holds, itself among them. */
  ghost function Count(h: Heap, v: Val): nat
    requires Sound(h) && Points(h, v, |h|)
    decreases Rank(v), 0
  {
    match v
    case MapRef(a) => assert ObjSound(h, a); 1 + CountKeys(h, a, h[a].m.Keys)
    case SliceRef(a) => assert ObjSound(h, a); 1 + CountItems(h, a, |h[a].items|)
    case _ => 1
  }

  ghost function CountKeys(h: Heap, a: nat, keys: set<string>): nat
    requires Sound(h) && a < |h| && h[a].MapObj? && keys <= h[a].m.Keys
    decreases a, |keys|
  {
    assert ObjSound(h, a);
    if keys == {} then 0 else var k := Pick(keys); Count(h, h[a].m[k]) + CountKeys(h, a, keys - {k})
  }

  ghost function CountItems(h: Heap, a: nat, n: nat): nat
    requires Sound(h) && a < |h| && h[a].SliceObj? && n <= |h[a].items|
    decreases a, n
  {
    assert ObjSound(h, a);
    if n == 0 then 0 else CountItems(h, a, n - 1) + Count(h, h[a].items[n - 1])
  }

  /** Whichever key is counted first. */
  lemma {:induction false} CountPicked(h: Heap, a: nat, keys: set<string>, k: string)
    requires Sound(h) && a < |h| && h[a].MapObj? && keys <= h[a].m.Keys && k in keys && ObjSound(h, a)
    ensures CountKeys(h, a, keys) == Count(h, h[a].m[k]) + CountKeys(h, a, keys - {k})
    decreases |keys|
  {
    var first := Pick(keys);
    if first != k {
      CountPicked(h, a, keys - {first}, k);
      CountPicked(h, a, keys - {k}, first);
      assert keys - {first} - {k} == keys - {k} - {first};
    }
  }

  // ---------------------------------------------------------------- what is kept as more is built

  lemma {:induction false} Kept(h: Heap, h': Heap, v: Val)
    requires Sound(h) && Sound(h') && h <= h' && Points(h, v, |h|)
    ensures Points(h', v, |h'|) && TreeOf(h', v) == TreeOf(h, v) && Count(h', v) == Count(h, v)
    decreases Rank(v), 0
  {
    match v
    case MapRef(a) =>
      assert ObjSound(h, a) && ObjSound(h', a);
      forall k | k in h[a].m ensures TreeOf(h', h[a].m[k]) == TreeOf(h, h[a].m[k]) { Kept(h, h', h[a].m[k]); }
      KeysKept(h, h', a, h[a].m.Keys);
    case SliceRef(a) =>
      assert ObjSound(h, a) && ObjSound(h', a);
      forall i | 0 <= i < |h[a].items|
        ensures TreeOf(h', h[a].items[i]) == TreeOf(h, h[a].items[i])
      {
        Kept(h, h', h[a].items[i]);
      }
      ItemsKept(h, h', a, |h[a].items|);
    case _ =>
  }

  lemma {:induction false} KeysKept(h: Heap, h': Heap, a: nat, keys: set<string>)
    requires Sound(h) && Sound(h') && h <= h' && a < |h| && h[a].MapObj? && keys <= h[a].m.Keys
    ensures CountKeys(h', a, keys) == CountKeys(h, a, keys)
    decreases a, |keys|
  {
    assert ObjSound(h, a) && ObjSound(h', a);
    if keys != {} {
      Kept(h, h', h[a].m[Pick(keys)]);
      KeysKept(h, h', a, keys - {Pick(keys)});
    }
  }

  lemma {:induction false} ItemsKept(h: Heap, h': Heap, a: nat, n: nat)
    requires Sound(h) && Sound(h') && h <= h' && a < |h| && h[a].SliceObj? && n <= |h[a].items|
    ensures CountItems(h', a, n) == CountItems(h, a, n)
    decreases a, n
  {
    assert ObjSound(h, a) && ObjSound(h', a);
    if n > 0 {
      ItemsKept(h, h', a, n - 1);
      Kept(h, h', h[a].items[n - 1]);
    }
  }

  // ---------------------------------------------------------------- what is shared

  /** Everything v refers to was built since there were n objects. */
  ghost predicate BuiltSince(h: Heap, v: Val, n: nat)
    requires Sound(h) && Points(h, v, |h|)
    decreases Rank(v)
  {
    match v
    case Leaf(_) => true
    case BufferRef(a) => n <= a
    case AnyRef(a) => n <= a
    case MapRef(a) => assert ObjSound(h, a); n <= a && forall k :: k in h[a].m ==> BuiltSince(h, h[a].m[k], n)
    case SliceRef(a) =>
      assert ObjSound(h, a);
      n <= a && forall i :: 0 <= i < |h[a].items| ==> BuiltSince(h, h[a].items[i], n)
  }

  lemma {:induction false} SinceKept(h: Heap, h': Heap, v: Val, n: nat)
    requires Sound(h) && Sound(h') && h <= h' && Points(h, v, |h|)
    ensures Points(h', v, |h'|) && BuiltSince(h', v, n) == BuiltSince(h, v, n)
    decreases Rank(v)
  {
    match v
    case MapRef(a) =>
      assert ObjSound(h, a) && ObjSound(h', a);
      forall k | k in h[a].m
        ensures BuiltSince(h', h[a].m[k], n) == BuiltSince(h, h[a].m[k], n)
      {
        SinceKept(h, h', h[a].m[k], n);
      }
    case SliceRef(a) =>
      assert ObjSound(h, a) && ObjSound(h', a);
      forall i | 0 <= i < |h[a].items| ensures BuiltSince(h', h[a].items[i], n) == BuiltSince(h, h[a].items[i], n) {
        SinceKept(h, h', h[a].items[i], n);
      }
    case _ =>
  }

  /** A map by any key stands somewhere in v. */
  ghost predicate HoldsAny(h: Heap, v: Val)
    requires Sound(h) && Points(h, v, |h|)
    decreases Rank(v)
  {
    match v
    case AnyRef(_) => true
    case MapRef(a) => assert ObjSound(h, a); exists k :: k in h[a].m && HoldsAny(h, h[a].m[k])
    case SliceRef(a) => assert ObjSound(h, a); exists i :: 0 <= i < |h[a].items| && HoldsAny(h, h[a].items[i])
    case _ => false
  }

  lemma {:induction false} AnyKept(h: Heap, h': Heap, v: Val)
    requires Sound(h) && Sound(h') && h <= h' && Points(h, v, |h|)
    ensures Points(h', v, |h'|) && HoldsAny(h', v) == HoldsAny(h, v)
    decreases Rank(v)
  {
    match v
    case MapRef(a) =>
      assert ObjSound(h, a) && ObjSound(h', a);
      forall k | k in h[a].m ensures HoldsAny(h', h[a].m[k]) == HoldsAny(h, h[a].m[k]) { AnyKept(h, h', h[a].m[k]); }
    case SliceRef(a) =>
      assert ObjSound(h, a) && ObjSound(h', a);
      forall i | 0 <= i < |h[a].items| ensures HoldsAny(h', h[a].items[i]) == HoldsAny(h, h[a].items[i]) {
        AnyKept(h, h', h[a].items[i]);
      }
    case _ =>
  }

  /** c, built from v when there were n objects, is the same value, and shares none of them unless v holds a
      map by any key. */
  ghost predicate CopyOf(h: Heap, c: Val, v: Val, n: nat) {
    && Sound(h) && Points(h, c, |h|) && Points(h, v, |h|)
    && TreeOf(h, c) == TreeOf(h, v) && (BuiltSince(h, c, n) <==> !HoldsAny(h, v))
  }

  lemma {:induction false} SinceEarlier(h: Heap, v: Val, n: nat, n0: nat)
    requires Sound(h) && Points(h, v, |h|) && n0 <= n && BuiltSince(h, v, n)
    ensures BuiltSince(h, v, n0)
    decreases Rank(v)
  {
    match v
    case MapRef(a) =>
      assert ObjSound(h, a);
      forall k | k in h[a].m ensures BuiltSince(h, h[a].m[k], n0) { SinceEarlier(h, h[a].m[k], n, n0); }
    case SliceRef(a) =>
      assert ObjSound(h, a);
      forall i | 0 <= i < |h[a].items|
        ensures BuiltSince(h, h[a].items[i], n0)
      {
        SinceEarlier(h, h[a].items[i], n, n0);
      }
    case _ =>
  }

  /** A map by any key of v is in every value that is the same, so that shares it. */
  lemma {:induction false} AnyShared(h: Heap, c: Val, v: Val, n: nat)
    requires Sound(h) && Points(h, c, |h|) && Points(h, v, |h|) && Points(h, v, n)
    requires TreeOf(h, c) == TreeOf(h, v) && HoldsAny(h, v)
    ensures !BuiltSince(h, c, n)
    decreases Rank(v)
  {
    match v
    case AnyRef(a) => assert TreeOf(h, c).Any?;
    case MapRef(a) =>
      assert ObjSound(h, a) && TreeOf(h, c).Map?;
      var k :| k in h[a].m && HoldsAny(h, h[a].m[k]);
      assert ObjSound(h, c.at);
      assert k in TreeOf(h, v).m && k in TreeOf(h, c).m;
      AnyShared(h, h[c.at].m[k], h[a].m[k], n);
    case SliceRef(a) =>
      assert ObjSound(h, a) && TreeOf(h, c).Slice?;
      var i :| 0 <= i < |h[a].items| && HoldsAny(h, h[a].items[i]);
      assert ObjSound(h, c.at);
      assert TreeOf(h, v).items[i] == TreeOf(h, c).items[i];
      AnyShared(h, h[c.at].items[i], h[a].items[i], n);
  }

  lemma CopySince(h: Heap, c: Val, v: Val, n: nat, n0: nat)
    requires CopyOf(h, c, v, n) && n0 <= n && Points(h, v, n0)
    ensures CopyOf(h, c, v, n0)
  {
    if HoldsAny(h, v) { AnyShared(h, c, v, n0); } else { SinceEarlier(h, c, n, n0); }
  }

  lemma CopyKept(h: Heap, h': Heap, c: Val, v: Val, n: nat)
    requires CopyOf(h, c, v, n) && Sound(h') && h <= h'
    ensures CopyOf(h', c, v, n)
  {
    Kept(h, h', c);
    Kept(h, h', v);
    SinceKept(h, h', c, n);
    AnyKept(h, h', v);
  }

  lemma EntriesKept(h: Heap, h': Heap, out: map<string, Val>, m: map<string, Val>, n: nat)
    requires Sound(h') && h <= h' && out.Keys <= m.Keys
    requires forall k :: k in out ==> CopyOf(h, out[k], m[k], n)
    ensures forall k :: k in out ==> CopyOf(h', out[k], m[k], n)
  {
    forall k | k in out ensures CopyOf(h', out[k], m[k], n) { CopyKept(h, h', out[k], m[k], n); }
  }

  lemma CopiesKept(h: Heap, h': Heap, out: seq<Val>, items: seq<Val>, n: nat)
    requires Sound(h') && h <= h' && |out| <= |items|
    requires forall i :: 0 <= i < |out| ==> CopyOf(h, out[i], items[i], n)
    ensures forall i :: 0 <= i < |out| ==> CopyOf(h', out[i], items[i], n)
  {
    forall i | 0 <= i < |out| ensures CopyOf(h', out[i], items[i], n) { CopyKept(h, h', out[i], items[i], n); }
  }

  lemma Appended(h: Heap, o: Obj)
    requires Sound(h) && ObjSound(h + [o], |h|)
    ensures Sound(h + [o]) && h <= h + [o]
  {
    forall a | 0 <= a < |h + [o]| ensures ObjSound(h + [o], a) {
      if a < |h| { assert ObjSound(h, a); }
    }
  }

  /** The copies of what a map holds make a copy of it. */
  lemma MapCopied(h: Heap, a: nat, out: map<string, Val>, n: nat)
    requires Sound(h) && n <= |h| && a < |h| && h[a].MapObj? && out.Keys == h[a].m.Keys
    requires forall k :: k in out ==> CopyOf(h, out[k], h[a].m[k], n)
    ensures Sound(h + [MapObj(out)]) && CopyOf(h + [MapObj(out)], MapRef(|h|), MapRef(a), n)
  {
    var h' := h + [MapObj(out)];
    assert ObjSound(h, a);
    Appended(h, MapObj(out));
    assert ObjSound(h', |h|) && ObjSound(h', a);
    forall k | k in out ensures CopyOf(h', out[k], h[a].m[k], n) { CopyKept(h, h', out[k], h[a].m[k], n); }
  }

  lemma SliceCopied(h: Heap, a: nat, out: seq<Val>, n: nat)
    requires Sound(h) && n <= |h| && a < |h| && h[a].SliceObj? && |out| == |h[a].items|
    requires forall i :: 0 <= i < |out| ==> CopyOf(h, out[i], h[a].items[i], n)
    ensures Sound(h + [SliceObj(out)]) && CopyOf(h + [SliceObj(out)], SliceRef(|h|), SliceRef(a), n)
  {
    var h' := h + [SliceObj(out)];
    assert ObjSound(h, a);
    Appended(h, SliceObj(out));
    assert ObjSound(h', |h|) && ObjSound(h', a);
    forall i | 0 <= i < |out|
      ensures CopyOf(h', out[i], h[a].items[i], n)
    {
      CopyKept(h, h', out[i], h[a].items[i], n);
    }
  }

  // ---------------------------------------------------------------- the builder

  class ValueBuilder {
    const budget: nat
    var heap: Heap
    var built: nat
    var failed: bool

    constructor (budget: nat, heap: Heap)
      requires Sound(heap)
      ensures this.budget == budget && this.heap == heap && built == 0 && !failed && Within()
    {
      this.budget, this.heap, built, failed := budget, heap, 0, false;
    }

    /** No more is built than the budget and the value that ran past it. */
    ghost predicate Within()
      reads this
    {
      && Sound(heap) && (budget > 0 ==> built <= budget + if failed then 1 else 0)
      && (failed ==> budget > 0 && built == budget + 1)
    }

    ghost predicate Over(n: nat)
      reads this
    {
      budget > 0 && n > budget
    }

    /** copyValue. */
    method Copy(v: Val) returns (c: Val)
      requires Within() && Points(heap, v, |heap|)
      modifies this
      ensures Within() && old(heap) <= heap && (old(failed) ==> failed)
      ensures !old(failed) ==> (failed <==> Over(old(built) + Count(old(heap), v)))
      ensures !failed ==> built == old(built) + Count(old(heap), v) && CopyOf(heap, c, v, |old(heap)|)
      decreases Rank(v), 0
    {
      if failed {
        return Leaf(0);
      }
      built := built + 1;
      if budget > 0 && built > budget {
        failed := true;
        return Leaf(0);
      }
      match v
      case MapRef(a) =>
        c := CopyMap(a);
      case SliceRef(a) =>
        c := CopySlice(a);
      case BufferRef(a) =>
        Appended(heap, heap[a]);
        heap, c := heap + [heap[a]], BufferRef(|heap|);
      case Leaf(_) =>
        c := v;
      case AnyRef(_) =>
        c := v;
    }

    /** A map built again, its entries in whatever order Go hands them over. */
    method CopyMap(a: nat) returns (c: Val)
      requires Within() && !failed && a < |heap| && heap[a].MapObj?
      modifies this
      ensures Within() && old(heap) <= heap
      ensures failed <==> Over(old(built) + CountKeys(old(heap), a, old(heap)[a].m.Keys))
      ensures !failed ==> built == old(built) + CountKeys(old(heap), a, old(heap)[a].m.Keys)
      ensures !failed ==> CopyOf(heap, c, MapRef(a), |old(heap)|)
      decreases a, 3
    {
      ghost var h0 := heap;
      var out := CopyEntries(a, heap, built);
      if failed {
        return Leaf(0);
      }
      MapCopied(heap, a, out, |h0|);
      heap, c := heap + [MapObj(out)], MapRef(|heap|);
    }

    method CopyEntries(a: nat, ghost h0: Heap, ghost b0: nat) returns (out: map<string, Val>)
      requires Within() && !failed && a < |heap| && heap[a].MapObj? && h0 == heap && b0 == built
      modifies this
      ensures MapState(h0, a, {}, out, b0)
      decreases a, 2
    {
      var left := heap[a].m.Keys;
      out := map[];
      assert ObjSound(heap, a);
      while left != {}
        invariant MapState(h0, a, left, out, b0)
        decreases |left|
      {
        var k :| k in left;
        var copy := CopyEntry(a, k, left, out, h0, b0);
        out := out[k := copy];
        left := left - {k};
      }
    }

    ghost predicate MapState(h0: Heap, a: nat, left: set<string>, out: map<string, Val>, b0: nat)
      reads this
    {
      && Within() && Sound(h0) && h0 <= heap && a < |h0| && h0[a].MapObj? && left <= h0[a].m.Keys && ObjSound(h0, a)
      && (if failed then Over(b0 + CountKeys(h0, a, h0[a].m.Keys)) else MapPart(h0, a, left, out, b0))
    }

    /** All keys but those left are copied and counted. */
    ghost predicate MapPart(h0: Heap, a: nat, left: set<string>, out: map<string, Val>, b0: nat)
      requires Sound(h0) && a < |h0| && h0[a].MapObj? && left <= h0[a].m.Keys
      reads this
    {
      && Sound(heap) && h0 <= heap && out.Keys == h0[a].m.Keys - left
      && built + CountKeys(h0, a, left) == b0 + CountKeys(h0, a, h0[a].m.Keys)
      && (forall k :: k in out ==> CopyOf(heap, out[k], h0[a].m[k], |h0|))
    }

    method CopyEntry(a: nat, k: string, ghost left: set<string>, ghost out: map<string, Val>, ghost h0: Heap,
                     ghost b0: nat)
      returns (copy: Val)
      requires MapState(h0, a, left, out, b0) && k in left
      modifies this
      ensures MapState(h0, a, left - {k}, out[k := copy], b0) && (old(failed) ==> failed)
      decreases a, 1
    {
      ghost var h1 := heap;
      assert ObjSound(h1, a);
      CountPicked(h0, a, left, k);
      Kept(h0, h1, h0[a].m[k]);
      copy := Copy(heap[a].m[k]);
      if !failed {
        CopySince(heap, copy, h0[a].m[k], |h1|, |h0|);
        EntriesKept(h1, heap, out, h0[a].m, |h0|);
      }
    }

    method CopySlice(a: nat) returns (c: Val)
      requires Within() && !failed && a < |heap| && heap[a].SliceObj?
      modifies this
      ensures Within() && old(heap) <= heap
      ensures failed <==> Over(old(built) + CountItems(old(heap), a, |old(heap)[a].items|))
      ensures !failed ==> built == old(built) + CountItems(old(heap), a, |old(heap)[a].items|)
      ensures !failed ==> CopyOf(heap, c, SliceRef(a), |old(heap)|)
      decreases a, 2
    {
      ghost var h0, b0 := heap, built;
      var items := heap[a].items;
      var out: seq<Val> := [];
      assert ObjSound(heap, a);
      var i := 0;
      while i < |items|
        invariant i <= |items| == |h0[a].items| && |out| == i && SliceState(h0, a, i, out, b0)
      {
        var copy := CopyItem(a, i, out, h0, b0);
        out := out + [copy];
        i := i + 1;
      }
      if failed {
        return Leaf(0);
      }
      SliceCopied(heap, a, out, |h0|);
      heap, c := heap + [SliceObj(out)], SliceRef(|heap|);
    }

    ghost predicate SliceState(h0: Heap, a: nat, n: nat, out: seq<Val>, b0: nat)
      reads this
    {
      && Within() && Sound(h0) && h0 <= heap && a < |h0| && h0[a].SliceObj? && n <= |h0[a].items| && ObjSound(h0, a)
      && (if failed then Over(b0 + CountItems(h0, a, |h0[a].items|)) else SlicePart(h0, a, n, out, b0))
    }

    ghost predicate SlicePart(h0: Heap, a: nat, n: nat, out: seq<Val>, b0: nat)
      requires Sound(h0) && a < |h0| && h0[a].SliceObj? && n <= |h0[a].items|
      reads this
    {
      && Sound(heap) && h0 <= heap && |out| == n && built == b0 + CountItems(h0, a, n)
      && (forall i :: 0 <= i < n ==> CopyOf(heap, out[i], h0[a].items[i], |h0|))
    }

    method CopyItem(a: nat, n: nat, ghost out: seq<Val>, ghost h0: Heap, ghost b0: nat) returns (copy: Val)
      requires SliceState(h0, a, n, out, b0) && n < |h0[a].items|
      modifies this
      ensures SliceState(h0, a, n + 1, out + [copy], b0) && (old(failed) ==> failed)
      decreases a, 1
    {
      ghost var h1 := heap;
      assert ObjSound(h1, a);
      Kept(h0, h1, h0[a].items[n]);
      CountGrows(h0, a, n + 1, |h0[a].items|);
      copy := Copy(heap[a].items[n]);
      if !failed {
        CopySince(heap, copy, h0[a].items[n], |h1|, |h0|);
        CopiesKept(h1, heap, out, h0[a].items, |h0|);
      }
    }
  }

  lemma {:induction false} CountGrows(h: Heap, a: nat, n: nat, m: nat)
    requires Sound(h) && a < |h| && h[a].SliceObj? && n <= m <= |h[a].items|
    ensures CountItems(h, a, n) <= CountItems(h, a, m)
    decreases m
  {
    if n < m { CountGrows(h, a, n, m - 1); }
  }

  // ---------------------------------------------------------------- the aliases of a document

  /** aliasBudget, of a document of n bytes. */
  function AliasBudget(n: nat): nat {
    1024 + 32 * n
  }

  /** A step of the walk over a document: a value built, of values built before it, or an alias, which
      stands for a copy of one of them. A value is named by the step it came of. */
  datatype Step =
    | NewLeaf(data: nat)
    | NewMap(entries: map<string, nat>)
    | NewSlice(items: seq<nat>)
    | NewBuffer(data: nat)
    | NewAny(data: nat)
    | Alias(of: nat)

  predicate Earlier(s: Step, n: nat) {
    match s
    case NewMap(entries) => forall k :: k in entries ==> entries[k] < n
    case NewSlice(items) => forall i :: 0 <= i < |items| ==> items[i] < n
    case Alias(i) => i < n
    case _ => true
  }

  /** Each step names earlier ones alone, copies among them. */
  predicate Runs(steps: seq<Step>) {
    forall j :: 0 <= j < |steps| ==> Earlier(steps[j], j)
  }

  /** How many values the value of a step holds. */
  ghost function SizeOf(steps: seq<Step>, j: nat): nat
    requires Runs(steps) && j < |steps|
    decreases j + 1, 0
  {
    assert Earlier(steps[j], j);
    match steps[j]
    case NewMap(entries) => 1 + SizeKeys(steps, j, entries.Keys)
    case NewSlice(items) => 1 + SizeItems(steps, j, |items|)
    case Alias(i) => SizeOf(steps, i)
    case _ => 1
  }

  ghost function SizeKeys(steps: seq<Step>, j: nat, keys: set<string>): nat
    requires Runs(steps) && j < |steps| && steps[j].NewMap? && keys <= steps[j].entries.Keys
    decreases j, |keys|
  {
    assert Earlier(steps[j], j);
    if keys == {} then 0
    else var k := Pick(keys); SizeOf(steps, steps[j].entries[k]) + SizeKeys(steps, j, keys - {k})
  }

  ghost function SizeItems(steps: seq<Step>, j: nat, n: nat): nat
    requires Runs(steps) && j < |steps| && steps[j].NewSlice? && n <= |steps[j].items|
    decreases j, n
  {
    assert Earlier(steps[j], j);
    if n == 0 then 0 else SizeItems(steps, j, n - 1) + SizeOf(steps, steps[j].items[n - 1])
  }

  /** What the aliases among the first n steps come to. */
  ghost function Aliased(steps: seq<Step>, n: nat): nat
    requires Runs(steps) && n <= |steps|
  {
    if n == 0 then 0 else Aliased(steps, n - 1) + if steps[n - 1].Alias? then SizeOf(steps, n - 1) else 0
  }

  lemma {:induction false} AliasedGrows(steps: seq<Step>, n: nat, m: nat)
    requires Runs(steps) && n <= m <= |steps|
    ensures Aliased(steps, n) <= Aliased(steps, m)
    decreases m
  {
    if n < m { AliasedGrows(steps, n, m - 1); }
  }

  // ---------------------------------------------------------------- one value, one count

  /** A value that is the same holds as many values. */
  lemma {:induction false} SameCount(h: Heap, c: Val, v: Val)
    requires Sound(h) && Points(h, c, |h|) && Points(h, v, |h|) && TreeOf(h, c) == TreeOf(h, v)
    ensures Count(h, c) == Count(h, v)
    decreases Rank(v), 0
  {
    match v
    case MapRef(a) =>
      assert TreeOf(h, c).Map? && ObjSound(h, a) && ObjSound(h, c.at);
      assert TreeOf(h, c).m.Keys == h[c.at].m.Keys && TreeOf(h, v).m.Keys == h[a].m.Keys;
      SameKeys(h, c.at, a, h[a].m.Keys);
    case SliceRef(a) =>
      assert TreeOf(h, c).Slice? && ObjSound(h, a) && ObjSound(h, c.at);
      assert |TreeOf(h, c).items| == |h[c.at].items| && |TreeOf(h, v).items| == |h[a].items|;
      SameItems(h, c.at, a, |h[a].items|);
    case _ =>
  }

  lemma {:induction false} SameKeys(h: Heap, b: nat, a: nat, keys: set<string>)
    requires Sound(h) && a < |h| && b < |h| && h[a].MapObj? && h[b].MapObj?
    requires h[b].m.Keys == h[a].m.Keys && keys <= h[a].m.Keys && TreeOf(h, MapRef(b)) == TreeOf(h, MapRef(a))
    ensures CountKeys(h, b, keys) == CountKeys(h, a, keys)
    decreases a + 1, 0, |keys|
  {
    assert ObjSound(h, a) && ObjSound(h, b);
    if keys != {} {
      var k := Pick(keys);
      assert TreeOf(h, MapRef(b)).m[k] == TreeOf(h, MapRef(a)).m[k];
      SameCount(h, h[b].m[k], h[a].m[k]);
      SameKeys(h, b, a, keys - {k});
    }
  }

  lemma {:induction false} SameItems(h: Heap, b: nat, a: nat, n: nat)
    requires Sound(h) && a < |h| && b < |h| && h[a].SliceObj? && h[b].SliceObj?
    requires |h[b].items| == |h[a].items| && n <= |h[a].items| && TreeOf(h, SliceRef(b)) == TreeOf(h, SliceRef(a))
    ensures CountItems(h, b, n) == CountItems(h, a, n)
    decreases a + 1, 0, n
  {
    assert ObjSound(h, a) && ObjSound(h, b);
    if n > 0 {
      SameItems(h, b, a, n - 1);
      assert TreeOf(h, SliceRef(b)).items[n - 1] == TreeOf(h, SliceRef(a)).items[n - 1];
      SameCount(h, h[b].items[n - 1], h[a].items[n - 1]);
    }
  }

  // ---------------------------------------------------------------- a run of the walk

  /** The values of the first steps: each where the heap has one, holding as many as its step says. */
  ghost predicate Sized(h: Heap, steps: seq<Step>, values: seq<Val>) {
    && Sound(h) && Runs(steps) && |values| <= |steps|
    && (forall j :: 0 <= j < |values| ==> SizedAt(h, steps, values[j], j))
  }

  ghost predicate SizedAt(h: Heap, steps: seq<Step>, v: Val, j: nat)
    requires Sound(h) && Runs(steps) && j < |steps|
  {
    Points(h, v, |h|) && Count(h, v) == SizeOf(steps, j)
  }

  /** Each alias among the first steps stands for a copy of the value it names, apart from everything there
      was when it was made. starts says how much that was at each step. */
  ghost predicate Apart(h: Heap, steps: seq<Step>, values: seq<Val>, starts: seq<nat>) {
    && Sound(h) && Runs(steps) && |starts| == |values| <= |steps|
    && (forall j :: 0 <= j < |values| && steps[j].Alias? ==> Copied(h, steps[j].of, values, j, starts[j]))
    && (forall i, j :: 0 <= i < j < |values| ==> Points(h, values[i], starts[j]))
  }

  ghost predicate Copied(h: Heap, i: nat, values: seq<Val>, j: nat, n: nat)
    requires j < |values|
  {
    i < j && CopyOf(h, values[j], values[i], n)
  }

  /** The value a step built: what it was given, under the keys or in the order it was given it. */
  ghost predicate FormedAt(h: Heap, s: Step, v: Val, values: seq<Val>) {
    match s
    case NewLeaf(data) => v == Leaf(data)
    case NewMap(entries) =>
      && v.MapRef? && v.at < |h| && h[v.at].MapObj? && h[v.at].m.Keys == entries.Keys
      && forall k :: k in entries ==> entries[k] < |values| && h[v.at].m[k] == values[entries[k]]
    case NewSlice(items) =>
      && v.SliceRef? && v.at < |h| && h[v.at].SliceObj? && |h[v.at].items| == |items|
      && forall i :: 0 <= i < |items| ==> items[i] < |values| && h[v.at].items[i] == values[items[i]]
    case NewBuffer(data) => v.BufferRef? && v.at < |h| && h[v.at] == BufferObj(data)
    case NewAny(data) => v.AnyRef? && v.at < |h| && h[v.at] == AnyObj(data)
    case Alias(_) => true
  }

  /** So was each of the values of the first steps. */
  ghost predicate Formed(h: Heap, steps: seq<Step>, values: seq<Val>) {
    |values| <= |steps| && forall j :: 0 <= j < |values| ==> FormedAt(h, steps[j], values[j], values)
  }

  lemma OneFormedMore(was: Heap, h: Heap, steps: seq<Step>, values: seq<Val>, v: Val)
    requires Formed(was, steps, values) && |values| < |steps| && was <= h && FormedAt(h, steps[|values|], v, values)
    ensures Formed(h, steps, values + [v])
  {
    forall j | 0 <= j < |values + [v]| ensures FormedAt(h, steps[j], (values + [v])[j], values + [v]) {
      if j < |values| { assert FormedAt(was, steps[j], values[j], values); }
    }
  }

  lemma SizedKept(h: Heap, h': Heap, steps: seq<Step>, values: seq<Val>)
    requires Sized(h, steps, values) && Sound(h') && h <= h'
    ensures Sized(h', steps, values)
  {
    forall j | 0 <= j < |values| ensures SizedAt(h', steps, values[j], j) {
      assert SizedAt(h, steps, values[j], j);
      Kept(h, h', values[j]);
    }
  }

  lemma ApartKept(h: Heap, h': Heap, steps: seq<Step>, values: seq<Val>, starts: seq<nat>)
    requires Apart(h, steps, values, starts) && Sound(h') && h <= h'
    ensures Apart(h', steps, values, starts)
  {
    forall j | 0 <= j < |values| && steps[j].Alias? ensures Copied(h', steps[j].of, values, j, starts[j]) {
      assert Copied(h, steps[j].of, values, j, starts[j]);
      CopyKept(h, h', values[j], values[steps[j].of], starts[j]);
    }
    forall i, j | 0 <= i < j < |values| ensures Points(h', values[i], starts[j]) {
      assert Points(h, values[i], starts[j]);
    }
  }

  /** One step more, its value standing where the heap was taken on to. */
  lemma OneSizedMore(was: Heap, h: Heap, steps: seq<Step>, values: seq<Val>, v: Val)
    requires Sized(was, steps, values) && |values| < |steps| && Sound(h) && was <= h
    requires SizedAt(h, steps, v, |values|)
    ensures Sized(h, steps, values + [v])
  {
    SizedKept(was, h, steps, values);
  }

  lemma OneApartMore(was: Heap, h: Heap, steps: seq<Step>, values: seq<Val>, starts: seq<nat>, v: Val, n: nat)
    requires Apart(was, steps, values, starts) && |values| < |steps| && Sound(h) && was <= h && n == |was|
    requires forall i :: 0 <= i < |values| ==> Points(was, values[i], n)
    requires steps[|values|].Alias? ==> steps[|values|].of < |values| && CopyOf(h, v, values[steps[|values|].of], n)
    ensures Apart(h, steps, values + [v], starts + [n])
  {
    var all, from := values + [v], starts + [n];
    ApartKept(was, h, steps, values, starts);
    forall j | 0 <= j < |all| && steps[j].Alias? ensures Copied(h, steps[j].of, all, j, from[j]) {
      if j < |values| { assert Copied(h, steps[j].of, values, j, starts[j]); }
    }
    forall i, j | 0 <= i < j < |all| ensures Points(h, all[i], from[j]) {
      if j < |values| {
        assert Points(h, values[i], starts[j]);
      } else {
        assert Points(was, values[i], n);
      }
    }
  }

  lemma MapSized(h: Heap, a: nat, steps: seq<Step>, values: seq<Val>, keys: set<string>)
    requires Sized(h, steps, values) && |values| < |steps| && steps[|values|].NewMap?
    requires var entries := steps[|values|].entries;
             && keys <= entries.Keys && a < |h| && h[a].MapObj? && h[a].m.Keys == entries.Keys
             && forall k :: k in entries ==> entries[k] < |values| && h[a].m[k] == values[entries[k]]
    ensures CountKeys(h, a, keys) == SizeKeys(steps, |values|, keys)
    decreases |keys|
  {
    if keys != {} {
      var k := Pick(keys);
      assert ObjSound(h, a) && SizedAt(h, steps, values[steps[|values|].entries[k]], steps[|values|].entries[k]);
      MapSized(h, a, steps, values, keys - {k});
    }
  }

  lemma SliceSized(h: Heap, a: nat, steps: seq<Step>, values: seq<Val>, n: nat)
    requires Sized(h, steps, values) && |values| < |steps| && steps[|values|].NewSlice?
    requires var items := steps[|values|].items;
             && n <= |items| && a < |h| && h[a].SliceObj? && |h[a].items| == |items|
             && forall i :: 0 <= i < |items| ==> items[i] < |values| && h[a].items[i] == values[items[i]]
    ensures CountItems(h, a, n) == SizeItems(steps, |values|, n)
    decreases n
  {
    if n > 0 {
      var i := steps[|values|].items[n - 1];
      assert ObjSound(h, a) && SizedAt(h, steps, values[i], i);
      SliceSized(h, a, steps, values, n - 1);
    }
  }

  /** Where the walk stands after the first steps. */
  ghost predicate WalkedTo(b: ValueBuilder, steps: seq<Step>, values: seq<Val>, starts: seq<nat>)
    reads b
  {
    && b.Within() && !b.failed && Sized(b.heap, steps, values) && Apart(b.heap, steps, values, starts)
    && Formed(b.heap, steps, values) && b.built == Aliased(steps, |values|)
  }

  /** The object a step builds of the values before it. */
  function ObjectOf(s: Step, values: seq<Val>): (o: Option<Obj>)
    requires Earlier(s, |values|)
  {
    match s
    case NewMap(entries) => Some(MapObj(map k | k in entries :: values[entries[k]]))
    case NewSlice(items) => Some(SliceObj(seq(|items|, i requires 0 <= i < |items| => values[items[i]])))
    case NewBuffer(data) => Some(BufferObj(data))
    case NewAny(data) => Some(AnyObj(data))
    case _ => None
  }

  function RefTo(o: Obj, at: nat): Val {
    match o
    case MapObj(_) => MapRef(at)
    case SliceObj(_) => SliceRef(at)
    case BufferObj(_) => BufferRef(at)
    case AnyObj(_) => AnyRef(at)
  }

  /** It refers to what there is, and is as large as its step says. */
  lemma ObjectSized(h: Heap, steps: seq<Step>, values: seq<Val>, s: Step, o: Obj)
    requires Sized(h, steps, values) && |values| < |steps| && s == steps[|values|] && Earlier(s, |values|)
    requires ObjectOf(s, values) == Some(o)
    ensures Sound(h + [o]) && SizedAt(h + [o], steps, RefTo(o, |h|), |values|)
  {
    assert ObjSound(h + [o], |h|);
    Appended(h, o);
    SizedKept(h, h + [o], steps, values);
    if s.NewMap? { MapSized(h + [o], |h|, steps, values, s.entries.Keys); }
    if s.NewSlice? { SliceSized(h + [o], |h|, steps, values, |s.items|); }
  }

  /** A value built of earlier ones, copies among them. */
  method Build(b: ValueBuilder, steps: seq<Step>, values: seq<Val>, ghost starts: seq<nat>) returns (v: Val)
    requires WalkedTo(b, steps, values, starts) && |values| < |steps| && !steps[|values|].Alias?
    modifies b
    ensures WalkedTo(b, steps, values + [v], starts + [|old(b.heap)|])
  {
    ghost var h := b.heap;
    assert Earlier(steps[|values|], |values|);
    var o := ObjectOf(steps[|values|], values);
    if o.Some? {
      ObjectSized(h, steps, values, steps[|values|], o.value);
      v := RefTo(o.value, |b.heap|);
      b.heap := b.heap + [o.value];
    } else {
      v := Leaf(steps[|values|].data);
    }
    OneFormedMore(h, b.heap, steps, values, v);
    OneSizedMore(h, b.heap, steps, values, v);
    OneApartMore(h, b.heap, steps, values, starts, v, |h|);
  }

  lemma OneWalkedMore(was: Heap, h: Heap, steps: seq<Step>, values: seq<Val>, starts: seq<nat>, v: Val)
    requires Sized(was, steps, values) && Apart(was, steps, values, starts) && Formed(was, steps, values)
    requires |values| < |steps| && steps[|values|].Alias? && Sound(h) && was <= h && SizedAt(h, steps, v, |values|)
    requires steps[|values|].of < |values| && CopyOf(h, v, values[steps[|values|].of], |was|)
    ensures Sized(h, steps, values + [v]) && Apart(h, steps, values + [v], starts + [|was|])
    ensures Formed(h, steps, values + [v])
  {
    forall i | 0 <= i < |values| ensures Points(was, values[i], |was|) { assert SizedAt(was, steps, values[i], i); }
    OneFormedMore(was, h, steps, values, v);
    OneSizedMore(was, h, steps, values, v);
    OneApartMore(was, h, steps, values, starts, v, |was|);
  }

  lemma CopySized(was: Heap, h: Heap, steps: seq<Step>, values: seq<Val>, v: Val, i: nat)
    requires Sized(was, steps, values) && |values| < |steps| && steps[|values|] == Alias(i) && i < |values|
    requires was <= h && CopyOf(h, v, values[i], |was|)
    ensures SizedAt(h, steps, v, |values|)
  {
    assert SizedAt(was, steps, values[i], i);
    Kept(was, h, values[i]);
    SameCount(h, v, values[i]);
  }

  /** An alias: a copy of what it names, or the budget run past. */
  method Expand(b: ValueBuilder, steps: seq<Step>, values: seq<Val>, ghost starts: seq<nat>) returns (v: Val)
    requires WalkedTo(b, steps, values, starts) && |values| < |steps| && steps[|values|].Alias?
    modifies b
    ensures b.Within()
    ensures b.failed ==> b.budget > 0 && Aliased(steps, |values| + 1) > b.budget
    ensures !b.failed ==> WalkedTo(b, steps, values + [v], starts + [|old(b.heap)|])
  {
    ghost var h := b.heap;
    assert Earlier(steps[|values|], |values|);
    var i := steps[|values|].of;
    assert SizedAt(h, steps, values[i], i);
    v := b.Copy(values[i]);
    if !b.failed {
      CopySized(h, b.heap, steps, values, v, i);
      OneWalkedMore(h, b.heap, steps, values, starts, v);
    }
  }

  /** However a document of n bytes chains its aliases, one naming a value that holds copies made for
      others, no more than 1025 + 32n values are copied for them. They are refused exactly when they would
      come to more than 1024 + 32n, and else each stands for a copy apart from all there was before it, every
      other value holding what it was built of. */
  method CopyAliases(n: nat, steps: seq<Step>)
    returns (heap: Heap, values: seq<Val>, built: nat, failed: bool, ghost starts: seq<nat>)
    requires Runs(steps)
    ensures built <= 1025 + 32 * n
    ensures failed <==> Aliased(steps, |steps|) > 1024 + 32 * n
    ensures !failed ==> built == Aliased(steps, |steps|) && |values| == |steps|
    ensures !failed ==> Sized(heap, steps, values) && Apart(heap, steps, values, starts) && Formed(heap, steps, values)
  {
    var b := new ValueBuilder(AliasBudget(n), []);
    values, starts := [], [];
    while |values| < |steps|
      invariant |values| <= |steps| && b.budget == AliasBudget(n) && WalkedTo(b, steps, values, starts)
      decreases |steps| - |values|
    {
      var v: Val;
      ghost var start := |b.heap|;
      if steps[|values|].Alias? {
        v := Expand(b, steps, values, starts);
        if b.failed {
          AliasedGrows(steps, |values| + 1, |steps|);
          return b.heap, values, b.built, true, starts;
        }
      } else {
        v := Build(b, steps, values, starts);
      }
      values, starts := values + [v], starts + [start];
    }
    return b.heap, values, b.built, false, starts;
  }

  /** Chained aliases multiply: of "a: &a [x, x]", "b: &b [*a, *a]" and "c: [*b, *b]" the last two name
      seven values each. */
  lemma ChainMultiplies(steps: seq<Step>)
    requires steps == [NewLeaf(0), NewSlice([0, 0]), Alias(1), Alias(1), NewSlice([2, 3]), Alias(4), Alias(4)]
    ensures Runs(steps) && Aliased(steps, 4) == 6 && Aliased(steps, 7) == 20
  {
    assert Runs(steps);
    TwoItems(steps, 1);
    TwoItems(steps, 4);
    assert Aliased(steps, 0) == 0 && Aliased(steps, 1) == 0 && Aliased(steps, 2) == 0;
    assert SizeOf(steps, 0) == 1 && SizeOf(steps, 2) == 3 && SizeOf(steps, 3) == 3;
    assert Aliased(steps, 3) == 3 && Aliased(steps, 4) == 6;
    assert Aliased(steps, 5) == 6 && Aliased(steps, 6) == 13;
  }

  lemma TwoItems(steps: seq<Step>, j: nat)
    requires Runs(steps) && j < |steps| && steps[j].NewSlice? && |steps[j].items| == 2
    ensures steps[j].items[0] < j && steps[j].items[1] < j
    ensures SizeOf(steps, j) == 1 + (SizeOf(steps, steps[j].items[0]) + SizeOf(steps, steps[j].items[1]))
  {
    assert Earlier(steps[j], j);
    assert SizeItems(steps, j, 1) == SizeItems(steps, j, 0) + SizeOf(steps, steps[j].items[0]);
  }

  /** A map by any key under an alias stays the one map: what an alias of it stands for is that map. */
  lemma AnyMapShared(h: Heap, c: Val, n: nat)
    requires h == [AnyObj(0)] && CopyOf(h, c, AnyRef(0), n)
    ensures c == AnyRef(0) && !BuiltSince(h, c, 1)
  {
    assert TreeOf(h, c) == Any(0);
  }
}
