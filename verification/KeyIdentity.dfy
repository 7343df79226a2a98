/** What a mapping key resolves to, as text (ast/keyidentity.go), and how long that can grow over the anchors
    of a document (parser/anchors.go). */
module KeyIdentity {
  datatype Option<+T> = None | Some(value: T)

  /** A node, as a key is named: a scalar, or a tag that resolves one, by its kind and canonical spelling
      where it has one; a "?", an anchor or any other tag by what it stands on. */
  datatype Node =
    | Missing
    | Scalar(spelled: Option<string>)
    | Property(inner: Node)
    | Alias(name: string)
    | Sequence(items: seq<Node>)
    | Mapping(entries: seq<Entry>)

  datatype Entry = NoEntry | Entry(key: Node, value: Node)

  /** What anchors resolve to, by name, where the caller knows any. */
  type Anchors = Option<map<string, string>>

  const MAX_DEPTH := 64
  const MAX_BYTES := 4096

  /** The text so far, and whether what was asked of it had an identity. */
  datatype Written = Written(text: string, ok: bool)

  // ---------------------------------------------------------------- the writer

  /** writeKeyIdentity. */
  ghost function Wrote(b: string, n: Node, depth: nat, anchors: Anchors): Written
    decreases n, Width(n) + 1
  {
    if n.Missing? || depth > MAX_DEPTH || |b| > MAX_BYTES then Written(b, false)
    else
      match n
      case Property(inner) => Wrote(b, inner, depth, anchors)
      case Alias(name) =>
        if anchors.Some? && name in anchors.value then Written(b + anchors.value[name], true) else Written(b, false)
      case Scalar(spelled) => if spelled.Some? then Written(b + spelled.value, true) else Written(b, false)
      case Sequence(_) => WroteItems(b + "seq(", n, 0, depth, anchors)
      case Mapping(_) => WroteEntries(b + "map(", n, 0, depth, anchors)
  }

  function Width(n: Node): nat {
    if n.Sequence? then |n.items| else if n.Mapping? then |n.entries| else 0
  }

  ghost function WroteItems(b: string, n: Node, i: nat, depth: nat, anchors: Anchors): Written
    requires n.Sequence? && i <= |n.items|
    decreases n, |n.items| - i
  {
    if i == |n.items| then Written(b + ")", true)
    else
      var w := Wrote(if i > 0 then b + "," else b, n.items[i], depth + 1, anchors);
      if w.ok then WroteItems(w.text, n, i + 1, depth, anchors) else w
  }

  ghost function WroteEntries(b: string, n: Node, i: nat, depth: nat, anchors: Anchors): Written
    requires n.Mapping? && i <= |n.entries|
    decreases n, |n.entries| - i
  {
    if i == |n.entries| then Written(b + ")", true)
    else
      var w := WroteEntry(if i > 0 then b + "," else b, n.entries[i], depth, anchors);
      if w.ok then WroteEntries(w.text, n, i + 1, depth, anchors) else w
  }

  ghost function WroteEntry(b: string, e: Entry, depth: nat, anchors: Anchors): Written
    decreases e, 0
  {
    if e.NoEntry? then Written(b, false)
    else
      var k := Wrote(b, e.key, depth + 1, anchors);
      if k.ok then Wrote(k.text + ":", e.value, depth + 1, anchors) else k
  }

  class Builder {
    const anchors: Anchors
    var text: string

    constructor (anchors: Anchors)
      ensures text == "" && this.anchors == anchors
    {
      this.anchors, text := anchors, "";
    }

    method WriteKeyIdentity(n: Node, depth: nat) returns (ok: bool)
      modifies this
      ensures Written(text, ok) == Wrote(old(text), n, depth, anchors)
      decreases n, Width(n) + 1
    {
      if n.Missing? || depth > MAX_DEPTH || |text| > MAX_BYTES {
        return false;
      }
      match n
      case Property(inner) =>
        ok := WriteKeyIdentity(inner, depth);
      case Alias(name) =>
        if anchors.None? || name !in anchors.value {
          return false;
        }
        text := text + anchors.value[name];
        return true;
      case Scalar(spelled) =>
        if spelled.None? {
          return false;
        }
        text := text + spelled.value;
        return true;
      case Sequence(_) =>
        ok := WriteItems(n, depth);
      case Mapping(_) =>
        ok := WriteEntries(n, depth);
    }

    method WriteItems(n: Node, depth: nat) returns (ok: bool)
      requires n.Sequence?
      modifies this
      ensures Written(text, ok) == WroteItems(old(text) + "seq(", n, 0, depth, anchors)
      decreases n, Width(n)
    {
      text := text + "seq(";
      ghost var was := text;
      var i := 0;
      while i < |n.items|
        invariant i <= |n.items|
        invariant WroteItems(text, n, i, depth, anchors) == WroteItems(was, n, 0, depth, anchors)
      {
        if i > 0 {
          text := text + ",";
        }
        ok := WriteKeyIdentity(n.items[i], depth + 1);
        if !ok {
          return false;
        }
        i := i + 1;
      }
      text := text + ")";
      return true;
    }

    /** writeEntriesIdentity. */
    method WriteEntries(n: Node, depth: nat) returns (ok: bool)
      requires n.Mapping?
      modifies this
      ensures Written(text, ok) == WroteEntries(old(text) + "map(", n, 0, depth, anchors)
      decreases n, Width(n)
    {
      text := text + "map(";
      ghost var was := text;
      var i := 0;
      while i < |n.entries|
        invariant i <= |n.entries|
        invariant WroteEntries(text, n, i, depth, anchors) == WroteEntries(was, n, 0, depth, anchors)
      {
        if i > 0 {
          text := text + ",";
        }
        ok := WriteEntry(n.entries[i], depth);
        if !ok {
          return false;
        }
        i := i + 1;
      }
      text := text + ")";
      return true;
    }

    method WriteEntry(e: Entry, depth: nat) returns (ok: bool)
      modifies this
      ensures Written(text, ok) == WroteEntry(old(text), e, depth, anchors)
      decreases e, 0
    {
      if e.NoEntry? {
        return false;
      }
      ok := WriteKeyIdentity(e.key, depth + 1);
      if !ok {
        return;
      }
      text := text + ":";
      ok := WriteKeyIdentity(e.value, depth + 1);
    }
  }

  /** KeyIdentityWithAnchors: the empty string is no identity. */
  ghost function Identity(n: Node, anchors: Anchors): string {
    var w := Wrote("", n, 0, anchors);
    if w.ok then w.text else ""
  }

  method KeyIdentityWithAnchors(n: Node, anchors: Anchors) returns (identity: string)
    ensures identity == Identity(n, anchors)
  {
    var b := new Builder(anchors);
    var ok := b.WriteKeyIdentity(n, 0);
    return if ok then b.text else "";
  }

  // ---------------------------------------------------------------- what an identity spells

  /** The identity of a node with no bound on it, or None where some leaf has none. */
  ghost function Spelled(n: Node, anchors: Anchors): Option<string>
    decreases n, Width(n) + 1
  {
    match n
    case Missing => None
    case Property(inner) => Spelled(inner, anchors)
    case Alias(name) => if anchors.Some? && name in anchors.value then Some(anchors.value[name]) else None
    case Scalar(spelled) => spelled
    case Sequence(items) => Enclosed("seq(", SpelledItems(n, |items|, anchors))
    case Mapping(entries) => Enclosed("map(", SpelledEntries(n, |entries|, anchors))
  }

  ghost function Enclosed(open: string, inner: Option<string>): Option<string> {
    if inner.None? then None else Some(open + (inner.value + ")"))
  }

  /** Two parts, or None where either is. */
  ghost function Both(a: Option<string>, sep: string, b: Option<string>): Option<string> {
    if a.None? || b.None? then None else Some(a.value + (sep + b.value))
  }

  ghost function SpelledItems(n: Node, i: nat, anchors: Anchors): Option<string>
    requires n.Sequence? && i <= |n.items|
    decreases n, i
  {
    if i == 0 then Some("")
    else Both(SpelledItems(n, i - 1, anchors), if i > 1 then "," else "", Spelled(n.items[i - 1], anchors))
  }

  ghost function SpelledEntries(n: Node, i: nat, anchors: Anchors): Option<string>
    requires n.Mapping? && i <= |n.entries|
    decreases n, i
  {
    if i == 0 then Some("")
    else Both(SpelledEntries(n, i - 1, anchors), if i > 1 then "," else "", SpelledEntry(n.entries[i - 1], anchors))
  }

  ghost function SpelledEntry(e: Entry, anchors: Anchors): Option<string>
    decreases e, 0
  {
    if e.NoEntry? then None else Both(Spelled(e.key, anchors), ":", Spelled(e.value, anchors))
  }

  lemma Join(b: string, a: string, sep: string, c: string)
    ensures ((b + a) + sep) + c == b + (a + (sep + c))
  {
  }

  /** Where a node has an identity, it is that spelling put behind what stood before. */
  lemma {:induction false} WroteSpelled(b: string, n: Node, depth: nat, anchors: Anchors)
    requires Wrote(b, n, depth, anchors).ok
    ensures Spelled(n, anchors).Some? && Wrote(b, n, depth, anchors).text == b + Spelled(n, anchors).value
    decreases n, Width(n) + 1
  {
    match n
    case Missing =>
    case Property(inner) => WroteSpelled(b, inner, depth, anchors);
    case Alias(_) =>
    case Scalar(_) =>
    case Sequence(_) =>
      ItemsSpelled(b + "seq(", b + "seq(", n, 0, depth, anchors);
      Join(b, "seq(", SpelledItems(n, Width(n), anchors).value, ")");
    case Mapping(_) =>
      EntriesSpelled(b + "map(", b + "map(", n, 0, depth, anchors);
      Join(b, "map(", SpelledEntries(n, Width(n), anchors).value, ")");
  }

  lemma {:induction false} ItemsSpelled(b: string, start: string, n: Node, i: nat, depth: nat, anchors: Anchors)
    requires n.Sequence? && i <= |n.items| && WroteItems(b, n, i, depth, anchors).ok
    requires SpelledItems(n, i, anchors).Some? && b == start + SpelledItems(n, i, anchors).value
    ensures SpelledItems(n, |n.items|, anchors).Some?
    ensures WroteItems(b, n, i, depth, anchors).text == (start + SpelledItems(n, |n.items|, anchors).value) + ")"
    decreases n, |n.items| - i
  {
    if i < |n.items| {
      var sep := if i > 0 then "," else "";
      assert (if i > 0 then b + "," else b) == b + sep;
      WroteSpelled(b + sep, n.items[i], depth + 1, anchors);
      Join(start, SpelledItems(n, i, anchors).value, sep, Spelled(n.items[i], anchors).value);
      ItemsSpelled(Wrote(b + sep, n.items[i], depth + 1, anchors).text, start, n, i + 1, depth, anchors);
    }
  }

  lemma {:induction false} EntriesSpelled(b: string, start: string, n: Node, i: nat, depth: nat, anchors: Anchors)
    requires n.Mapping? && i <= |n.entries| && WroteEntries(b, n, i, depth, anchors).ok
    requires SpelledEntries(n, i, anchors).Some? && b == start + SpelledEntries(n, i, anchors).value
    ensures SpelledEntries(n, |n.entries|, anchors).Some?
    ensures WroteEntries(b, n, i, depth, anchors).text == (start + SpelledEntries(n, |n.entries|, anchors).value) + ")"
    decreases n, |n.entries| - i
  {
    if i < |n.entries| {
      var sep := if i > 0 then "," else "";
      assert (if i > 0 then b + "," else b) == b + sep;
      EntrySpelled(b + sep, n.entries[i], depth, anchors);
      Join(start, SpelledEntries(n, i, anchors).value, sep, SpelledEntry(n.entries[i], anchors).value);
      EntriesSpelled(WroteEntry(b + sep, n.entries[i], depth, anchors).text, start, n, i + 1, depth, anchors);
    }
  }

  lemma {:induction false} EntrySpelled(b: string, e: Entry, depth: nat, anchors: Anchors)
    requires WroteEntry(b, e, depth, anchors).ok
    ensures SpelledEntry(e, anchors).Some?
            && WroteEntry(b, e, depth, anchors).text == b + SpelledEntry(e, anchors).value
    decreases e, 0
  {
    WroteSpelled(b, e.key, depth + 1, anchors);
    var k := Wrote(b, e.key, depth + 1, anchors).text;
    WroteSpelled(k + ":", e.value, depth + 1, anchors);
    Join(b, Spelled(e.key, anchors).value, ":", Spelled(e.value, anchors).value);
  }

  // ---------------------------------------------------------------- when a node has an identity

  ghost function Length(s: Option<string>): nat {
    if s.None? then 0 else |s.value|
  }

  /** How far into a collection's spelling its i'th item, or its i'th entry, begins. */
  ghost function ItemStart(n: Node, i: nat, anchors: Anchors): nat
    requires n.Sequence? && i < |n.items|
    decreases n, |n.items|
  {
    4 + Length(SpelledItems(n, i, anchors)) + if i > 0 then 1 else 0
  }

  ghost function EntryStart(n: Node, i: nat, anchors: Anchors): nat
    requires n.Mapping? && i < |n.entries|
    decreases n, |n.entries|
  {
    4 + Length(SpelledEntries(n, i, anchors)) + if i > 0 then 1 else 0
  }

  /** Every node there is in n stands at most 64 deep and begins at most 4096 bytes in, n itself standing
      depth deep and beginning at `at`. */
  ghost predicate Within(n: Node, at: nat, depth: nat, anchors: Anchors)
    decreases n, Width(n) + 1
  {
    match n
    case Missing => false
    case Property(inner) => Within(inner, at, depth, anchors)
    case Alias(_) => depth <= 64 && at <= 4096
    case Scalar(_) => depth <= 64 && at <= 4096
    case Sequence(_) => depth <= 64 && at <= 4096 && ItemsStand(n, at, depth, anchors)
    case Mapping(_) => depth <= 64 && at <= 4096 && EntriesStand(n, at, depth, anchors)
  }

  ghost predicate ItemsStand(n: Node, at: nat, depth: nat, anchors: Anchors)
    requires n.Sequence?
    decreases n, Width(n)
  {
    forall i :: 0 <= i < |n.items| ==> Within(n.items[i], at + ItemStart(n, i, anchors), depth + 1, anchors)
  }

  ghost predicate EntriesStand(n: Node, at: nat, depth: nat, anchors: Anchors)
    requires n.Mapping?
    decreases n, Width(n)
  {
    forall i :: 0 <= i < |n.entries| ==> EntryStands(n.entries[i], at + EntryStart(n, i, anchors), depth, anchors)
  }

  ghost predicate EntryStands(e: Entry, at: nat, depth: nat, anchors: Anchors)
    decreases e, 0
  {
    && e.Entry?
    && Within(e.key, at, depth + 1, anchors)
    && Within(e.value, at + Length(Spelled(e.key, anchors)) + 1, depth + 1, anchors)
  }

  lemma {:induction false} ItemsAllSpelled(n: Node, i: nat, anchors: Anchors)
    requires n.Sequence? && i <= |n.items|
    ensures SpelledItems(n, i, anchors).Some? <==> forall k :: 0 <= k < i ==> Spelled(n.items[k], anchors).Some?
    decreases i
  {
    if i > 0 { ItemsAllSpelled(n, i - 1, anchors); }
  }

  lemma {:induction false} EntriesAllSpelled(n: Node, i: nat, anchors: Anchors)
    requires n.Mapping? && i <= |n.entries|
    ensures SpelledEntries(n, i, anchors).Some?
            <==> forall k :: 0 <= k < i ==> SpelledEntry(n.entries[k], anchors).Some?
    decreases i
  {
    if i > 0 { EntriesAllSpelled(n, i - 1, anchors); }
  }

  /** A node has an identity exactly where every leaf of it has one and no node in it stands too deep or begins
      too far in. */
  lemma {:induction false} WroteExactly(b: string, n: Node, depth: nat, anchors: Anchors)
    ensures Wrote(b, n, depth, anchors).ok <==> Spelled(n, anchors).Some? && Within(n, |b|, depth, anchors)
    decreases n, Width(n) + 1
  {
    if depth > 64 || |b| > 4096 {
      if Within(n, |b|, depth, anchors) { WithinBounds(n, |b|, depth, anchors); }
      return;
    }
    match n
    case Missing =>
    case Property(inner) => WroteExactly(b, inner, depth, anchors);
    case Alias(_) =>
    case Scalar(_) =>
    case Sequence(items) =>
      ItemsExactly(b + "seq(", b, n, 0, depth, anchors);
      SequenceFits(n, |b|, depth, anchors);
    case Mapping(entries) =>
      EntriesExactly(b + "map(", b, n, 0, depth, anchors);
      MappingFits(n, |b|, depth, anchors);
  }

  lemma SequenceFits(n: Node, at: nat, depth: nat, anchors: Anchors)
    requires n.Sequence?
    ensures (forall k :: 0 <= k < |n.items| ==> ItemFits(n, k, at, depth, anchors))
            <==> Spelled(n, anchors).Some? && ItemsStand(n, at, depth, anchors)
  {
    ItemsAllSpelled(n, |n.items|, anchors);
    forall k | 0 <= k < |n.items|
      ensures ItemFits(n, k, at, depth, anchors)
              <==> Spelled(n.items[k], anchors).Some?
                   && Within(n.items[k], at + ItemStart(n, k, anchors), depth + 1, anchors)
    {
    }
  }

  lemma MappingFits(n: Node, at: nat, depth: nat, anchors: Anchors)
    requires n.Mapping?
    ensures (forall k :: 0 <= k < |n.entries| ==> EntryFits(n, k, at, depth, anchors))
            <==> Spelled(n, anchors).Some? && EntriesStand(n, at, depth, anchors)
  {
    EntriesAllSpelled(n, |n.entries|, anchors);
    forall k | 0 <= k < |n.entries|
      ensures EntryFits(n, k, at, depth, anchors)
              <==> SpelledEntry(n.entries[k], anchors).Some?
                   && EntryStands(n.entries[k], at + EntryStart(n, k, anchors), depth, anchors)
    {
    }
  }

  lemma {:induction false} WithinBounds(n: Node, at: nat, depth: nat, anchors: Anchors)
    requires Within(n, at, depth, anchors)
    ensures depth <= 64 && at <= 4096
    decreases n
  {
    if n.Property? { WithinBounds(n.inner, at, depth, anchors); }
  }

  ghost predicate ItemFits(n: Node, k: nat, at: nat, depth: nat, anchors: Anchors)
    requires n.Sequence? && k < |n.items|
  {
    Spelled(n.items[k], anchors).Some? && Within(n.items[k], at + ItemStart(n, k, anchors), depth + 1, anchors)
  }

  lemma {:induction false} ItemsExactly(b: string, start: string, n: Node, i: nat, depth: nat, anchors: Anchors)
    requires n.Sequence? && i <= |n.items|
    requires SpelledItems(n, i, anchors).Some? && b == (start + "seq(") + SpelledItems(n, i, anchors).value
    ensures WroteItems(b, n, i, depth, anchors).ok
            <==> forall k :: i <= k < |n.items| ==> ItemFits(n, k, |start|, depth, anchors)
    decreases n, |n.items| - i
  {
    if i < |n.items| {
      var sep := if i > 0 then "," else "";
      var b' := b + sep;
      assert (if i > 0 then b + "," else b) == b';
      assert |b'| == |start| + ItemStart(n, i, anchors);
      WroteExactly(b', n.items[i], depth + 1, anchors);
      var w := Wrote(b', n.items[i], depth + 1, anchors);
      assert w.ok <==> ItemFits(n, i, |start|, depth, anchors);
      if w.ok {
        WroteSpelled(b', n.items[i], depth + 1, anchors);
        Join(start + "seq(", SpelledItems(n, i, anchors).value, sep, Spelled(n.items[i], anchors).value);
        ItemsExactly(w.text, start, n, i + 1, depth, anchors);
      }
    }
  }

  ghost predicate EntryFits(n: Node, k: nat, at: nat, depth: nat, anchors: Anchors)
    requires n.Mapping? && k < |n.entries|
  {
    && SpelledEntry(n.entries[k], anchors).Some?
    && EntryStands(n.entries[k], at + EntryStart(n, k, anchors), depth, anchors)
  }

  lemma {:induction false} EntryExactly(b: string, e: Entry, depth: nat, anchors: Anchors)
    ensures WroteEntry(b, e, depth, anchors).ok
            <==> SpelledEntry(e, anchors).Some? && EntryStands(e, |b|, depth, anchors)
    decreases e, 0
  {
    if e.Entry? {
      WroteExactly(b, e.key, depth + 1, anchors);
      var k := Wrote(b, e.key, depth + 1, anchors);
      if k.ok {
        WroteSpelled(b, e.key, depth + 1, anchors);
        WroteExactly(k.text + ":", e.value, depth + 1, anchors);
        assert |k.text + ":"| == |b| + Length(Spelled(e.key, anchors)) + 1;
      }
    }
  }

  lemma {:induction false} EntriesExactly(b: string, start: string, n: Node, i: nat, depth: nat, anchors: Anchors)
    requires n.Mapping? && i <= |n.entries|
    requires SpelledEntries(n, i, anchors).Some? && b == (start + "map(") + SpelledEntries(n, i, anchors).value
    ensures WroteEntries(b, n, i, depth, anchors).ok
            <==> forall k :: i <= k < |n.entries| ==> EntryFits(n, k, |start|, depth, anchors)
    decreases n, |n.entries| - i
  {
    if i < |n.entries| {
      var sep := if i > 0 then "," else "";
      var b' := b + sep;
      assert (if i > 0 then b + "," else b) == b';
      assert |b'| == |start| + EntryStart(n, i, anchors);
      EntryExactly(b', n.entries[i], depth, anchors);
      var w := WroteEntry(b', n.entries[i], depth, anchors);
      assert w.ok <==> EntryFits(n, i, |start|, depth, anchors);
      if w.ok {
        EntrySpelled(b', n.entries[i], depth, anchors);
        Join(start + "map(", SpelledEntries(n, i, anchors).value, sep, SpelledEntry(n.entries[i], anchors).value);
        EntriesExactly(w.text, start, n, i + 1, depth, anchors);
      }
    }
  }

  /** A key's identity is its spelling where it is all within bounds, and else it has none. */
  lemma IdentityExactly(n: Node, anchors: Anchors)
    ensures Identity(n, anchors)
            == if Spelled(n, anchors).Some? && Within(n, 0, 0, anchors) then Spelled(n, anchors).value else ""
  {
    WroteExactly("", n, 0, anchors);
    if Wrote("", n, 0, anchors).ok { WroteSpelled("", n, 0, anchors); }
  }

  /** A node and one spelled otherwise -- an alias for what it names, say -- are one key wherever both have
      an identity. */
  lemma SameSpelling(n: Node, m: Node, anchors: Anchors)
    requires Spelled(n, anchors) == Spelled(m, anchors) && Wrote("", n, 0, anchors).ok && Wrote("", m, 0, anchors).ok
    ensures Identity(n, anchors) == Identity(m, anchors)
  {
    WroteSpelled("", n, 0, anchors);
    WroteSpelled("", m, 0, anchors);
  }

  // ---------------------------------------------------------------- what an identity tells apart

  predicate Special(c: char) {
    c in {'(', ')', ',', ':'}
  }

  /** No alias in the node, and every scalar in it spelled, in none of the characters collections are. */
  ghost predicate Clean(n: Node)
    decreases n
  {
    match n
    case Missing => false
    case Alias(_) => false
    case Property(inner) => Clean(inner)
    case Scalar(spelled) => spelled.Some? && spelled.value != "" && forall c :: c in spelled.value ==> !Special(c)
    case Sequence(items) => forall i :: 0 <= i < |items| ==> Clean(items[i])
    case Mapping(entries) => forall i :: 0 <= i < |entries| ==> CleanEntry(entries[i])
  }

  ghost predicate CleanEntry(e: Entry)
    decreases e
  {
    e.Entry? && Clean(e.key) && Clean(e.value)
  }

  /** One key by section 3.2.1.1 of YAML 1.2: the same scalar, or collections of one kind that hold the same
      in the same order, anchors and "?" aside. */
  ghost predicate OneKey(n: Node, m: Node)
    decreases n, m
  {
    if n.Property? then OneKey(n.inner, m)
    else if m.Property? then OneKey(n, m.inner)
    else
      match n
      case Sequence(items) =>
        m.Sequence? && |m.items| == |items| && forall i :: 0 <= i < |items| ==> OneKey(items[i], m.items[i])
      case Mapping(entries) =>
        m.Mapping? && |m.entries| == |entries|
        && forall i :: 0 <= i < |entries| ==> OneEntry(entries[i], m.entries[i])
      case _ => n == m
  }

  ghost predicate OneEntry(e: Entry, f: Entry)
    decreases e, f
  {
    e.Entry? && f.Entry? && OneKey(e.key, f.key) && OneKey(e.value, f.value)
  }

  /** The text of a clean node. */
  ghost function TextOf(n: Node): string
    requires Clean(n)
    decreases n, Width(n) + 1
  {
    match n
    case Property(inner) => TextOf(inner)
    case Scalar(spelled) => spelled.value
    case Sequence(_) => "seq(" + ItemsFrom(n, 0)
    case Mapping(_) => "map(" + EntriesFrom(n, 0)
  }

  ghost function Comma(i: nat): string {
    if i > 0 then "," else ""
  }

  ghost function ItemsFrom(n: Node, i: nat): string
    requires Clean(n) && n.Sequence? && i <= |n.items|
    decreases n, |n.items| - i
  {
    if i == |n.items| then ")" else Comma(i) + (TextOf(n.items[i]) + ItemsFrom(n, i + 1))
  }

  ghost function EntriesFrom(n: Node, i: nat): string
    requires Clean(n) && n.Mapping? && i <= |n.entries|
    decreases n, |n.entries| - i
  {
    if i == |n.entries| then ")"
    else
      var e := n.entries[i];
      assert CleanEntry(e);
      Comma(i) + (TextOf(e.key) + (":" + (TextOf(e.value) + EntriesFrom(n, i + 1))))
  }

  lemma {:induction false} SpelledIsText(n: Node, anchors: Anchors)
    requires Clean(n)
    ensures Spelled(n, anchors) == Some(TextOf(n))
    decreases n, Width(n) + 1
  {
    match n
    case Property(inner) => SpelledIsText(inner, anchors);
    case Scalar(_) =>
    case Sequence(_) =>
      ItemsAreText(n, 0, anchors);
      assert "" + ItemsFrom(n, 0) == ItemsFrom(n, 0);
    case Mapping(_) =>
      EntriesAreText(n, 0, anchors);
      assert "" + EntriesFrom(n, 0) == EntriesFrom(n, 0);
  }

  lemma {:induction false} ItemsAreText(n: Node, i: nat, anchors: Anchors)
    requires Clean(n) && n.Sequence? && i <= |n.items| && SpelledItems(n, i, anchors).Some?
    ensures SpelledItems(n, |n.items|, anchors).Some?
    ensures SpelledItems(n, |n.items|, anchors).value + ")" == SpelledItems(n, i, anchors).value + ItemsFrom(n, i)
    decreases n, |n.items| - i
  {
    if i < |n.items| {
      SpelledIsText(n.items[i], anchors);
      ItemsAreText(n, i + 1, anchors);
      Regroup(SpelledItems(n, i, anchors).value, Comma(i), TextOf(n.items[i]), ItemsFrom(n, i + 1));
    }
  }

  lemma Regroup(a: string, b: string, c: string, d: string)
    ensures (a + (b + c)) + d == a + (b + (c + d))
  {
  }

  lemma {:induction false} EntriesAreText(n: Node, i: nat, anchors: Anchors)
    requires Clean(n) && n.Mapping? && i <= |n.entries| && SpelledEntries(n, i, anchors).Some?
    ensures SpelledEntries(n, |n.entries|, anchors).Some?
    ensures SpelledEntries(n, |n.entries|, anchors).value + ")"
            == SpelledEntries(n, i, anchors).value + EntriesFrom(n, i)
    decreases n, |n.entries| - i
  {
    if i < |n.entries| {
      var e := n.entries[i];
      assert CleanEntry(e);
      SpelledIsText(e.key, anchors);
      SpelledIsText(e.value, anchors);
      EntriesAreText(n, i + 1, anchors);
      Regroup(TextOf(e.key), ":", TextOf(e.value), EntriesFrom(n, i + 1));
      Regroup(SpelledEntries(n, i, anchors).value, Comma(i), TextOf(e.key) + (":" + TextOf(e.value)),
              EntriesFrom(n, i + 1));
    }
  }

  /** What may stand behind a node's text. */
  predicate Stops(x: string) {
    x == "" || x[0] in {')', ',', ':'}
  }

  lemma {:induction false} OpensPlain(n: Node)
    requires Clean(n)
    ensures TextOf(n) != "" && !Special(TextOf(n)[0])
    decreases n
  {
    if n.Property? { OpensPlain(n.inner); }
  }

  lemma NotShorter(s: string, t: string, x: string, y: string)
    requires Stops(x) && |s| < |t| && forall c :: c in t ==> !Special(c)
    ensures s + x != t + y
  {
    if x == "" {
      assert |s + x| < |t + y|;
    } else {
      assert (s + x)[|s|] == x[0] && (t + y)[|s|] == t[|s|] && t[|s|] in t;
    }
  }

  lemma LeafEnds(s: string, t: string, x: string, y: string)
    requires forall c :: c in s || c in t ==> !Special(c)
    requires Stops(x) && Stops(y) && s + x == t + y
    ensures s == t && x == y
  {
    if |s| < |t| {
      NotShorter(s, t, x, y);
    } else if |t| < |s| {
      NotShorter(t, s, y, x);
    }
    assert (s + x)[..|s|] == s && (t + y)[..|t|] == t;
    assert (s + x)[|s|..] == x && (t + y)[|t|..] == y;
  }

  lemma LeafNoCollection(s: string, open: string, inner: string, x: string, y: string)
    requires forall c :: c in s ==> !Special(c)
    requires Stops(x) && open in {"seq(", "map("}
    ensures s + x != (open + inner) + y
  {
    var a, b := s + x, (open + inner) + y;
    if |s| > 3 {
      assert a[3] == s[3] && s[3] in s && b[3] == '(';
    } else if x != "" {
      assert a[|s|] == x[0] && b[|s|] == open[|s|];
    } else {
      assert |a| < |b|;
    }
  }

  lemma Cancel(a: string, x: string, y: string)
    requires a + x == a + y
    ensures x == y
  {
    assert (a + x)[|a|..] == x && (a + y)[|a|..] == y;
  }

  lemma SequenceNoMapping(a: string, b: string, x: string, y: string)
    ensures ("seq(" + a) + x != ("map(" + b) + y
  {
    assert (("seq(" + a) + x)[0] == 's' && (("map(" + b) + y)[0] == 'm';
  }

  lemma SameKind(n: Node, m: Node, x: string, y: string)
    requires Clean(n) && Clean(m) && !n.Property? && !m.Property? && Stops(x) && Stops(y)
    requires TextOf(n) + x == TextOf(m) + y
    ensures n.Scalar? == m.Scalar? && n.Sequence? == m.Sequence?
  {
    var s, t := TextOf(n), TextOf(m);
    match (n, m)
    case (Scalar(_), Sequence(_)) => LeafNoCollection(s, "seq(", ItemsFrom(m, 0), x, y);
    case (Scalar(_), Mapping(_)) => LeafNoCollection(s, "map(", EntriesFrom(m, 0), x, y);
    case (Sequence(_), Scalar(_)) => LeafNoCollection(t, "seq(", ItemsFrom(n, 0), y, x);
    case (Mapping(_), Scalar(_)) => LeafNoCollection(t, "map(", EntriesFrom(n, 0), y, x);
    case (Sequence(_), Mapping(_)) => SequenceNoMapping(ItemsFrom(n, 0), EntriesFrom(m, 0), x, y);
    case (Mapping(_), Sequence(_)) => SequenceNoMapping(ItemsFrom(m, 0), EntriesFrom(n, 0), y, x);
    case _ =>
  }

  /** A clean text is read back in one way only. */
  lemma {:induction false} TextUnique(n: Node, m: Node, x: string, y: string)
    requires Clean(n) && Clean(m) && Stops(x) && Stops(y) && TextOf(n) + x == TextOf(m) + y
    ensures OneKey(n, m) && x == y
    decreases n, m, 1
  {
    if n.Property? {
      TextUnique(n.inner, m, x, y);
    } else if m.Property? {
      TextUnique(n, m.inner, x, y);
    } else {
      SameKind(n, m, x, y);
      if n.Scalar? {
        LeafEnds(TextOf(n), TextOf(m), x, y);
      } else if n.Sequence? {
        CancelOpen("seq(", ItemsFrom(n, 0), ItemsFrom(m, 0), x, y);
        ItemsUnique(n, m, 0, x, y);
      } else {
        CancelOpen("map(", EntriesFrom(n, 0), EntriesFrom(m, 0), x, y);
        EntriesUnique(n, m, 0, x, y);
      }
    }
  }

  lemma CancelOpen(open: string, a: string, b: string, x: string, y: string)
    requires (open + a) + x == (open + b) + y
    ensures a + x == b + y
  {
    assert (open + a) + x == open + (a + x) && (open + b) + y == open + (b + y);
    Cancel(open, a + x, b + y);
  }

  lemma ItemsStop(n: Node, i: nat, x: string)
    requires Clean(n) && n.Sequence? && 0 < i <= |n.items|
    ensures Stops(ItemsFrom(n, i) + x)
  {
  }

  lemma EntriesStop(n: Node, i: nat, x: string)
    requires Clean(n) && n.Mapping? && 0 < i <= |n.entries|
    ensures Stops(EntriesFrom(n, i) + x)
  {
  }

  /** A closing bracket comes next exactly where all the items have. */
  lemma ItemsEnd(n: Node, i: nat, x: string)
    requires Clean(n) && n.Sequence? && i <= |n.items|
    ensures (ItemsFrom(n, i) + x) != "" && ((ItemsFrom(n, i) + x)[0] == ')' <==> i == |n.items|)
  {
    if i < |n.items| { OpensPlain(n.items[i]); }
  }

  lemma EntriesEnd(n: Node, i: nat, x: string)
    requires Clean(n) && n.Mapping? && i <= |n.entries|
    ensures (EntriesFrom(n, i) + x) != "" && ((EntriesFrom(n, i) + x)[0] == ')' <==> i == |n.entries|)
  {
    if i < |n.entries| {
      assert CleanEntry(n.entries[i]);
      OpensPlain(n.entries[i].key);
    }
  }

  lemma {:induction false} ItemsUnique(n: Node, m: Node, i: nat, x: string, y: string)
    requires Clean(n) && Clean(m) && n.Sequence? && m.Sequence? && i <= |n.items| && i <= |m.items|
    requires Stops(x) && Stops(y) && ItemsFrom(n, i) + x == ItemsFrom(m, i) + y
    ensures |n.items| == |m.items| && x == y
    ensures forall k :: i <= k < |n.items| ==> OneKey(n.items[k], m.items[k])
    decreases n, m, 0, |n.items| - i
  {
    ItemsEnd(n, i, x);
    ItemsEnd(m, i, y);
    if i == |n.items| {
      Cancel(")", x, y);
    } else {
      var a, b := TextOf(n.items[i]), TextOf(m.items[i]);
      var u, v := ItemsFrom(n, i + 1), ItemsFrom(m, i + 1);
      CancelPart(Comma(i), a, b, u, v, x, y);
      ItemsStop(n, i + 1, x);
      ItemsStop(m, i + 1, y);
      TextUnique(n.items[i], m.items[i], u + x, v + y);
      ItemsUnique(n, m, i + 1, x, y);
    }
  }

  lemma CancelPart(sep: string, a: string, b: string, u: string, v: string, x: string, y: string)
    requires (sep + (a + u)) + x == (sep + (b + v)) + y
    ensures a + (u + x) == b + (v + y)
  {
    assert (sep + (a + u)) + x == sep + (a + (u + x)) && (sep + (b + v)) + y == sep + (b + (v + y));
    Cancel(sep, a + (u + x), b + (v + y));
  }

  lemma {:induction false} EntriesUnique(n: Node, m: Node, i: nat, x: string, y: string)
    requires Clean(n) && Clean(m) && n.Mapping? && m.Mapping? && i <= |n.entries| && i <= |m.entries|
    requires Stops(x) && Stops(y) && EntriesFrom(n, i) + x == EntriesFrom(m, i) + y
    ensures |n.entries| == |m.entries| && x == y
    ensures forall k :: i <= k < |n.entries| ==> OneEntry(n.entries[k], m.entries[k])
    decreases n, m, 0, |n.entries| - i
  {
    EntriesEnd(n, i, x);
    EntriesEnd(m, i, y);
    if i == |n.entries| {
      Cancel(")", x, y);
    } else {
      var e, f := n.entries[i], m.entries[i];
      assert CleanEntry(e) && CleanEntry(f);
      var u, v := EntriesFrom(n, i + 1), EntriesFrom(m, i + 1);
      var p, q := TextOf(e.value) + u, TextOf(f.value) + v;
      CancelPart(Comma(i), TextOf(e.key), TextOf(f.key), ":" + p, ":" + q, x, y);
      TextUnique(e.key, f.key, (":" + p) + x, (":" + q) + y);
      CancelPart(":", TextOf(e.value), TextOf(f.value), u, v, x, y);
      EntriesStop(n, i + 1, x);
      EntriesStop(m, i + 1, y);
      TextUnique(e.value, f.value, u + x, v + y);
      EntriesUnique(n, m, i + 1, x, y);
    }
  }

  /** So two clean keys with an identity are named alike only where they are one key. */
  lemma NamedApart(n: Node, m: Node, anchors: Anchors)
    requires Clean(n) && Clean(m) && Identity(n, anchors) != "" && Identity(n, anchors) == Identity(m, anchors)
    ensures OneKey(n, m)
  {
    IdentityExactly(n, anchors);
    IdentityExactly(m, anchors);
    SpelledIsText(n, anchors);
    SpelledIsText(m, anchors);
    assert TextOf(n) + "" == TextOf(n) && TextOf(m) + "" == TextOf(m);
    TextUnique(n, m, "", "");
  }

  /** The case it misses: "[a, b]" and "['a,string/b']" are two keys and are named alike. */
  lemma TwoKeysNamedAlike()
    ensures var two := Sequence([Scalar(Some("string/a")), Scalar(Some("string/b"))]);
            var one := Sequence([Scalar(Some("string/a,string/b"))]);
            !OneKey(two, one) && Spelled(two, None) == Spelled(one, None) == Some("seq(string/a,string/b)")
  {
    var two := Sequence([Scalar(Some("string/a")), Scalar(Some("string/b"))]);
    var one := Sequence([Scalar(Some("string/a,string/b"))]);
    assert SpelledItems(two, 1, None).value == "" + ("" + "string/a") == "string/a";
    assert SpelledItems(two, 2, None).value == "string/a" + ("," + "string/b");
    assert SpelledItems(one, 1, None).value == "" + ("" + "string/a,string/b");
    assert "seq(" + (("string/a" + ("," + "string/b")) + ")") == "seq(string/a,string/b)";
    assert "seq(" + (("" + ("" + "string/a,string/b")) + ")") == "seq(string/a,string/b)";
  }

  // ---------------------------------------------------------------- how long an identity can grow

  function Max(a: nat, b: nat): nat {
    if a < b then b else a
  }

  /** The longest leaf of a node: a scalar's spelling, what an alias's anchor resolves to, or an empty
      collection's brackets. */
  ghost function Longest(n: Node, anchors: Anchors): nat
    decreases n, Width(n) + 1
  {
    match n
    case Missing => 0
    case Property(inner) => Longest(inner, anchors)
    case Alias(name) => if anchors.Some? && name in anchors.value then |anchors.value[name]| else 0
    case Scalar(spelled) => if spelled.Some? then |spelled.value| else 0
    case Sequence(items) => LongestItem(n, |items|, anchors)
    case Mapping(entries) => LongestEntry(n, |entries|, anchors)
  }

  ghost function LongestItem(n: Node, i: nat, anchors: Anchors): nat
    requires n.Sequence? && i <= |n.items|
    decreases n, i
  {
    if i == 0 then 5 else Max(LongestItem(n, i - 1, anchors), Longest(n.items[i - 1], anchors))
  }

  ghost function LongestEntry(n: Node, i: nat, anchors: Anchors): nat
    requires n.Mapping? && i <= |n.entries|
    decreases n, i
  {
    if i == 0 then 5
    else
      var e := n.entries[i - 1];
      Max(LongestEntry(n, i - 1, anchors),
          if e.NoEntry? then 0 else Max(Longest(e.key, anchors), Longest(e.value, anchors)))
  }

  lemma {:induction false} ItemBelow(n: Node, i: nat, j: nat, anchors: Anchors)
    requires n.Sequence? && i < j <= |n.items|
    ensures Longest(n.items[i], anchors) <= LongestItem(n, j, anchors) && 5 <= LongestItem(n, j, anchors)
    decreases j
  {
    if i < j - 1 { ItemBelow(n, i, j - 1, anchors); } else { FiveAtLeast(n, i, anchors); }
  }

  lemma {:induction false} FiveAtLeast(n: Node, j: nat, anchors: Anchors)
    requires n.Sequence? && j <= |n.items|
    ensures 5 <= LongestItem(n, j, anchors)
    decreases j
  {
    if j > 0 { FiveAtLeast(n, j - 1, anchors); }
  }

  lemma {:induction false} EntryBelow(n: Node, i: nat, j: nat, anchors: Anchors)
    requires n.Mapping? && i < j <= |n.entries| && n.entries[i].Entry?
    ensures Longest(n.entries[i].value, anchors) <= LongestEntry(n, j, anchors)
    decreases j
  {
    if i < j - 1 { EntryBelow(n, i, j - 1, anchors); }
  }

  /** What succeeds at a depth is longer than its longest leaf by no more than the bound on bytes and a
      bracket for each level left. */
  lemma {:induction false} WroteBounded(b: string, n: Node, depth: nat, anchors: Anchors)
    requires Wrote(b, n, depth, anchors).ok
    ensures depth <= MAX_DEPTH
            && |Wrote(b, n, depth, anchors).text| + depth <= MAX_BYTES + MAX_DEPTH + Longest(n, anchors)
    decreases n, Width(n) + 1
  {
    match n
    case Missing =>
    case Property(inner) => WroteBounded(b, inner, depth, anchors);
    case Alias(_) =>
    case Scalar(_) =>
    case Sequence(items) => if items != [] { ItemsBounded(b + "seq(", n, 0, depth, anchors); }
    case Mapping(entries) => if entries != [] { EntriesBounded(b + "map(", n, 0, depth, anchors); }
  }

  lemma {:induction false} ItemsBounded(b: string, n: Node, i: nat, depth: nat, anchors: Anchors)
    requires n.Sequence? && i <= |n.items| && WroteItems(b, n, i, depth, anchors).ok
    requires i == |n.items| ==> |b| + depth + 1 <= MAX_BYTES + MAX_DEPTH + Longest(n, anchors)
    ensures |WroteItems(b, n, i, depth, anchors).text| + depth <= MAX_BYTES + MAX_DEPTH + Longest(n, anchors)
    decreases n, |n.items| - i
  {
    if i < |n.items| {
      var b' := if i > 0 then b + "," else b;
      WroteBounded(b', n.items[i], depth + 1, anchors);
      ItemBelow(n, i, |n.items|, anchors);
      ItemsBounded(Wrote(b', n.items[i], depth + 1, anchors).text, n, i + 1, depth, anchors);
    }
  }

  lemma {:induction false} EntriesBounded(b: string, n: Node, i: nat, depth: nat, anchors: Anchors)
    requires n.Mapping? && i <= |n.entries| && WroteEntries(b, n, i, depth, anchors).ok
    requires i == |n.entries| ==> |b| + depth + 1 <= MAX_BYTES + MAX_DEPTH + Longest(n, anchors)
    ensures |WroteEntries(b, n, i, depth, anchors).text| + depth <= MAX_BYTES + MAX_DEPTH + Longest(n, anchors)
    decreases n, |n.entries| - i
  {
    if i < |n.entries| {
      var e := n.entries[i];
      var b' := if i > 0 then b + "," else b;
      WroteBounded(Wrote(b', e.key, depth + 1, anchors).text + ":", e.value, depth + 1, anchors);
      EntryBelow(n, i, |n.entries|, anchors);
      EntriesBounded(WroteEntry(b', e, depth, anchors).text, n, i + 1, depth, anchors);
    }
  }

  /** An identity is at most 4160 bytes longer than the longest leaf it is made of. */
  lemma IdentityBounded(n: Node, anchors: Anchors)
    ensures |Identity(n, anchors)| <= 4160 + Longest(n, anchors)
  {
    if Wrote("", n, 0, anchors).ok { WroteBounded("", n, 0, anchors); }
  }

  // ---------------------------------------------------------------- over the anchors of a document

  /** An anchor closed: its name, the node it names, and whether that has a text as a scalar, or as a
      mapping of one entry, to be compared by. */
  datatype Closed = Closed(name: string, node: Node, compared: bool)

  /** keepAnchorIdentity and identityOf: what the anchors closed so far resolve to. One with no identity
      takes the entry of its name away where it is compared by text, and else leaves it. */
  ghost function Recorded(closed: seq<Closed>): map<string, string> {
    if closed == [] then map[]
    else
      var before := Recorded(closed[..|closed| - 1]);
      var c := closed[|closed| - 1];
      var identity := Identity(c.node, Some(before));
      if identity != "" then before[c.name := identity]
      else if c.compared then before - {c.name} else before
  }

  /** What the i'th anchor came to when it closed. */
  ghost function IdentityAt(closed: seq<Closed>, i: nat): string
    requires i < |closed|
  {
    Identity(closed[i].node, Some(Recorded(closed[..i])))
  }

  /** The last declaration of a name. */
  ghost function LastDeclared(closed: seq<Closed>, name: string): (last: Option<nat>)
    ensures last.Some? ==> last.value < |closed| && closed[last.value].name == name
    ensures forall i :: 0 <= i < |closed| && closed[i].name == name ==> last.Some? && i <= last.value
  {
    if closed == [] then None
    else if closed[|closed| - 1].name == name then Some(|closed| - 1)
    else LastDeclared(closed[..|closed| - 1], name)
  }

  /** The last declaration of a name on a node there is something to compare by: an identity, or a text. */
  ghost function LastCompared(closed: seq<Closed>, name: string): (last: Option<nat>)
    ensures last.Some? ==> last.value < |closed| && closed[last.value].name == name
    ensures last.Some? ==> IdentityAt(closed, last.value) != "" || closed[last.value].compared
    decreases |closed|
  {
    if closed == [] then None
    else
      var n := |closed| - 1;
      if closed[n].name == name && (IdentityAt(closed, n) != "" || closed[n].compared) then Some(n)
      else
        var last := LastCompared(closed[..n], name);
        assert last.Some? ==> IdentityAt(closed[..n], last.value) == IdentityAt(closed, last.value) by {
          if last.Some? { assert closed[..n][..last.value] == closed[..last.value]; }
        }
        last
  }

  /** A name resolves to the identity of its last declaration there is something to compare by, and to
      none where that has none or there is no such declaration. */
  ghost predicate AnsweredBy(closed: seq<Closed>, name: string, i: Option<nat>)
    requires i.Some? ==> i.value < |closed|
  {
    var known := Recorded(closed);
    if i.Some? && IdentityAt(closed, i.value) != ""
    then name in known && known[name] == IdentityAt(closed, i.value)
    else name !in known
  }

  lemma {:induction false} LastComparedAnswers(closed: seq<Closed>, name: string)
    ensures AnsweredBy(closed, name, LastCompared(closed, name))
    decreases |closed|
  {
    if closed != [] {
      var n := |closed| - 1;
      LastComparedAnswers(closed[..n], name);
      var last := LastCompared(closed[..n], name);
      if last.Some? { assert closed[..n][..last.value] == closed[..last.value]; }
    }
  }

  /** Nothing to compare a declaration by. */
  ghost predicate Bare(closed: seq<Closed>, i: nat)
    requires i < |closed|
  {
    IdentityAt(closed, i) == "" && !closed[i].compared
  }

  /** The most recent declaration of a name answers for it if and only if it is one there is something to
      compare by, or no earlier one of that kind left an identity behind. */
  lemma MostRecentAnswers(closed: seq<Closed>, name: string)
    ensures var last, known := LastDeclared(closed, name), LastCompared(closed, name);
            AnsweredBy(closed, name, last)
            <==> last.None? || !Bare(closed, last.value)
                 || known.None? || IdentityAt(closed, known.value) == ""
  {
    LastComparedAnswers(closed, name);
    LastComparedIsLast(closed, name);
  }

  lemma SameAt(closed: seq<Closed>, n: nat, i: nat)
    requires i < n <= |closed|
    ensures IdentityAt(closed[..n], i) == IdentityAt(closed, i) && (Bare(closed[..n], i) <==> Bare(closed, i))
  {
    assert closed[..n][..i] == closed[..i];
  }

  lemma {:induction false} LastComparedIsLast(closed: seq<Closed>, name: string)
    ensures var last, known := LastDeclared(closed, name), LastCompared(closed, name);
            && (last.None? ==> known.None?)
            && (last.Some? && !Bare(closed, last.value) ==> known == last)
    decreases |closed|
  {
    if closed != [] {
      var n := |closed| - 1;
      LastComparedIsLast(closed[..n], name);
      var last := LastDeclared(closed[..n], name);
      if closed[n].name != name && last.Some? { SameAt(closed, n, last.value); }
    }
  }

  /** The case it misses: under "&z", "&x a" and then "&x [*z]", which has no identity while z is open. An
      alias of x is still named as "a" is. */
  lemma EarlierStands(spelled: string)
    requires 0 < |spelled| <= MAX_BYTES
    ensures var closed := [Closed("x", Scalar(Some(spelled)), true), Closed("x", Sequence([Alias("z")]), false)];
            && Recorded(closed) == map["x" := spelled]
            && LastDeclared(closed, "x") == Some(1) && Bare(closed, 1) && !AnsweredBy(closed, "x", Some(1))
  {
    var one, two := Closed("x", Scalar(Some(spelled)), true), Closed("x", Sequence([Alias("z")]), false);
    var closed := [one, two];
    var none: seq<Closed> := [];
    assert closed[..1] == [one] && [one][..0] == none;
    assert Wrote("", one.node, 0, Some(map[])).text == spelled;
    assert Recorded([one]) == map["x" := spelled];
    assert !Wrote("seq(", Alias("z"), 1, Some(Recorded([one]))).ok;
  }

  /** Every leaf of a node but an alias is at most m long. */
  ghost predicate LeavesWithin(n: Node, m: nat)
    decreases n
  {
    match n
    case Missing => true
    case Property(inner) => LeavesWithin(inner, m)
    case Alias(_) => true
    case Scalar(spelled) => spelled.Some? ==> |spelled.value| <= m
    case Sequence(items) => 5 <= m && forall i :: 0 <= i < |items| ==> LeavesWithin(items[i], m)
    case Mapping(entries) => 5 <= m && forall i :: 0 <= i < |entries| ==> EntryWithin(entries[i], m)
  }

  ghost predicate EntryWithin(e: Entry, m: nat)
    decreases e
  {
    e.Entry? ==> LeavesWithin(e.key, m) && LeavesWithin(e.value, m)
  }

  ghost predicate AllWithin(anchors: map<string, string>, m: nat) {
    forall name :: name in anchors ==> |anchors[name]| <= m
  }

  lemma {:induction false} LongestWithin(n: Node, anchors: map<string, string>, m: nat, top: nat)
    requires LeavesWithin(n, m) && m <= top && AllWithin(anchors, top)
    ensures Longest(n, Some(anchors)) <= top
    decreases n, Width(n) + 1
  {
    match n
    case Missing =>
    case Property(inner) => LongestWithin(inner, anchors, m, top);
    case Alias(_) =>
    case Scalar(_) =>
    case Sequence(items) => LongestItemWithin(n, |items|, anchors, m, top);
    case Mapping(entries) => LongestEntryWithin(n, |entries|, anchors, m, top);
  }

  lemma {:induction false} LongestItemWithin(n: Node, i: nat, anchors: map<string, string>, m: nat, top: nat)
    requires n.Sequence? && i <= |n.items| && LeavesWithin(n, m) && m <= top && AllWithin(anchors, top)
    ensures LongestItem(n, i, Some(anchors)) <= top
    decreases n, i
  {
    if i > 0 {
      LongestItemWithin(n, i - 1, anchors, m, top);
      LongestWithin(n.items[i - 1], anchors, m, top);
    }
  }

  lemma {:induction false} LongestEntryWithin(n: Node, i: nat, anchors: map<string, string>, m: nat, top: nat)
    requires n.Mapping? && i <= |n.entries| && LeavesWithin(n, m) && m <= top && AllWithin(anchors, top)
    ensures LongestEntry(n, i, Some(anchors)) <= top
    decreases n, i
  {
    if i > 0 {
      var e := n.entries[i - 1];
      LongestEntryWithin(n, i - 1, anchors, m, top);
      assert EntryWithin(e, m);
      if e.Entry? {
        LongestWithin(e.key, anchors, m, top);
        LongestWithin(e.value, anchors, m, top);
      }
    }
  }

  /** However the anchors name each other, after k of them none resolves to more than 4160 bytes for each and
      the longest leaf the document itself holds. */
  lemma {:induction false} RecordedBounded(closed: seq<Closed>, m: nat)
    requires forall i :: 0 <= i < |closed| ==> LeavesWithin(closed[i].node, m)
    ensures AllWithin(Recorded(closed), 4160 * |closed| + m)
    decreases |closed|
  {
    if closed != [] {
      var k := |closed| - 1;
      RecordedBounded(closed[..k], m);
      var before := Recorded(closed[..k]);
      LongestWithin(closed[k].node, before, m, 4160 * k + m);
      IdentityBounded(closed[k].node, Some(before));
    }
  }
}
