/** Runs of tokens read by their shape: what a "<<" brings in (codec/jsontokenmerge.go) and the folding
    of an "!!omap" (foldOrderedMapTokens of codec/jsontokener.go). */
module JsonMembers {
  import opened JsonValue

  // ---------------------------------------------------------------- valueEnd

  /** How many tokens of a run belong to the value it opens with, `open` collections being open. */
  function Consumed(toks: seq<Token>, open: int): (n: nat)
    ensures n <= |toks|
    decreases |toks|
  {
    if toks == [] then 0
    else if Opens(toks[0]) then 1 + Consumed(toks[1..], open + 1)
    else if Closes(toks[0]) then if open - 1 == 0 then 1 else 1 + Consumed(toks[1..], open - 1)
    else if open == 0 then 1
    else 1 + Consumed(toks[1..], open)
  }

  /** valueEnd: the index just past the value beginning at `from`. */
  method ValueEnd(run: seq<Token>, from: nat) returns (end: nat)
    requires from <= |run|
    ensures end == from + Consumed(run[from..], 0)
  {
    var open := 0;
    for i := from to |run|
      invariant i - from + Consumed(run[i..], open) == Consumed(run[from..], 0)
    {
      assert run[i..][1..] == run[i + 1..];
      if Opens(run[i]) {
        open := open + 1;
      } else if Closes(run[i]) {
        open := open - 1;
        if open == 0 {
          return i + 1;
        }
      } else if open == 0 {
        return i + 1;
      }
    }
    return |run|;
  }

  /** One token, and what is left to consume once it is taken. */
  lemma ConsumedCons(tok: Token, rest: seq<Token>, open: int)
    ensures Consumed([tok] + rest, open)
            == if Opens(tok) then 1 + Consumed(rest, open + 1)
               else if Closes(tok) then if open - 1 == 0 then 1 else 1 + Consumed(rest, open - 1)
               else if open == 0 then 1 else 1 + Consumed(rest, open)
  {
    assert ([tok] + rest)[1..] == rest;
  }

  lemma Assoc(a: seq<Token>, b: seq<Token>, c: seq<Token>)
    ensures (a + b) + c == a + (b + c)
  {
  }

  /** A value's tokens are consumed as one. */
  lemma {:induction false} ConsumedValue(v: Json, rest: seq<Token>, open: nat)
    ensures Consumed(Tokens(v) + rest, open) == |Tokens(v)| + if open == 0 then 0 else Consumed(rest, open)
    decreases v, 1
  {
    match v
    case Arr(items) =>
      ConsumedItems(items, [ArrayEnd] + rest, open + 1, v);
      ConsumedBetween(ArrayStart, ItemTokens(items), ArrayEnd, rest, open);
    case Obj(members) =>
      ConsumedMembers(members, [ObjectEnd] + rest, open + 1, v);
      ConsumedBetween(ObjectStart, MemberTokens(members), ObjectEnd, rest, open);
    case _ =>
      ConsumedCons(Tokens(v)[0], rest, open);
  }

  lemma ConsumedBetween(first: Token, inner: seq<Token>, last: Token, rest: seq<Token>, open: nat)
    requires Opens(first) && Closes(last)
    requires Consumed(inner + ([last] + rest), open + 1) == |inner| + Consumed([last] + rest, open + 1)
    ensures var all := [first] + (inner + [last]);
            Consumed(all + rest, open) == |all| + if open == 0 then 0 else Consumed(rest, open)
  {
    Assoc([first], inner + [last], rest);
    Assoc(inner, [last], rest);
    ConsumedCons(first, inner + ([last] + rest), open);
    ConsumedCons(last, rest, open + 1);
  }

  lemma {:induction false} ConsumedItems(items: seq<Json>, rest: seq<Token>, open: nat, whole: Json)
    requires open > 0 && forall i :: 0 <= i < |items| ==> items[i] < whole
    ensures Consumed(ItemTokens(items) + rest, open) == |ItemTokens(items)| + Consumed(rest, open)
    decreases whole, 0, |items|
  {
    if items == [] {
      assert ItemTokens(items) + rest == rest;
    } else {
      var more := ItemTokens(items[1..]);
      Assoc(Tokens(items[0]), more, rest);
      ConsumedValue(items[0], more + rest, open);
      ConsumedItems(items[1..], rest, open, whole);
    }
  }

  lemma {:induction false} ConsumedMembers(members: seq<Member>, rest: seq<Token>, open: nat, whole: Json)
    requires open > 0 && forall i :: 0 <= i < |members| ==> members[i] < whole
    ensures Consumed(MemberTokens(members) + rest, open) == |MemberTokens(members)| + Consumed(rest, open)
    decreases whole, 0, |members|
  {
    if members == [] {
      assert MemberTokens(members) + rest == rest;
    } else {
      var m, more := members[0], MemberTokens(members[1..]);
      assert m.value < m;
      Assoc(OneMember(m), more, rest);
      Assoc([Key(m.name)], Tokens(m.value), more + rest);
      ConsumedCons(Key(m.name), Tokens(m.value) + (more + rest), open);
      ConsumedValue(m.value, more + rest, open);
      ConsumedMembers(members[1..], rest, open, whole);
    }
  }

  // ---------------------------------------------------------------- mergedMembers

  /** One member of a run: its name, and where its key and value stand. */
  datatype Span = Span(key: string, from: nat, to: nat)

  function MembersFrom(run: seq<Token>, i: nat, open: int): seq<Span>
    decreases |run| - i
  {
    if i >= |run| - 1 then []
    else if open == 0 && run[i].Key? then
      var to := i + 1 + Consumed(run[i + 1..], 0);
      [Span(run[i].name, i, to)] + MembersFrom(run, to, open)
    else
      MembersFrom(run, i + 1, if Opens(run[i]) then open + 1 else if Closes(run[i]) then open - 1 else open)
  }

  /** mergedMembers: the members of a run holding one object. */
  method MergedMembers(run: seq<Token>) returns (members: seq<Span>)
    ensures |run| < 2 || !run[0].ObjectStart? ==> members == []
    ensures |run| >= 2 && run[0].ObjectStart? ==> members == MembersFrom(run, 1, 0)
  {
    if |run| < 2 || !run[0].ObjectStart? {
      return [];
    }
    members := [];
    var open := 0;
    var i := 1;
    while i < |run| - 1
      invariant 1 <= i <= |run|
      invariant members + MembersFrom(run, i, open) == MembersFrom(run, 1, 0)
      decreases |run| - i
    {
      if open == 0 && run[i].Key? {
        var from := i;
        i := i + 1;
        var to := ValueEnd(run, i);
        members := members + [Span(run[from].name, from, to)];
        i := to;
        continue;
      }
      if Opens(run[i]) {
        open := open + 1;
      } else if Closes(run[i]) {
        open := open - 1;
      }
      i := i + 1;
    }
  }

  /** The members laid out one after another from an index on. */
  ghost function Spans(members: seq<Member>, at: nat): seq<Span> {
    if members == [] then []
    else
      var to := at + |OneMember(members[0])|;
      [Span(members[0].name, at, to)] + Spans(members[1..], to)
  }

  ghost function Before(members: seq<Member>, k: nat): seq<Token>
    requires k <= |members|
  {
    MemberTokens(members[..k])
  }

  /** They tile the stretch they stand in: the k'th begins where the tokens of those before it end. */
  lemma {:induction false} SpansTile(members: seq<Member>, at: nat, k: nat)
    requires k < |members|
    ensures |Spans(members, at)| == |members|
    ensures Spans(members, at)[k] == Span(members[k].name, at + |Before(members, k)|,
                                          at + |Before(members, k)| + |OneMember(members[k])|)
    decreases k
  {
    SpansCount(members, at);
    if k > 0 {
      SpansTile(members[1..], at + |OneMember(members[0])|, k - 1);
      assert members[..k][1..] == members[1..][..k - 1];
    }
  }

  /** The tokens of an object's run at the place of its k'th member are that member's own. */
  lemma MemberSlice(members: seq<Member>, k: nat)
    requires k < |members|
    ensures var run, n, one := Tokens(Obj(members)), |Before(members, k)|, OneMember(members[k]);
            1 + n + |one| < |run| && run[1 + n..1 + n + |one|] == one
  {
    var a, one, c := Before(members, k), OneMember(members[k]), MemberTokens(members[k + 1..]);
    assert members == members[..k] + members[k..];
    MemberTokensConcat(members[..k], members[k..]);
    assert members[k..][1..] == members[k + 1..];
    SliceBetween(Tokens(Obj(members)), a, one, c);
  }

  lemma SliceBetween(run: seq<Token>, a: seq<Token>, one: seq<Token>, c: seq<Token>)
    requires run == [ObjectStart] + ((a + (one + c)) + [ObjectEnd])
    ensures 1 + |a| + |one| < |run| && run[1 + |a|..1 + |a| + |one|] == one
  {
    assert run == ([ObjectStart] + a) + (one + (c + [ObjectEnd]));
  }

  lemma SpansCount(members: seq<Member>, at: nat)
    ensures |Spans(members, at)| == |members|
  {
  }

  /** On an object's run the loop reads exactly the members between its braces. */
  lemma {:induction false} MembersOfObject(run: seq<Token>, i: nat, members: seq<Member>)
    requires i <= |run| && run[i..] == MemberTokens(members) + [ObjectEnd]
    ensures MembersFrom(run, i, 0) == Spans(members, i)
    decreases |members|
  {
    if members == [] {
      assert |run[i..]| == 1;
    } else {
      var m, more := members[0], members[1..];
      var tail, end := MemberTokens(more) + [ObjectEnd], i + |OneMember(m)|;
      Assoc(OneMember(m), MemberTokens(more), [ObjectEnd]);
      MemberRead(run, i, m, tail, end);
      MembersOfObject(run, end, more);
    }
  }

  /** One member read: its key, and the tokens of its value. */
  lemma MemberRead(run: seq<Token>, i: nat, m: Member, tail: seq<Token>, end: nat)
    requires i <= |run| && tail != [] && run[i..] == OneMember(m) + tail && end == i + |OneMember(m)|
    ensures end <= |run| && run[end..] == tail
    ensures MembersFrom(run, i, 0) == [Span(m.name, i, end)] + MembersFrom(run, end, 0)
  {
    var value := Tokens(m.value);
    Assoc([Key(m.name)], value, tail);
    SliceHead(run, i, Key(m.name), value, tail);
    ConsumedValue(m.value, tail, 0);
    MemberUnfold(run, i, m.name, end);
  }

  lemma MemberUnfold(run: seq<Token>, i: nat, name: string, end: nat)
    requires i < |run| - 1 && run[i] == Key(name) && end == i + 1 + Consumed(run[i + 1..], 0)
    ensures MembersFrom(run, i, 0) == [Span(name, i, end)] + MembersFrom(run, end, 0)
  {
  }

  lemma SliceHead(run: seq<Token>, i: nat, first: Token, more: seq<Token>, tail: seq<Token>)
    requires i <= |run| && tail != [] && run[i..] == [first] + (more + tail)
    ensures i + 1 + |more| < |run| && run[i] == first
    ensures run[i + 1..] == more + tail && run[i + 1 + |more|..] == tail
  {
    assert run[i] == run[i..][0];
    assert run[i + 1..] == run[i..][1..];
    assert run[i + 1 + |more|..] == run[i + 1..][|more|..];
  }

  lemma MembersOfRun(members: seq<Member>)
    ensures MembersFrom(Tokens(Obj(members)), 1, 0) == Spans(members, 1)
  {
    var run := Tokens(Obj(members));
    assert run[1..] == MemberTokens(members) + [ObjectEnd];
    MembersOfObject(run, 1, members);
  }

  // ---------------------------------------------------------------- closeMapping

  /** The members a mapping takes from what its "<<" entries bring in: none it names itself, and none
      brought in already. */
  function Brought(own: set<string>, taken: seq<string>, members: seq<Member>): seq<Member>
    decreases |members|
  {
    if members == [] then []
    else if members[0].name in own || members[0].name in taken then Brought(own, taken, members[1..])
    else [members[0]] + Brought(own, taken + [members[0].name], members[1..])
  }

  ghost function Flatten(lists: seq<seq<Member>>): seq<Member> {
    if lists == [] then [] else lists[0] + Flatten(lists[1..])
  }

  /** The inner loop: one run's members, against the names taken so far. */
  method BringRun(own: set<string>, taken: seq<string>, run: seq<Token>, ghost ms: seq<Member>)
    returns (out: seq<Token>, brought: seq<string>)
    requires run == Tokens(Obj(ms))
    ensures out == MemberTokens(Brought(own, taken, ms))
    ensures brought == taken + Names(Brought(own, taken, ms))
  {
    out, brought := [], taken;
    var members := MergedMembers(run);
    MembersOfRun(ms);
    SpansCount(ms, 1);
    for k := 0 to |members|
      invariant out == MemberTokens(Brought(own, taken, ms[..k]))
      invariant brought == taken + Names(Brought(own, taken, ms[..k]))
    {
      var member := members[k];
      RunMember(ms, k);
      PrefixStep(own, taken, ms, k);
      if member.key in own || member.key in brought {
        continue;
      }
      brought := brought + [member.key];
      out := out + run[member.from..member.to];
    }
    assert ms[..|ms|] == ms;
  }

  lemma RunMember(ms: seq<Member>, k: nat)
    requires k < |ms|
    ensures |Spans(ms, 1)| == |ms|
    ensures var s := Spans(ms, 1)[k];
            s.key == ms[k].name && s.from <= s.to <= |Tokens(Obj(ms))|
            && Tokens(Obj(ms))[s.from..s.to] == OneMember(ms[k])
  {
    SpansTile(ms, 1, k);
    MemberSlice(ms, k);
  }

  lemma PrefixStep(own: set<string>, taken: seq<string>, ms: seq<Member>, k: nat)
    requires k < |ms|
    ensures var x, m := Brought(own, taken, ms[..k]), ms[k];
            var x' := Brought(own, taken, ms[..k + 1]);
            if m.name in own || m.name in taken + Names(x) then x' == x
            else MemberTokens(x') == MemberTokens(x) + OneMember(m)
                 && taken + Names(x') == (taken + Names(x)) + [m.name]
  {
    BroughtSnoc(own, taken, ms[..k], ms[k]);
    assert ms[..k + 1] == ms[..k] + [ms[k]];
  }

  /** One member more. */
  lemma BroughtSnoc(own: set<string>, taken: seq<string>, a: seq<Member>, m: Member)
    ensures var x := Brought(own, taken, a);
            var dropped := m.name in own || m.name in taken + Names(x);
            && Brought(own, taken, a + [m]) == (if dropped then x else x + [m])
            && MemberTokens(x + [m]) == MemberTokens(x) + OneMember(m)
            && taken + Names(x + [m]) == (taken + Names(x)) + [m.name]
  {
    var x := Brought(own, taken, a);
    BroughtConcat(own, taken, a, [m]);
    var one := [m];
    assert one[1..] == [];
    assert x + [] == x;
    MemberTokensConcat(x, [m]);
    MemberTokensOne(m);
    assert Names(x + [m]) == Names(x) + [m.name];
  }

  lemma {:induction false} BroughtConcat(own: set<string>, taken: seq<string>, a: seq<Member>, b: seq<Member>)
    ensures var x := Brought(own, taken, a);
            Brought(own, taken, a + b) == x + Brought(own, taken + Names(x), b)
    decreases |a|
  {
    if a == [] {
      assert a + b == b && taken + [] == taken;
    } else {
      assert (a + b)[1..] == a[1..] + b;
      var name := a[0].name;
      if name in own || name in taken {
        BroughtConcat(own, taken, a[1..], b);
      } else {
        var taken' := taken + [name];
        BroughtConcat(own, taken', a[1..], b);
        var x := Brought(own, taken', a[1..]);
        NamesCons(taken, a[0], x);
        AssocMembers([a[0]], x, Brought(own, taken' + Names(x), b));
      }
    }
  }

  lemma NamesCons(taken: seq<string>, m: Member, x: seq<Member>)
    ensures taken + Names([m] + x) == (taken + [m.name]) + Names(x)
  {
    assert ([m] + x)[1..] == x;
  }

  lemma AssocMembers(a: seq<Member>, b: seq<Member>, c: seq<Member>)
    ensures (a + b) + c == a + (b + c)
  {
  }

  /** closeMapping's loop over the runs of a mapping's "<<" entries, earliest first, and its closer. */
  method CloseMapping(own: set<string>, runs: seq<seq<Token>>, ghost lists: seq<seq<Member>>) returns (out: seq<Token>)
    requires |runs| == |lists| && forall j :: 0 <= j < |runs| ==> runs[j] == Tokens(Obj(lists[j]))
    ensures out == MemberTokens(Brought(own, [], Flatten(lists))) + [ObjectEnd]
  {
    out := [];
    var brought: seq<string> := [];
    assert lists[0..] == lists;
    for j := 0 to |runs|
      invariant out + MemberTokens(Brought(own, brought, Flatten(lists[j..])))
                == MemberTokens(Brought(own, [], Flatten(lists)))
    {
      assert lists[j..][1..] == lists[j + 1..];
      BroughtConcat(own, brought, lists[j], Flatten(lists[j + 1..]));
      MemberTokensConcat(Brought(own, brought, lists[j]),
                         Brought(own, brought + Names(Brought(own, brought, lists[j])), Flatten(lists[j + 1..])));
      var more, brought' := BringRun(own, brought, runs[j], lists[j]);
      Assoc(out, more, MemberTokens(Brought(own, brought', Flatten(lists[j + 1..]))));
      out, brought := out + more, brought';
    }
    assert lists[|runs|..] == [];
    assert out + [] == out;
    out := out + [ObjectEnd];
  }

  function Find(members: seq<Member>, name: string): (i: nat)
    ensures i <= |members|
    ensures i < |members| ==> members[i].name == name
    ensures forall j :: 0 <= j < i ==> members[j].name != name
  {
    if members == [] || members[0].name == name then 0 else 1 + Find(members[1..], name)
  }

  /** Each name goes in once, never over a key the mapping writes itself, and what it names is what
      the earliest run that names it says. */
  lemma {:induction false} BroughtOnce(own: set<string>, taken: seq<string>, members: seq<Member>)
    ensures var b := Brought(own, taken, members);
            && Distinct(Names(b))
            && forall i :: 0 <= i < |b| ==> b[i].name !in own && b[i].name !in taken
    decreases |members|
  {
    if members != [] {
      var m, rest := members[0], members[1..];
      if m.name in own || m.name in taken {
        BroughtOnce(own, taken, rest);
      } else {
        BroughtOnce(own, taken + [m.name], rest);
        var b := Brought(own, taken + [m.name], rest);
        forall i | 0 <= i < |b| ensures b[i].name != m.name && b[i].name !in taken {
          assert m.name in taken + [m.name];
          assert b[i].name !in taken + [m.name];
        }
        assert Names([m] + b) == [m.name] + Names(b);
      }
    }
  }

  lemma {:induction false} FindConcat(a: seq<Member>, b: seq<Member>, name: string)
    ensures Find(a + b, name) == if Find(a, name) < |a| then Find(a, name) else |a| + Find(b, name)
    decreases |a|
  {
    if a == [] {
      assert a + b == b;
    } else {
      assert (a + b)[1..] == a[1..] + b;
      FindConcat(a[1..], b, name);
    }
  }

  lemma {:induction false} FindFlattened(lists: seq<seq<Member>>, name: string, j: nat)
    requires j < |lists| && Find(lists[j], name) < |lists[j]|
    requires forall i :: 0 <= i < j ==> Find(lists[i], name) == |lists[i]|
    ensures var all := Flatten(lists);
            Find(all, name) < |all| && all[Find(all, name)] == lists[j][Find(lists[j], name)]
    decreases |lists|
  {
    FindConcat(lists[0], Flatten(lists[1..]), name);
    if j > 0 {
      assert forall i :: 0 <= i < j - 1 ==> lists[1..][i] == lists[i + 1];
      FindFlattened(lists[1..], name, j - 1);
    }
  }

  /** A name the mapping does not write itself is what the earliest of its "<<" runs to name it says. */
  lemma EarliestRunWins(own: set<string>, lists: seq<seq<Member>>, name: string, j: nat)
    requires name !in own && j < |lists| && Find(lists[j], name) < |lists[j]|
    requires forall i :: 0 <= i < j ==> Find(lists[i], name) == |lists[i]|
    ensures var b := Brought(own, [], Flatten(lists));
            Find(b, name) < |b| && b[Find(b, name)] == lists[j][Find(lists[j], name)]
  {
    FindFlattened(lists, name, j);
    FirstRunWins(own, [], Flatten(lists), name);
  }

  /** What is brought stands in the order of the runs. */
  lemma {:induction false} BroughtInOrder(own: set<string>, taken: seq<string>, members: seq<Member>, k: nat)
    requires k <= |members|
    ensures Brought(own, taken, members[..k]) <= Brought(own, taken, members)
    ensures |Brought(own, taken, members[..k])| <= k
    decreases |members|
  {
    if members != [] && k > 0 {
      var m, rest := members[0], members[1..];
      assert members[..k][1..] == rest[..k - 1];
      BroughtInOrder(own, if m.name in own || m.name in taken then taken else taken + [m.name], rest, k - 1);
    }
  }

  lemma {:induction false} FirstRunWins(own: set<string>, taken: seq<string>, members: seq<Member>, name: string)
    requires name !in taken
    ensures var b := Brought(own, taken, members);
            if name in own || Find(members, name) == |members| then Find(b, name) == |b|
            else Find(b, name) < |b| && b[Find(b, name)] == members[Find(members, name)]
    decreases |members|
  {
    if members != [] {
      var m, rest := members[0], members[1..];
      if m.name in own || m.name in taken {
        FirstRunWins(own, taken, rest, name);
      } else if m.name == name {
        assert Brought(own, taken, members)[0] == m;
      } else {
        FirstRunWins(own, taken + [m.name], rest, name);
        var b := Brought(own, taken + [m.name], rest);
        assert ([m] + b)[1..] == b;
      }
    }
  }

  // ---------------------------------------------------------------- foldOrderedMapTokens

  /** The fold's inner loop: tokens taken until the entry's own brace closes, with the keys seen at its
      level. */
  datatype Scan = Scan(taken: nat, depth: int, keys: nat)

  function Scanned(toks: seq<Token>, depth: int, keys: nat): Scan
    decreases |toks|
  {
    if toks == [] || depth <= 0 then Scan(0, depth, keys)
    else
      var s := Scanned(toks[1..],
                       if Opens(toks[0]) then depth + 1 else if Closes(toks[0]) then depth - 1 else depth,
                       if toks[0].Key? && depth == 1 then keys + 1 else keys);
      s.(taken := s.taken + 1)
  }

  function Later(n: nat, s: Scan): Scan {
    s.(taken := n + s.taken)
  }

  lemma ScannedCons(tok: Token, rest: seq<Token>, depth: int, keys: nat)
    requires depth > 0
    ensures Scanned([tok] + rest, depth, keys)
            == Later(1, Scanned(rest, if Opens(tok) then depth + 1 else if Closes(tok) then depth - 1 else depth,
                                if tok.Key? && depth == 1 then keys + 1 else keys))
  {
    assert ([tok] + rest)[1..] == rest;
  }

  /** A value inside an entry goes by whole, and its own keys stand deeper than the entry's. */
  lemma {:induction false} ScannedValue(v: Json, rest: seq<Token>, depth: int, keys: nat)
    requires depth > 0
    ensures Scanned(Tokens(v) + rest, depth, keys) == Later(|Tokens(v)|, Scanned(rest, depth, keys))
    decreases v, 1
  {
    match v
    case Arr(items) =>
      ScannedItems(items, [ArrayEnd] + rest, depth + 1, keys, v);
      ScannedBetween(ArrayStart, ItemTokens(items), ArrayEnd, rest, depth, keys);
    case Obj(members) =>
      ScannedMembers(members, [ObjectEnd] + rest, depth + 1, keys, v);
      ScannedBetween(ObjectStart, MemberTokens(members), ObjectEnd, rest, depth, keys);
    case _ =>
      ScannedCons(Tokens(v)[0], rest, depth, keys);
  }

  lemma ScannedBetween(open: Token, inner: seq<Token>, close: Token, rest: seq<Token>, depth: int, keys: nat)
    requires depth > 0 && Opens(open) && Closes(close)
    requires Scanned(inner + ([close] + rest), depth + 1, keys)
             == Later(|inner|, Scanned([close] + rest, depth + 1, keys))
    ensures var all := [open] + (inner + [close]);
            Scanned(all + rest, depth, keys) == Later(|all|, Scanned(rest, depth, keys))
  {
    Assoc([open], inner + [close], rest);
    Assoc(inner, [close], rest);
    ScannedCons(open, inner + ([close] + rest), depth, keys);
    ScannedCons(close, rest, depth + 1, keys);
  }

  lemma {:induction false} ScannedItems(items: seq<Json>, rest: seq<Token>, depth: int, keys: nat, whole: Json)
    requires depth > 0 && forall i :: 0 <= i < |items| ==> items[i] < whole
    ensures Scanned(ItemTokens(items) + rest, depth, keys) == Later(|ItemTokens(items)|, Scanned(rest, depth, keys))
    decreases whole, 0, |items|
  {
    if items == [] {
      assert ItemTokens(items) + rest == rest;
    } else {
      var more := ItemTokens(items[1..]);
      Assoc(Tokens(items[0]), more, rest);
      ScannedValue(items[0], more + rest, depth, keys);
      ScannedItems(items[1..], rest, depth, keys, whole);
    }
  }

  /** At the entry's own level each member counts one key; deeper, none does. */
  lemma {:induction false} ScannedMembers(members: seq<Member>, rest: seq<Token>, depth: int, keys: nat, whole: Json)
    requires depth > 0 && forall i :: 0 <= i < |members| ==> members[i] < whole
    ensures Scanned(MemberTokens(members) + rest, depth, keys)
            == Later(|MemberTokens(members)|, Scanned(rest, depth, if depth == 1 then keys + |members| else keys))
    decreases whole, 0, |members|
  {
    if members == [] {
      assert MemberTokens(members) + rest == rest;
    } else {
      var m, more := members[0], MemberTokens(members[1..]);
      assert m.value < m;
      var keys' := if depth == 1 then keys + 1 else keys;
      ScannedValue(m.value, more + rest, depth, keys');
      ScannedMember(m, more + rest, depth, keys, keys');
      ScannedMembers(members[1..], rest, depth, keys', whole);
      var after := Scanned(rest, depth, if depth == 1 then keys + |members| else keys);
      ScannedTwice(OneMember(m), more, rest, depth, keys, keys', after);
    }
  }

  lemma ScannedTwice(one: seq<Token>, more: seq<Token>, rest: seq<Token>, depth: int, keys: nat, keys': nat,
                     after: Scan)
    requires Scanned(one + (more + rest), depth, keys) == Later(|one|, Scanned(more + rest, depth, keys'))
    requires Scanned(more + rest, depth, keys') == Later(|more|, after)
    ensures Scanned((one + more) + rest, depth, keys) == Later(|one + more|, after)
  {
    Assoc(one, more, rest);
  }

  lemma ScannedMember(m: Member, rest: seq<Token>, depth: int, keys: nat, keys': nat)
    requires depth > 0 && keys' == if depth == 1 then keys + 1 else keys
    requires Scanned(Tokens(m.value) + rest, depth, keys') == Later(|Tokens(m.value)|, Scanned(rest, depth, keys'))
    ensures Scanned(OneMember(m) + rest, depth, keys) == Later(|OneMember(m)|, Scanned(rest, depth, keys'))
  {
    Assoc([Key(m.name)], Tokens(m.value), rest);
    ScannedCons(Key(m.name), Tokens(m.value) + rest, depth, keys);
  }

  /** An entry, from just past its opener: scanned to its closer, its members counted. */
  lemma ScannedEntry(members: seq<Member>, rest: seq<Token>)
    ensures Scanned(MemberTokens(members) + ([ObjectEnd] + rest), 1, 0)
            == Scan(|MemberTokens(members)| + 1, 0, |members|)
  {
    ScannedMembers(members, [ObjectEnd] + rest, 1, 0, Obj(members));
    ScannedCons(ObjectEnd, rest, 1, |members|);
  }

  predicate OneMemberObject(v: Json) { v.Obj? && |v.members| == 1 }

  /** What "!!omap" names: a sequence of one-entry mappings. */
  predicate OrderedMap(v: Json) {
    v.Arr? && forall i :: 0 <= i < |v.items| ==> OneMemberObject(v.items[i])
  }

  /** The members kept of the first n entries, in order. */
  ghost function KeptMembers(items: seq<Json>, drop: seq<int>, n: nat): seq<Member>
    requires n <= |items| && forall i :: 0 <= i < n ==> OneMemberObject(items[i])
  {
    if n == 0 then []
    else
      assert OneMemberObject(items[n - 1]);
      KeptMembers(items, drop, n - 1) + (if n - 1 in drop then [] else items[n - 1].members)
  }

  /** The places below n that drop does not name. */
  function KeptPlaces(drop: seq<int>, n: nat): (at: seq<nat>)
    ensures forall x :: 0 <= x < |at| ==> at[x] < n
    ensures forall x, y :: 0 <= x < y < |at| ==> at[x] < at[y]
    ensures forall j: nat :: j in at <==> j < n && j !in drop
  {
    if n == 0 then [] else KeptPlaces(drop, n - 1) + if n - 1 in drop then [] else [n - 1]
  }

  ghost predicate HoldsEach(items: seq<Json>, kept: seq<Member>, at: seq<nat>) {
    |at| == |kept| && forall x :: 0 <= x < |at| ==> at[x] < |items| && items[at[x]] == Obj([kept[x]])
  }

  /** The entries at all places but those drop names are kept, in order. */
  ghost predicate KeptAt(items: seq<Json>, drop: seq<int>, kept: seq<Member>, at: seq<nat>) {
    && HoldsEach(items, kept, at)
    && (forall j: nat :: j in at <==> j < |items| && j !in drop)
    && (forall x, y :: 0 <= x < y < |at| ==> at[x] < at[y])
  }

  lemma HoldsSnoc(items: seq<Json>, kept: seq<Member>, at: seq<nat>, m: Member, j: nat)
    requires HoldsEach(items, kept, at) && j < |items| && items[j] == Obj([m])
    ensures HoldsEach(items, kept + [m], at + [j])
  {
  }

  lemma {:induction false} KeptInOrder(items: seq<Json>, drop: seq<int>, n: nat)
    requires n <= |items| && forall i :: 0 <= i < n ==> OneMemberObject(items[i])
    ensures HoldsEach(items, KeptMembers(items, drop, n), KeptPlaces(drop, n))
    decreases n
  {
    if n > 0 {
      var before, places := KeptMembers(items, drop, n - 1), KeptPlaces(drop, n - 1);
      KeptInOrder(items, drop, n - 1);
      assert OneMemberObject(items[n - 1]);
      var ms := items[n - 1].members;
      assert ms == [ms[0]];
      if n - 1 in drop {
        assert before + [] == before && places + [] == places;
      } else {
        HoldsSnoc(items, before, places, ms[0], n - 1);
      }
    }
  }

  /** The inner loop: an entry's tokens taken until its brace closes, and kept where it is kept. */
  method TakeEntry(rest: seq<Token>, keep: bool) returns (out: seq<Token>, i: nat, depth: int, entryKeys: nat)
    ensures Scan(i, depth, entryKeys) == Scanned(rest, 1, 0)
    ensures i <= |rest| && (depth == 0 ==> i > 0 && out == if keep then rest[..i - 1] else [])
  {
    out, i, depth, entryKeys := [], 0, 1, 0;
    while i < |rest| && depth > 0
      invariant i <= |rest| && 0 <= depth
      invariant Later(i, Scanned(rest[i..], depth, entryKeys)) == Scanned(rest, 1, 0)
      invariant depth > 0 && keep ==> out == rest[..i]
      invariant depth == 0 ==> i > 0 && (keep ==> out == rest[..i - 1])
      invariant !keep ==> out == []
      decreases |rest| - i
    {
      assert rest[i..][1..] == rest[i + 1..];
      if Opens(rest[i]) {
        depth := depth + 1;
      } else if Closes(rest[i]) {
        depth := depth - 1;
      } else if rest[i].Key? {
        if depth == 1 {
          entryKeys := entryKeys + 1;
        }
      }
      if depth > 0 && keep {
        out := out + [rest[i]];
      }
      i := i + 1;
    }
  }

  /** What stands at the head of the entries left: the entry's own tokens, and the rest. */
  lemma EntryTokens(left: seq<Token>, item: Json, more: seq<Token>)
    requires left == Tokens(item) + more
    ensures left[0].ObjectStart? <==> item.Obj?
    ensures item.Obj? ==>
              var one := MemberTokens(item.members);
              && Scanned(left[1..], 1, 0) == Scan(|one| + 1, 0, |item.members|)
              && 2 + |one| <= |left|
              && left[1..][..|one|] == one
              && left[2 + |one|..] == more
  {
    assert left[0] == Tokens(item)[0];
    if item.Obj? {
      var one := MemberTokens(item.members);
      Assoc([ObjectStart], one + [ObjectEnd], more);
      Assoc(one, [ObjectEnd], more);
      assert left[1..] == one + ([ObjectEnd] + more);
      ScannedEntry(item.members, more);
    }
  }

  /** foldOrderedMapTokens succeeds exactly on a sequence of one-entry mappings, and gives the object of
      the entries kept, in order. */
  method FoldOrderedMapTokens(toks: seq<Token>, drop: seq<int>, ghost v: Json)
    returns (out: seq<Token>, ok: bool, ghost kept: seq<Member>, ghost at: seq<nat>)
    requires toks == Tokens(v)
    ensures ok <==> OrderedMap(v)
    ensures ok ==> out == Tokens(Obj(kept)) && KeptAt(v.items, drop, kept, at)
  {
    var last := |toks| - 1;
    if last < 1 || !toks[0].ArrayStart? || !toks[last].ArrayEnd? {
      return [], false, [], [];
    }
    var entries := toks[1..last];
    assert entries == ItemTokens(v.items);
    out, ok := FoldEntries(entries, drop, v.items);
    kept, at := [], [];
    if ok {
      kept, at := KeptMembers(v.items, drop, |v.items|), KeptPlaces(drop, |v.items|);
      KeptInOrder(v.items, drop, |v.items|);
    }
    out := [ObjectStart] + (out + [ObjectEnd]);
  }

  /** The loop over the entries between the sequence's brackets. */
  method FoldEntries(entries: seq<Token>, drop: seq<int>, ghost items: seq<Json>) returns (out: seq<Token>, ok: bool)
    requires entries == ItemTokens(items)
    ensures ok <==> OrderedMap(Arr(items))
    ensures ok ==> out == MemberTokens(KeptMembers(items, drop, |items|))
  {
    out := [];
    var i, index := 0, 0;
    assert items[0..] == items;
    while i < |entries|
      invariant 0 <= i <= |entries| && 0 <= index <= |items|
      invariant entries[i..] == ItemTokens(items[index..])
      invariant forall j :: 0 <= j < index ==> OneMemberObject(items[j])
      invariant out == MemberTokens(KeptMembers(items, drop, index))
      decreases |entries| - i
    {
      assert items[index..] != [];
      assert items[index..][1..] == items[index + 1..];
      EntryTokens(entries[i..], items[index], ItemTokens(items[index + 1..]));
      if !entries[i].ObjectStart? {
        return [], false;
      }
      i := i + 1;
      var keep := index !in drop;
      var entry, n, depth, entryKeys := TakeEntry(entries[i..], keep);
      if depth != 0 || entryKeys != 1 {
        return [], false;
      }
      MemberTokensConcat(KeptMembers(items, drop, index), if keep then items[index].members else []);
      out := out + entry;
      i, index := i + n, index + 1;
    }
    NoneLeft(items[index..]);
    return out, true;
  }

  lemma NoneLeft(items: seq<Json>)
    ensures ItemTokens(items) == [] ==> items == []
  {
    if items != [] {
      assert |Tokens(items[0]) + ItemTokens(items[1..])| > 0;
    }
  }
}
