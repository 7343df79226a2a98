/** Whole renderings of a tree whose comments alone were edited: what is written is the document with exactly
    those edits spliced in, and when it is not. */
module VerbatimRun {
  import opened VerbatimText
  import opened Verbatim
  import opened VerbatimLaws

  // ---------------------------------------------------------------- the copy, stopped anywhere

  ghost function Stopped(src: string, s: State, stops: seq<nat>): (r: State)
    requires s.cursor <= |src|
    ensures r.cursor <= |src|
    decreases |stops|
  {
    if stops == [] then s else Stopped(src, Advanced(src, s, stops[0]), stops[1..])
  }

  /** upTo the end and flushEdits. */
  ghost function Flushed(src: string, s: State): (r: State)
    requires s.cursor <= |src|
  {
    var s1 := Advanced(src, s, |src|);
    if s1.edits == [] then s1 else Applied(src, s1, |src| + 1)
  }

  /** An edit of a comment the document wrote stands on the "#" at least. */
  ghost predicate Sound(src: string, edits: seq<Edit>) {
    forall e <- edits :: e.at <= |src| && (e.Add? || e.at < SpanOf(src, e).end)
  }

  ghost predicate AllClear(src: string, edits: seq<Edit>, stops: seq<nat>)
    decreases |stops|
  {
    stops == [] ||
    (Clear(src, edits, Min(stops[0], |src|)) && AllClear(src, Pending(edits, Min(stops[0], |src|)), stops[1..]))
  }

  lemma {:induction false} PendingIsTail(edits: seq<Edit>, end: nat) returns (k: nat)
    ensures k <= |edits| && Pending(edits, end) == edits[k..]
    ensures forall i :: 0 <= i < k ==> edits[i].at < end
    ensures k < |edits| ==> edits[k].at >= end
  {
    if edits == [] || edits[0].at >= end {
      k := 0;
      assert edits[0..] == edits;
    } else {
      var j := PendingIsTail(edits[1..], end);
      k := j + 1;
      assert edits[1..][j..] == edits[k..];
      forall i | 0 <= i < k ensures edits[i].at < end {
        if i > 0 { assert edits[i] == edits[1..][i - 1]; }
      }
    }
  }

  lemma PendingSound(src: string, edits: seq<Edit>, end: nat)
    requires Sound(src, edits)
    ensures Sound(src, Pending(edits, end))
  {
    var k := PendingIsTail(edits, end);
  }

  lemma EndIsClear(src: string, edits: seq<Edit>)
    requires Sound(src, edits)
    ensures Clear(src, edits, |src|)
  {
    var left := Pending(edits, |src|);
    PendingSound(src, edits, |src|);
    if left != [] { assert left[0] in left && left[0].Add?; }
  }

  lemma NonePastEnd(src: string, edits: seq<Edit>)
    requires Sound(src, edits)
    ensures Pending(edits, |src| + 1) == []
  {
    var k := PendingIsTail(edits, |src| + 1);
    forall i | 0 <= i < |edits| ensures edits[i].at <= |src| { assert edits[i] in edits; }
  }

  lemma NothingToCome(src: string, s: State)
    requires s.cursor == |src| && s.edits == []
    ensures Whole(src, s) == Rendering(src, s.out)
  {
  }

  /** The copy taken to the end and the last edits written, nothing is left to come. */
  lemma FlushedWhole(src: string, s: State)
    requires Copying(src, s) && Sound(src, s.edits)
    ensures var r := Flushed(src, s);
            !r.failed && Rendering(src, r.out) == Whole(src, s)
  {
    AdvancedWhole(src, s, |src|);
    EndIsClear(src, s.edits);
    PendingSound(src, s.edits, |src|);
    var s1 := Advanced(src, s, |src|);
    assert s1.cursor == |src|;
    if s1.edits == [] {
      NothingToCome(src, s1);
    } else {
      LastEdits(src, s1);
    }
  }

  lemma LastEdits(src: string, s: State)
    requires Copying(src, s) && Sound(src, s.edits) && s.cursor == |src|
    ensures var r := Applied(src, s, |src| + 1);
            !r.failed && Rendering(src, r.out) == Whole(src, s)
  {
    AppliedWhole(src, s, |src| + 1);
    NonePastEnd(src, s.edits);
    NothingToCome(src, Applied(src, s, |src| + 1));
  }

  /** Whatever places the copy stops at, what is written in the end is the document with the edits spliced
      in where and only where none of those places lies among the blanks a removed comment takes with it;
      where one does, it is longer by the blanks kept. */
  lemma {:induction false} StopsWhole(src: string, s: State, stops: seq<nat>)
    requires Copying(src, s) && Sound(src, s.edits)
    ensures var r := Flushed(src, Stopped(src, s, stops));
            && !r.failed && |Rendering(src, r.out)| >= |Whole(src, s)|
            && (Ordered(src, s.edits, s.cursor)
                ==> (Rendering(src, r.out) == Whole(src, s) <==> AllClear(src, s.edits, stops)))
    decreases |stops|
  {
    if stops == [] {
      FlushedWhole(src, s);
    } else {
      var e := Min(stops[0], |src|);
      AdvancedWhole(src, s, e);
      PendingSound(src, s.edits, e);
      var s1 := Advanced(src, s, stops[0]);
      assert s1 == Advanced(src, s, e);
      StopsWhole(src, s1, stops[1..]);
    }
  }

  // ---------------------------------------------------------------- the tokens of a tree

  /** No blank runs over the place, which is where a token opens or the one before it ends. */
  predicate OpensClean(src: string, p: nat) {
    p >= |src| || !IsBlank(src[p]) || p == 0 || !IsBlank(src[p - 1])
  }

  ghost function NextAt(src: string, tokens: seq<Token>): nat {
    if tokens == [] then |src| else tokens[0].at
  }

  /** The tokens of a tree nothing was taken out of: in order, apart, and between them layout alone. */
  ghost predicate Covers(src: string, dashes: bool, tokens: seq<Token>)
    decreases |tokens|
  {
    tokens != [] ==>
      var tk, next := tokens[0], NextAt(src, tokens[1..]);
      && tk.at < tk.end <= next <= |src| && OpensClean(src, tk.at) && OpensClean(src, tk.end)
      && !HoldsNodeText(src, TextEnd(src, tk.at, tk.end), next, dashes)
      && Covers(src, dashes, tokens[1..])
  }

  /** A comment stands in front of the token or behind it. */
  ghost predicate Outside(src: string, e: Edit, tk: Token) {
    (e.at < tk.at && SpanOf(src, e).end <= tk.at) || tk.end <= e.at
  }

  ghost predicate AllOutside(src: string, edits: seq<Edit>, tokens: seq<Token>) {
    forall e, tk | e in edits && tk in tokens :: Outside(src, e, tk)
  }

  ghost predicate NoneAdded(edits: seq<Edit>) {
    forall e <- edits :: !e.Add?
  }

  /** The token has no text, or no break in the spacing behind it. */
  predicate Loose(src: string, tk: Token)
    requires tk.at <= tk.end <= |src|
  {
    var text := TextEnd(src, tk.at, tk.end);
    text == tk.at || BreakAt(src, text, tk.end) == tk.end
  }

  /** A comment taken out stands right behind the token, blanks in front of it, and some other comment
      edited is to be written first. */
  ghost predicate KeepsBlanks(src: string, edits: seq<Edit>, tk: Token)
    requires tk.at <= tk.end <= |src|
  {
    Loose(src, tk) && exists i :: 0 < i < |edits| && TakenBehind(src, edits[i], tk)
  }

  ghost predicate TakenBehind(src: string, e: Edit, tk: Token) {
    e.Remove? && e.at == tk.end && SpanOf(src, e).from < e.at
  }

  /** The same of any of the tokens, the edits in front of it alone gone. */
  ghost predicate AnyKept(src: string, edits: seq<Edit>, tokens: seq<Token>)
    requires Covers(src, false, tokens) || Covers(src, true, tokens)
    decreases |tokens|
  {
    tokens != [] && (KeepsBlanks(src, edits, tokens[0]) || AnyKept(src, Pending(edits, tokens[0].end), tokens[1..]))
  }

  lemma {:induction false} OrderedApart(src: string, edits: seq<Edit>, c: nat, i: nat, j: nat)
    requires Ordered(src, edits, c) && i < j < |edits|
    ensures SpanOf(src, edits[i]).end <= SpanOf(src, edits[j]).from
    ensures SpanOf(src, edits[j]).from <= edits[j].at && edits[i].at <= SpanOf(src, edits[i]).end
    decreases j
  {
    var sp := SpanOf(src, edits[0]);
    assert edits[1..][j - 1] == edits[j];
    if i > 0 {
      OrderedApart(src, edits[1..], sp.end, i - 1, j - 1);
    } else if j > 1 {
      OrderedApart(src, edits[1..], sp.end, 0, j - 1);
      assert edits[1..][0] == edits[1];
    }
  }

  /** Blanks stand in front of a removed comment as far back as it takes them. */
  lemma SpanBlank(src: string, e: Edit, i: nat)
    requires !e.Add? && e.at <= |src| && SpanOf(src, e).from < i <= e.at
    ensures IsBlank(src[i - 1]) && (i < e.at ==> IsBlank(src[i]))
  {
  }

  /** What an edit takes of the document, byte by byte: written over, a comment from its "#" to the break
      that ends it; taken out, that and every blank in front of it, and the break where they open a line. */
  lemma SpanTaken(src: string, e: Edit)
    requires !e.Add? && e.at < e.end <= |src| && src[e.at] == '#'
    ensures var sp := SpanOf(src, e);
            && sp.from <= e.at < sp.end <= e.end && (forall i :: sp.end <= i < e.end ==> IsBreak(src[i]))
            && (forall i :: sp.from <= i < e.at ==> IsBlank(src[i]))
            && (e.Replace? ==> sp.from == e.at)
            && (e.Remove? && sp.from > 0 ==> !IsBlank(src[sp.from - 1]))
            && (if e.Remove? && (sp.from == 0 || IsBreak(src[sp.from - 1])) then sp.end == e.end
                else sp.end < e.end <==> IsBreak(src[e.end - 1]))
  {
    var start := LineStart(src, e.at);
    if e.Remove? && Alone(src, e.at) && start > 0 { assert IsBreak(src[start - 1]); }
    if e.Remove? && !Alone(src, e.at) {
      var b := BlankStart(src, start, e.at);
      if b == start { assert false; }
      assert !IsBreak(src[b - 1]);
    }
  }

  /** Where the copy stops with a token is clear of the edits to come unless a comment taken out right
      behind the token is not the first of them. */
  lemma StopClear(src: string, edits: seq<Edit>, c: nat, tk: Token)
    requires Ordered(src, edits, c) && Sound(src, edits) && NoneAdded(edits) && tk.at < tk.end <= |src|
    requires OpensClean(src, tk.at) && OpensClean(src, tk.end) && forall e <- edits :: Outside(src, e, tk)
    ensures Clear(src, edits, TokenEnd(src, edits, tk)) <==> !KeepsBlanks(src, edits, tk)
  {
    var stop := TokenEnd(src, edits, tk);
    if KeepsBlanks(src, edits, tk) {
      KeptNotClear(src, edits, c, tk);
    } else {
      var k := PendingIsTail(edits, stop);
      if k < |edits| && SpanOf(src, edits[k]).from < stop {
        UnclearIsKept(src, edits, c, tk, k);
      }
    }
  }

  lemma KeptNotClear(src: string, edits: seq<Edit>, c: nat, tk: Token)
    requires Ordered(src, edits, c) && Sound(src, edits) && NoneAdded(edits) && tk.at < tk.end <= |src|
    requires KeepsBlanks(src, edits, tk)
    ensures !Clear(src, edits, TokenEnd(src, edits, tk))
  {
    var i :| 0 < i < |edits| && TakenBehind(src, edits[i], tk);
    OrderedApart(src, edits, c, 0, i);
    assert edits[0].at < tk.end && TokenEnd(src, edits, tk) == tk.end;
    var k := PendingIsTail(edits, tk.end);
    if k < i { OrderedApart(src, edits, c, k, i); }
    assert k == i;
  }

  lemma UnclearIsKept(src: string, edits: seq<Edit>, c: nat, tk: Token, k: nat)
    requires Ordered(src, edits, c) && Sound(src, edits) && NoneAdded(edits) && tk.at < tk.end <= |src|
    requires OpensClean(src, tk.at) && OpensClean(src, tk.end) && forall e <- edits :: Outside(src, e, tk)
    requires k < |edits| && SpanOf(src, edits[k]).from < TokenEnd(src, edits, tk) <= edits[k].at
    ensures KeepsBlanks(src, edits, tk)
  {
    var stop, e := TokenEnd(src, edits, tk), edits[k];
    assert Outside(src, e, tk);
    SpanBlank(src, e, stop);
    if k == 0 {
      assert false;
    }
    assert TakenBehind(src, e, tk);
  }

  /** The edits a token's text stands in front of are those its stop does. */
  lemma SamePending(src: string, edits: seq<Edit>, tk: Token)
    requires tk.at < tk.end <= |src| && forall e <- edits :: Outside(src, e, tk)
    ensures Pending(edits, TokenEnd(src, edits, tk)) == Pending(edits, tk.end)
  {
    var stop := TokenEnd(src, edits, tk);
    var j := PendingIsTail(edits, stop);
    var k := PendingIsTail(edits, tk.end);
    if j < k { assert edits[j] in edits && Outside(src, edits[j], tk); }
  }

  /** The copy stands where it stopped. */
  lemma {:induction false} AppliedBehind(src: string, s: State, end: nat, tk: Token)
    requires s.cursor <= |src| && s.cursor <= tk.at && end <= tk.end && NoneAdded(s.edits)
    requires forall e <- s.edits :: Outside(src, e, tk)
    ensures Applied(src, s, end).cursor <= tk.at
    decreases |s.edits|
  {
    if !s.failed && s.edits != [] && s.edits[0].at < end {
      var s0 := s.(edits := s.edits[1..]);
      assert s.edits[0] in s.edits && Outside(src, s.edits[0], tk);
      AppliedBehind(src, if s.edits[0].at < s.cursor then s0 else Carried(src, s0, s.edits[0]), end, tk);
    }
  }

  /** Where the copy stops with each token, worked out from the edits alone. */
  ghost function StopsOf(src: string, edits: seq<Edit>, tokens: seq<Token>): (r: seq<nat>)
    ensures forall p <- r :: p <= |src|
    decreases |tokens|
  {
    if tokens == [] then []
    else [TokenEnd(src, edits, tokens[0])] + StopsOf(src, Pending(edits, tokens[0].end), tokens[1..])
  }

  lemma {:induction false} StopsClear(src: string, dashes: bool, edits: seq<Edit>, c: nat, tokens: seq<Token>)
    requires Ordered(src, edits, c) && Sound(src, edits) && NoneAdded(edits)
    requires Covers(src, dashes, tokens) && AllOutside(src, edits, tokens)
    ensures AllClear(src, edits, StopsOf(src, edits, tokens)) <==> !AnyKept(src, edits, tokens)
    decreases |tokens|
  {
    if tokens != [] {
      var tk := tokens[0];
      forall e | e in edits ensures Outside(src, e, tk) { assert tk in tokens; }
      StopClear(src, edits, c, tk);
      SamePending(src, edits, tk);
      var rest := Pending(edits, tk.end);
      var c' := PendingKept(src, edits, c, tk.end, tokens);
      StopsClear(src, dashes, rest, c', tokens[1..]);
      var stops := StopsOf(src, edits, tokens);
      assert stops[0] == TokenEnd(src, edits, tk) && stops[1..] == StopsOf(src, rest, tokens[1..]);
      assert Min(stops[0], |src|) == stops[0];
    }
  }

  /** What holds of the edits holds of those still to come. */
  lemma PendingKept(src: string, edits: seq<Edit>, c: nat, end: nat, tokens: seq<Token>) returns (c': nat)
    requires Ordered(src, edits, c) && Sound(src, edits) && NoneAdded(edits) && AllOutside(src, edits, tokens)
    requires tokens != []
    ensures var rest := Pending(edits, end);
            Ordered(src, rest, c') && Sound(src, rest) && NoneAdded(rest) && AllOutside(src, rest, tokens[1..])
  {
    var k := PendingIsTail(edits, end);
    c' := OrderedTail(src, edits, c, k);
  }

  lemma {:induction false} OrderedTail(src: string, edits: seq<Edit>, c: nat, k: nat) returns (c': nat)
    requires Ordered(src, edits, c) && k <= |edits|
    ensures Ordered(src, edits[k..], c')
    decreases k
  {
    if k == 0 {
      assert edits[0..] == edits;
      c' := c;
    } else {
      c' := OrderedTail(src, edits[1..], SpanOf(src, edits[0]).end, k - 1);
      assert edits[1..][k - 1..] == edits[k..];
    }
  }

  /** Spacing in front of a stretch that holds no node's text is all it takes away. */
  lemma {:induction false} TailHoldsNone(src: string, from: nat, mid: nat, end: nat, dashes: bool)
    requires from <= mid <= end <= |src| && (forall i :: from <= i < mid ==> IsSpacing(src[i]))
    requires !HoldsNodeText(src, from, end, dashes)
    ensures !HoldsNodeText(src, mid, end, dashes)
    decreases end - from
  {
    if from < mid {
      var brk := BreakAt(src, from, end);
      if mid <= brk {
        TailLine(src, from, mid, brk, dashes);
        SameBreak(src, from, mid, end);
      } else {
        var next := AfterBreak(src, brk, |src|);
        if next <= mid {
          TailHoldsNone(src, next, mid, end, dashes);
        } else if mid < end {
          assert BreakAt(src, mid, end) == mid;
          assert AfterBreak(src, mid, |src|) == next;
          SpacingIsNoText(src, mid, mid, false);
        }
      }
    }
  }

  lemma {:induction false} SameBreak(src: string, from: nat, mid: nat, end: nat)
    requires from <= mid <= end <= |src| && mid <= BreakAt(src, from, end)
    ensures BreakAt(src, mid, end) == BreakAt(src, from, end)
    decreases mid - from
  {
    if from < mid { SameBreak(src, from + 1, mid, end); }
  }

  lemma NotDocumentEnd(line: string)
    requires line != [] && IsSpacing(line[0])
    ensures !IsDocumentEnd(line)
  {
    assert |line| >= 3 ==> line[..3][0] == line[0];
  }

  lemma TailLine(src: string, from: nat, mid: nat, brk: nat, dashes: bool)
    requires from < mid <= brk <= |src| && (forall i :: from <= i < mid ==> IsSpacing(src[i]))
    requires !LineHoldsNode(src, from, brk, dashes)
    ensures !LineHoldsNode(src, mid, brk, dashes)
  {
    assert src[from..brk][0] == src[from];
    NotDocumentEnd(src[from..brk]);
    TailText(src, from, mid, brk, false);
    TailText(src, from, mid, brk, dashes);
  }

  lemma {:induction false} TailText(src: string, from: nat, mid: nat, end: nat, dashes: bool)
    requires from <= mid <= end <= |src| && (forall i :: from <= i < mid ==> IsSpacing(src[i]))
    ensures TextIn(src, from, end, dashes) == TextIn(src, mid, end, dashes)
    decreases mid - from
  {
    if from < mid { TailText(src, from + 1, mid, end, dashes); }
  }

  lemma GapStaysEmpty(src: string, edits: seq<Edit>, tk: Token, next: nat, dashes: bool)
    requires tk.at < tk.end <= next <= |src| && !HoldsNodeText(src, TextEnd(src, tk.at, tk.end), next, dashes)
    ensures !HoldsNodeText(src, TokenEnd(src, edits, tk), next, dashes)
  {
    TailHoldsNone(src, TextEnd(src, tk.at, tk.end), TokenEnd(src, edits, tk), next, dashes);
  }

  /** With no node's text between them, a token's stop is all that writing it comes to. */
  lemma WroteIsAdvanced(src: string, tree: Tree, s: State, tk: Token)
    requires s.cursor <= tk.at < tk.end <= |src| && !s.failed && !s.dropping && NoneAdded(s.edits)
    requires !HoldsNodeText(src, s.cursor, tk.at, tree.dashes) && forall e <- s.edits :: Outside(src, e, tk)
    ensures var stop, r := TokenEnd(src, s.edits, tk), WroteToken(src, tree, false, s, tk);
            && r == Advanced(src, s, stop)
            && (Copying(src, s) ==> r.cursor == stop && r.edits == Pending(s.edits, tk.end))
  {
    var stop := TokenEnd(src, s.edits, tk);
    AppliedBehind(src, s, stop, tk);
    SamePending(src, s.edits, tk);
    if Copying(src, s) { AdvancedWhole(src, s, stop); }
  }

  lemma TailOutside(src: string, edits: seq<Edit>, end: nat, tokens: seq<Token>)
    requires NoneAdded(edits) && AllOutside(src, edits, tokens) && tokens != []
    ensures NoneAdded(Pending(edits, end)) && AllOutside(src, Pending(edits, end), tokens[1..])
  {
    var k := PendingIsTail(edits, end);
  }

  lemma {:induction false} RanIsStopped(src: string, tree: Tree, s: State, tokens: seq<Token>)
    requires Copying(src, s) && NoneAdded(s.edits) && Covers(src, tree.dashes, tokens)
    requires AllOutside(src, s.edits, tokens)
    requires s.cursor <= NextAt(src, tokens) && !HoldsNodeText(src, s.cursor, NextAt(src, tokens), tree.dashes)
    ensures Ran(src, tree, false, s, tokens) == Flushed(src, Stopped(src, s, StopsOf(src, s.edits, tokens)))
    decreases |tokens|
  {
    if tokens != [] {
      var tk, stops := tokens[0], StopsOf(src, s.edits, tokens);
      forall e | e in s.edits ensures Outside(src, e, tk) { assert tk in tokens; }
      WroteIsAdvanced(src, tree, s, tk);
      var r, stop := WroteToken(src, tree, false, s, tk), TokenEnd(src, s.edits, tk);
      AdvancedWhole(src, s, stop);
      TailOutside(src, s.edits, tk.end, tokens);
      GapStaysEmpty(src, s.edits, tk, NextAt(src, tokens[1..]), tree.dashes);
      RanIsStopped(src, tree, r, tokens[1..]);
      assert stops[1..] == StopsOf(src, r.edits, tokens[1..]);
    }
  }

  /** A tree changed in its comments alone, replaced or taken out, is written back with exactly the spans
      of those edits spliced in -- if and only if no comment taken out stands, with blanks in front of it,
      right behind a token another edited comment is still to be written before. */
  lemma CommentsAloneEdited(src: string, tree: Tree, from: nat, edits: seq<Edit>, tokens: seq<Token>)
    requires from <= NextAt(src, tokens) <= |src| && !HoldsNodeText(src, from, NextAt(src, tokens), tree.dashes)
    requires Covers(src, tree.dashes, tokens) && AllOutside(src, edits, tokens)
    requires Ordered(src, edits, from) && Sound(src, edits) && NoneAdded(edits)
    ensures var r := Ran(src, tree, false, State(from, false, edits, false, []), tokens);
            && !r.failed
            && (Rendering(src, r.out) == Spliced(src, from, edits) <==> !AnyKept(src, edits, tokens))
  {
    var s := State(from, false, edits, false, []);
    assert Whole(src, s) == Spliced(src, from, edits);
    RanIsStopped(src, tree, s, tokens);
    StopsWhole(src, s, StopsOf(src, edits, tokens));
    StopsClear(src, tree.dashes, edits, from, tokens);
  }

  lemma BlankKeptSpans(src: string)
    requires src == "#\na #b"
    ensures SpanOf(src, Replace(0, 2, "z")) == Span(0, 1, "#z") && SpanOf(src, Remove(4, 6)) == Span(3, 6, "")
  {
    assert !IsBreak(src[0]) && IsBreak(src[1]) && !IsBreak(src[2]) && !IsBreak(src[3]);
    assert LineStart(src, 4) == 2;
    assert !IsBlank(src[2]) && IsBlank(src[3]);
    assert BlankStart(src, 2, 4) == 3;
  }

  lemma BlankKeptTokens(src: string)
    requires src == "#\na #b"
    ensures !HoldsNodeText(src, 0, 2, false) && !HoldsNodeText(src, 3, 6, false)
    ensures TextEnd(src, 2, 4) == 3 && BreakAt(src, 3, 4) == 4
  {
    assert BreakAt(src, 5, 6) == 6 && !TextIn(src, 4, 6, false);
    assert BreakAt(src, 1, 2) == 1;
  }

  lemma BlankKeptSpliced(src: string, edits: seq<Edit>)
    requires src == "#\na #b" && edits == [Replace(0, 2, "z"), Remove(4, 6)]
    ensures Spliced(src, 0, edits) == "#z\na" && Ordered(src, edits, 0) && Sound(src, edits)
  {
    BlankKeptSpans(src);
    assert edits[1..] == [Remove(4, 6)] && edits[1..][1..] == [];
    assert Spliced(src, 6, []) == "";
    assert Spliced(src, 1, edits[1..]) == src[1..3] + ("" + "");
    assert Spliced(src, 0, edits) == src[0..0] + ("#z" + Spliced(src, 1, edits[1..]));
  }

  /** Where that is so the blanks stay: "#" over "a #b", the first comment replaced by z and the second
      taken out, is not written "#z" over "a". */
  lemma BlankKept(src: string, edits: seq<Edit>)
    requires src == "#\na #b" && edits == [Replace(0, 2, "z"), Remove(4, 6)]
    ensures Spliced(src, 0, edits) == "#z\na"
    ensures var r := Ran(src, Tree({}, false), false, State(0, false, edits, false, []), [Token(2, 4)]);
            Rendering(src, r.out) != "#z\na"
  {
    var tk := Token(2, 4);
    BlankKeptSpans(src);
    BlankKeptTokens(src);
    BlankKeptSpliced(src, edits);
    assert TakenBehind(src, edits[1], tk);
    assert [tk][1..] == [];
    assert Covers(src, false, [tk]) && AnyKept(src, edits, [tk]);
    CommentsAloneEdited(src, Tree({}, false), 0, edits, [tk]);
  }

  // ---------------------------------------------------------------- with a transform

  /** What is written, followed by the rest of the document, edits aside. */
  ghost function Plain(src: string, s: State): string
    requires s.cursor <= |src|
  {
    Rendering(src, s.out) + src[s.cursor..]
  }

  lemma TakenPlain(src: string, s: State, end: nat)
    requires s.cursor <= end <= |src| && !s.dropping
    ensures Plain(src, Taken(src, s, end)) == Plain(src, s)
  {
    TakenText(src, s, end);
    Cut(src, s.cursor, end, |src|);
    assert src[s.cursor..] == src[s.cursor..|src|] && src[end..] == src[end..|src|];
    Assoc(Rendering(src, s.out), src[s.cursor..end], src[end..]);
  }

  lemma ToTokenPlain(src: string, s: State, tk: Token)
    requires s.cursor <= tk.at < tk.end <= |src| && !s.failed && !s.dropping
    ensures var r := ToToken(src, s, tk);
            && Plain(src, r) == Plain(src, s) && r.edits == s.edits && !r.failed && !r.dropping
            && r.cursor == TokenEnd(src, s.edits, tk)
  {
    TakenPlain(src, s, tk.at);
    var s1, end := if tk.at > s.cursor then Taken(src, s, tk.at) else s, TokenEnd(src, s.edits, tk);
    if end > tk.at {
      TakenPlain(src, s1, end);
      assert ToToken(src, s, tk) == Taken(src, s1, end);
    }
  }

  /** Through the tokens a transform is handed the document as it stands, every edit still to come. */
  lemma {:induction false} TransformedTokens(src: string, tree: Tree, s: State, tokens: seq<Token>)
    returns (last: State)
    requires s.cursor <= |src| && !s.failed && !s.dropping && Covers(src, tree.dashes, tokens)
    requires s.cursor <= NextAt(src, tokens) && !HoldsNodeText(src, s.cursor, NextAt(src, tokens), tree.dashes)
    ensures last.cursor <= |src| && Ran(src, tree, true, s, tokens) == Flushed(src, last)
    ensures !last.failed && !last.dropping && last.edits == s.edits && Plain(src, last) == Plain(src, s)
    ensures s.cursor <= last.cursor
    ensures last.cursor == if tokens == [] then s.cursor else TokenEnd(src, s.edits, tokens[|tokens| - 1])
    decreases |tokens|
  {
    if tokens == [] {
      last := s;
    } else {
      var tk := tokens[0];
      ToTokenPlain(src, s, tk);
      var r := ToToken(src, s, tk);
      assert WroteToken(src, tree, true, s, tk) == r;
      GapStaysEmpty(src, s.edits, tk, NextAt(src, tokens[1..]), tree.dashes);
      last := TransformedTokens(src, tree, r, tokens[1..]);
      if |tokens| > 1 { assert tokens[1..][|tokens| - 2] == tokens[|tokens| - 1]; }
    }
  }

  lemma {:induction false} BehindPassedOver(src: string, s: State, end: nat)
    requires s.cursor <= |src| && !s.failed && s.cursor <= end
    ensures Applied(src, s, end) == Applied(src, s.(edits := Pending(s.edits, s.cursor)), end)
    decreases |s.edits|
  {
    if s.edits != [] && s.edits[0].at < s.cursor {
      BehindPassedOver(src, s.(edits := s.edits[1..]), end);
    }
  }

  /** With a transform that writes every stretch through, an edit of a comment in front of the place the
      copy stops at with the last token goes lost: up to there the document is written as it stands, and
      only behind it with the edits spliced in. With no edits that is the document, byte for byte. */
  lemma EditsUnderTransform(src: string, tree: Tree, from: nat, edits: seq<Edit>, tokens: seq<Token>)
    requires from <= NextAt(src, tokens) <= |src| && !HoldsNodeText(src, from, NextAt(src, tokens), tree.dashes)
    requires Covers(src, tree.dashes, tokens) && Ordered(src, edits, from) && Sound(src, edits)
    ensures var r := Ran(src, tree, true, State(from, false, edits, false, []), tokens);
            var last := if tokens == [] then from else TokenEnd(src, edits, tokens[|tokens| - 1]);
            && !r.failed && from <= last <= |src|
            && Rendering(src, r.out) == src[from..last] + Spliced(src, last, Pending(edits, last))
  {
    var s := State(from, false, edits, false, []);
    var l := TransformedTokens(src, tree, s, tokens);
    Head(src, l.out, from, l.cursor);
    TransformedEnd(src, l, from);
  }

  lemma EditLostSpliced(src: string, edits: seq<Edit>)
    requires src == "#\na #b" && edits == [Replace(0, 2, "z")]
    ensures Spliced(src, 0, edits) == "#z\na #b" && Ordered(src, edits, 0) && Sound(src, edits)
    ensures Covers(src, false, [Token(2, 4)])
  {
    BlankKeptSpans(src);
    BlankKeptTokens(src);
    assert edits[1..] == [];
    assert Spliced(src, 1, edits[1..]) == src[1..];
    assert Spliced(src, 0, edits) == src[0..0] + ("#z" + src[1..]);
    assert [Token(2, 4)][1..] == [];
  }

  /** "#" over "a", the comment replaced by z: with a transform it is written as it stood. */
  lemma EditLost(src: string, edits: seq<Edit>)
    requires src == "#\na #b" && edits == [Replace(0, 2, "z")]
    ensures Spliced(src, 0, edits) == "#z\na #b"
    ensures Rendering(src, Ran(src, Tree({}, false), true, State(0, false, edits, false, []), [Token(2, 4)]).out) == src
  {
    var tokens := [Token(2, 4)];
    EditLostSpliced(src, edits);
    BlankKeptTokens(src);
    EditsUnderTransform(src, Tree({}, false), 0, edits, tokens);
    WholeLost(src, edits, TokenEnd(src, edits, tokens[0]));
  }

  lemma WholeLost(src: string, edits: seq<Edit>, last: nat)
    requires |edits| == 1 && edits[0].at < last <= |src|
    ensures src[0..last] + Spliced(src, last, Pending(edits, last)) == src
  {
    assert Pending(edits, last) == [];
    assert src[0..last] + src[last..] == src;
  }

  lemma Head(src: string, out: seq<Written>, from: nat, c: nat)
    requires from <= c <= |src| && Rendering(src, out) + src[c..] == src[from..]
    ensures Rendering(src, out) == src[from..c]
  {
    assert src[from..] == src[from..c] + src[c..];
    SameHead(Rendering(src, out), src[from..c], src[c..]);
  }

  lemma TransformedEnd(src: string, l: State, from: nat)
    requires l.cursor <= |src| && !l.failed && !l.dropping && Ordered(src, l.edits, from) && Sound(src, l.edits)
    ensures var r := Flushed(src, l);
            && !r.failed
            && Rendering(src, r.out) == Rendering(src, l.out) + Spliced(src, l.cursor, Pending(l.edits, l.cursor))
  {
    var k := PendingIsTail(l.edits, l.cursor);
    var c' := OrderedTail(src, l.edits, from, k);
    PendingSound(src, l.edits, l.cursor);
    var l' := l.(edits := Pending(l.edits, l.cursor));
    BehindPassedOver(src, l, |src|);
    FlushedWhole(src, l');
  }

  lemma SameHead(a: string, b: string, tail: string)
    requires a + tail == b + tail
    ensures a == b
  {
    assert |a| == |b|;
    assert (a + tail)[..|a|] == a && (b + tail)[..|b|] == b;
  }

  lemma {:induction false} NoneKept(src: string, dashes: bool, tokens: seq<Token>)
    requires Covers(src, dashes, tokens)
    ensures !AnyKept(src, [], tokens)
    decreases |tokens|
  {
    if tokens != [] { NoneKept(src, dashes, tokens[1..]); }
  }

  lemma UntouchedCopied(src: string, tree: Tree, from: nat, edits: seq<Edit>, tokens: seq<Token>)
    requires from <= NextAt(src, tokens) <= |src| && !HoldsNodeText(src, from, NextAt(src, tokens), tree.dashes)
    requires Covers(src, tree.dashes, tokens) && edits == []
    ensures var r := Ran(src, tree, false, State(from, false, edits, false, []), tokens);
            !r.failed && Rendering(src, r.out) == src[from..]
  {
    NoneKept(src, tree.dashes, tokens);
    CommentsAloneEdited(src, tree, from, edits, tokens);
  }

  lemma UntouchedTransformed(src: string, tree: Tree, from: nat, edits: seq<Edit>, tokens: seq<Token>)
    requires from <= NextAt(src, tokens) <= |src| && !HoldsNodeText(src, from, NextAt(src, tokens), tree.dashes)
    requires Covers(src, tree.dashes, tokens) && edits == []
    ensures var r := Ran(src, tree, true, State(from, false, edits, false, []), tokens);
            !r.failed && Rendering(src, r.out) == src[from..]
  {
    EditsUnderTransform(src, tree, from, edits, tokens);
    NothingSpliced(src, from, if tokens == [] then from else TokenEnd(src, edits, tokens[|tokens| - 1]), edits);
  }

  lemma NothingSpliced(src: string, from: nat, last: nat, edits: seq<Edit>)
    requires from <= last <= |src| && edits == []
    ensures src[from..last] + Spliced(src, last, Pending(edits, last)) == src[from..]
  {
  }

  /** A tree left as it was read is written back byte for byte, whether or not a transform that writes
      every stretch through is in the way. */
  lemma UntouchedWrittenBack(src: string, tree: Tree, transforms: bool, from: nat, tokens: seq<Token>)
    requires from <= NextAt(src, tokens) <= |src| && !HoldsNodeText(src, from, NextAt(src, tokens), tree.dashes)
    requires Covers(src, tree.dashes, tokens)
    ensures var r := Ran(src, tree, transforms, State(from, false, [], false, []), tokens);
            !r.failed && Rendering(src, r.out) == src[from..]
  {
    var edits: seq<Edit> := [];
    UntouchedCopied(src, tree, from, edits, tokens);
    UntouchedTransformed(src, tree, from, edits, tokens);
  }
}
