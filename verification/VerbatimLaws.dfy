/** What the copy keeps over every run: no byte written twice or out of order, and what is written followed
    by what is still to write always the document with its comment edits spliced in. */
module VerbatimLaws {
  import opened VerbatimText
  import opened Verbatim

  // ---------------------------------------------------------------- order

  /** The stretches written are apart, in the document's order and behind the copy. */
  ghost predicate Tidy(out: seq<Written>, c: nat) {
    && (forall i :: 0 <= i < |out| && out[i].Stretch? ==> out[i].from < out[i].end <= c)
    && (forall i, j :: 0 <= i < j < |out| && out[i].Stretch? && out[j].Stretch? ==> out[i].end <= out[j].from)
  }

  /** r comes after s in a run. */
  ghost predicate Follows(s: State, r: State) {
    s.cursor <= r.cursor && s.out <= r.out && (Tidy(s.out, s.cursor) ==> Tidy(r.out, r.cursor))
  }

  lemma TakenFollows(src: string, s: State, end: nat)
    requires s.cursor <= end <= |src|
    ensures Follows(s, Taken(src, s, end))
  {
  }

  lemma SkippedFollows(src: string, s: State, sp: Span)
    requires s.cursor <= |src| && sp.from <= |src| && sp.end <= |src|
    ensures Follows(s, Skipped(src, s, sp))
  {
    if sp.from > s.cursor { TakenFollows(src, s, sp.from); }
  }

  lemma {:induction false} CarriedFollows(src: string, s: State, e: Edit)
    requires s.cursor <= |src| && !s.failed
    ensures Follows(s, Carried(src, s, e))
    decreases |s.edits|, 2
  {
    if e.Add? {
      AdvancedFollows(src, s, e.at);
    } else {
      SkippedFollows(src, s, SpanOf(src, e));
    }
  }

  lemma {:induction false} AppliedFollows(src: string, s: State, end: nat)
    requires s.cursor <= |src|
    ensures Follows(s, Applied(src, s, end))
    decreases |s.edits|, 0
  {
    if !s.failed && s.edits != [] && s.edits[0].at < end {
      var s0 := s.(edits := s.edits[1..]);
      if s.edits[0].at >= s.cursor { CarriedFollows(src, s0, s.edits[0]); }
      var s1 := if s.edits[0].at < s.cursor then s0 else Carried(src, s0, s.edits[0]);
      AppliedFollows(src, s1, end);
      assert Follows(s, s1);
    }
  }

  lemma {:induction false} AdvancedFollows(src: string, s: State, end: nat)
    requires s.cursor <= |src|
    ensures Follows(s, Advanced(src, s, end))
    decreases |s.edits|, 1
  {
    if !s.failed {
      var e := Min(end, |src|);
      AppliedFollows(src, s, e);
      var s1 := Applied(src, s, e);
      if e > s1.cursor { TakenFollows(src, s1, e); }
    }
  }

  lemma {:induction false} PassedFollows(src: string, s: State, drops: seq<Extent>)
    requires s.cursor <= |src| && forall i :: 0 <= i < |drops| ==> drops[i].end <= |src|
    ensures Follows(s, Passed(src, s, drops))
    decreases |drops|
  {
    if drops != [] {
      AdvancedFollows(src, s, drops[0].from);
      var s1 := Advanced(src, s, drops[0].from);
      var s2 := s1.(cursor := Max(s1.cursor, drops[0].end));
      assert Follows(s, s2);
      PassedFollows(src, s2, drops[1..]);
    }
  }

  lemma SettledFollows(src: string, tree: Tree, s: State, end: nat)
    requires s.cursor <= |src|
    ensures Follows(s, Settled(src, tree, s, end))
  {
    var r := Settled(src, tree, s, end);
    if r != s && !r.failed {
      DropsWithin(src, tree, s.cursor, end, s.cursor, false);
      PassedFollows(src, s, Drops(src, tree, s.cursor, end, s.cursor, false));
    }
  }

  lemma ToTokenFollows(src: string, s: State, tk: Token)
    requires s.cursor <= |src|
    ensures Follows(s, ToToken(src, s, tk))
  {
    if !s.failed {
      var at := Min(Max(tk.at, s.cursor), |src|);
      if at > s.cursor { TakenFollows(src, s, at); }
    }
  }

  /** Everything a rendering may ask of the copy, in any order. */
  datatype Op =
    | UpTo(end: nat)
    | UpToToken(tk: Token)
    | SettleGap(end: nat)
    | Raw(text: string)
    | Drop
    | Flush

  ghost function Step(src: string, tree: Tree, s: State, op: Op): (r: State)
    requires s.cursor <= |src|
    ensures r.cursor <= |src|
  {
    match op
    case UpTo(end) => Advanced(src, s, end)
    case UpToToken(tk) => ToToken(src, s, tk)
    case SettleGap(end) => Settled(src, tree, s, end)
    case Raw(text) => Lay(s, text)
    case Drop => s.(dropping := true)
    case Flush => Applied(src, s, |src| + 1)
  }

  ghost function Steps(src: string, tree: Tree, s: State, ops: seq<Op>): (r: State)
    requires s.cursor <= |src|
    ensures r.cursor <= |src|
    decreases |ops|
  {
    if ops == [] then s else Steps(src, tree, Step(src, tree, s, ops[0]), ops[1..])
  }

  /** Over every run the copy never moves back, never takes back what it wrote, and writes the document's
      bytes in their order, none of them twice. */
  lemma {:induction false} RunFollows(src: string, tree: Tree, s: State, ops: seq<Op>)
    requires s.cursor <= |src|
    ensures Follows(s, Steps(src, tree, s, ops))
    decreases |ops|
  {
    if ops != [] {
      match ops[0] {
        case UpTo(end) => AdvancedFollows(src, s, end);
        case UpToToken(tk) => ToTokenFollows(src, s, tk);
        case SettleGap(end) => SettledFollows(src, tree, s, end);
        case Raw(text) =>
        case Drop =>
        case Flush => AppliedFollows(src, s, |src| + 1);
      }
      assert Follows(s, Step(src, tree, s, ops[0]));
      RunFollows(src, tree, Step(src, tree, s, ops[0]), ops[1..]);
    }
  }

  ghost predicate Holds(w: Written, p: nat) {
    w.Stretch? && w.from <= p < w.end
  }

  lemma NoByteTwice(src: string, tree: Tree, s: State, ops: seq<Op>, i: nat, j: nat, p: nat, q: nat)
    requires s.cursor <= |src| && s.out == []
    requires var out := Steps(src, tree, s, ops).out;
             i < j < |out| && Holds(out[i], p) && Holds(out[j], q)
    ensures p < q
  {
    RunFollows(src, tree, s, ops);
  }

  // ---------------------------------------------------------------- what is written and what is to come

  /** The edits stand in order, none over another. */
  ghost predicate Ordered(src: string, edits: seq<Edit>, c: nat)
    decreases |edits|
  {
    edits != [] ==>
      var sp := SpanOf(src, edits[0]);
      c <= sp.from <= edits[0].at <= sp.end && edits[0].at <= |src| && Ordered(src, edits[1..], sp.end)
  }

  /** The same, the copy standing perhaps in the blanks in front of the first comment. */
  ghost predicate Ahead(src: string, edits: seq<Edit>, c: nat) {
    edits != [] ==>
      var sp := SpanOf(src, edits[0]);
      c <= edits[0].at && sp.from <= edits[0].at <= sp.end && edits[0].at <= |src| && Ordered(src, edits[1..], sp.end)
  }

  /** What is written, followed by what is to come. */
  ghost function Whole(src: string, s: State): string
    requires s.cursor <= |src|
  {
    Rendering(src, s.out) + Spliced(src, s.cursor, s.edits)
  }

  ghost predicate Copying(src: string, s: State) {
    s.cursor <= |src| && !s.failed && !s.dropping && Ahead(src, s.edits, s.cursor)
  }

  lemma Appended(src: string, out: seq<Written>, w: Written)
    ensures Rendering(src, out + [w]) == Rendering(src, out) + Piece(src, w)
  {
    assert (out + [w])[..|out|] == out;
  }

  lemma TakenText(src: string, s: State, end: nat)
    requires s.cursor <= end <= |src| && !s.dropping
    ensures Rendering(src, Taken(src, s, end).out) == Rendering(src, s.out) + src[s.cursor..end]
  {
    if s.cursor < end {
      Appended(src, s.out, Stretch(s.cursor, end));
    } else {
      assert s.out + [] == s.out;
    }
  }

  lemma SkippedText(src: string, s: State, sp: Span)
    requires s.cursor <= |src| && sp.from <= |src| && sp.end <= |src| && !s.dropping
    ensures var r := Skipped(src, s, sp);
            && r.cursor == Max(Max(s.cursor, sp.from), sp.end) && !r.dropping
            && Rendering(src, r.out) == Rendering(src, s.out) + src[s.cursor..Max(s.cursor, sp.from)]
  {
    if sp.from > s.cursor {
      TakenText(src, s, sp.from);
    } else {
      NothingAdded(Rendering(src, s.out), src, s.cursor);
    }
  }

  lemma NothingAdded(w: string, src: string, c: nat)
    requires c <= |src|
    ensures w == w + src[c..c]
  {
  }

  lemma LaidText(src: string, s: State, text: string)
    requires !s.failed
    ensures Rendering(src, Lay(s, text).out) == Rendering(src, s.out) + text
  {
    if text != "" { Appended(src, s.out, Laid(text)); }
  }

  /** What the three parts of a splice come to. */
  lemma SpliceParts(src: string, s: State, r: State, sp: Span)
    requires s.cursor <= |src| && r.cursor <= |src| && s.edits != [] && sp == SpanOf(src, s.edits[0])
    requires r.edits == s.edits[1..] && r.cursor == Max(Max(s.cursor, sp.from), sp.end)
    requires Rendering(src, r.out) == (Rendering(src, s.out) + src[s.cursor..Max(s.cursor, sp.from)]) + sp.text
    ensures Whole(src, r) == Whole(src, s)
  {
    var w, x := Rendering(src, s.out), src[s.cursor..Max(s.cursor, sp.from)];
    var t, rest := sp.text, Spliced(src, r.cursor, r.edits);
    Assoc(x, t, rest);
    Assoc(w, x, t + rest);
    Assoc(w + x, t, rest);
  }

  lemma AddedWhole(src: string, s: State, e: Edit)
    requires Copying(src, s) && s.edits != [] && s.edits[0] == e && e.Add?
    ensures var r := Carried(src, s.(edits := s.edits[1..]), e);
            && Copying(src, r) && r.edits == s.edits[1..] && Ordered(src, r.edits, r.cursor)
            && Whole(src, r) == Whole(src, s)
  {
    var s0, sp := s.(edits := s.edits[1..]), SpanOf(src, e);
    NoneBefore(src, s0, e.at, sp.end);
    var s1 := Advanced(src, s0, e.at);
    if e.at == s.cursor {
      NothingAdded(Rendering(src, s.out), src, s.cursor);
    } else {
      TakenText(src, s0, e.at);
    }
    LaidText(src, s1, sp.text);
    SpliceParts(src, s, Lay(s1, sp.text), sp);
  }

  /** An edit written out at the place it stands. */
  lemma CarriedWhole(src: string, s: State, e: Edit)
    requires Copying(src, s) && s.edits != [] && s.edits[0] == e
    ensures var r := Carried(src, s.(edits := s.edits[1..]), e);
            && Copying(src, r) && r.edits == s.edits[1..] && Ordered(src, r.edits, r.cursor)
            && Whole(src, r) == Whole(src, s)
  {
    if e.Add? {
      AddedWhole(src, s, e);
    } else {
      var s0, sp := s.(edits := s.edits[1..]), SpanOf(src, e);
      SkippedText(src, s0, sp);
      var s1 := Skipped(src, s0, sp);
      LaidText(src, s1, sp.text);
      SpliceParts(src, s, Lay(s1, sp.text), sp);
    }
  }

  /** No edit stands between a copy and the end of the edit before. */
  lemma NoneBefore(src: string, s: State, at: nat, end: nat)
    requires s.cursor <= at <= end && at <= |src| && Ordered(src, s.edits, end) && !s.failed
    ensures Applied(src, s, at) == s
    ensures Advanced(src, s, at) == if at == s.cursor then s else Taken(src, s, at)
  {
  }

  /** The edits from a place on. */
  ghost function Pending(edits: seq<Edit>, end: nat): (r: seq<Edit>)
    ensures |r| <= |edits| && (r != [] ==> r[0].at >= end)
  {
    if edits == [] || edits[0].at >= end then edits else Pending(edits[1..], end)
  }

  /** Every edit in front of end is written out, and nothing is lost or gained by it. */
  lemma {:induction false} AppliedWhole(src: string, s: State, end: nat)
    requires Copying(src, s)
    ensures var r := Applied(src, s, end);
            && Copying(src, r) && r.edits == Pending(s.edits, end) && Whole(src, r) == Whole(src, s)
            && (Ordered(src, s.edits, s.cursor) ==> Ordered(src, r.edits, r.cursor))
    decreases |s.edits|
  {
    if s.edits != [] && s.edits[0].at < end {
      CarriedWhole(src, s, s.edits[0]);
      var r := Carried(src, s.(edits := s.edits[1..]), s.edits[0]);
      assert Copying(src, r);
      AppliedWhole(src, r, end);
    }
  }

  /** A place the copy may stop at: not among the blanks a removed comment takes with it. */
  ghost predicate Clear(src: string, edits: seq<Edit>, end: nat) {
    var left := Pending(edits, end);
    left != [] ==> end <= SpanOf(src, left[0]).from
  }

  lemma Cut(src: string, a: nat, b: nat, c: nat)
    requires a <= b <= c <= |src|
    ensures src[a..c] == src[a..b] + src[b..c]
  {
  }

  lemma CutAround(src: string, w: string, a: nat, b: nat, c: nat, rest: string)
    requires a <= b <= c <= |src|
    ensures w + (src[a..c] + rest) == (w + src[a..b]) + (src[b..c] + rest)
  {
    Cut(src, a, b, c);
    Assoc(src[a..b], src[b..c], rest);
    Assoc(w, src[a..b], src[b..c] + rest);
  }

  /** The copy taken on with no edit to apply: nothing changes where it stops clear of the next one, and
      blanks that should have gone are written where it does not. */
  lemma StopWhole(src: string, s: State, end: nat)
    requires Copying(src, s) && s.cursor < end <= |src| && Pending(s.edits, end) == s.edits
    ensures var r := Taken(src, s, end);
            && Copying(src, r)
            && (Clear(src, s.edits, end) ==> Whole(src, r) == Whole(src, s) && Ordered(src, r.edits, r.cursor))
            && |Whole(src, r)| >= |Whole(src, s)|
            && (!Clear(src, s.edits, end) && Ordered(src, s.edits, s.cursor) ==> |Whole(src, r)| > |Whole(src, s)|)
  {
    TakenText(src, s, end);
    StopSpliced(src, Rendering(src, s.out), s.edits, s.cursor, end);
  }

  /** What is written, and what is still to be, with the copy moved to end. */
  lemma StopSpliced(src: string, w: string, edits: seq<Edit>, c: nat, end: nat)
    requires c < end <= |src| && Pending(edits, end) == edits && Ahead(src, edits, c)
    ensures var whole, moved := w + Spliced(src, c, edits), (w + src[c..end]) + Spliced(src, end, edits);
            && (Clear(src, edits, end) ==> moved == whole)
            && |moved| >= |whole|
            && (!Clear(src, edits, end) && Ordered(src, edits, c) ==> |moved| > |whole|)
  {
    if edits == [] {
      assert src[c..] == src[c..|src|] && src[end..] == src[end..|src|];
      assert src[c..] + "" == src[c..] && src[end..] + "" == src[end..];
      CutAround(src, w, c, end, |src|, "");
    } else {
      var sp := SpanOf(src, edits[0]);
      var from := Max(c, sp.from);
      var rest := sp.text + Spliced(src, Max(from, sp.end), edits[1..]);
      assert Spliced(src, c, edits) == src[c..from] + rest;
      if end <= sp.from {
        CutAround(src, w, c, end, from, rest);
      } else {
        assert Max(end, sp.from) == end && Max(from, sp.end) == Max(end, sp.end);
        assert Spliced(src, end, edits) == src[end..end] + rest;
      }
    }
  }

  /** A copy taken on to end: nothing is changed by it where end is clear of the next edit, and something
      is written that should not be where it is not. */
  ghost predicate Reached(src: string, s: State, end: nat, r: State)
    requires Copying(src, s) && end <= |src|
  {
    && Copying(src, r) && r.edits == Pending(s.edits, end)
    && |Whole(src, r)| >= |Whole(src, s)|
    && (Clear(src, s.edits, end) ==> Whole(src, r) == Whole(src, s))
    && (Ordered(src, s.edits, s.cursor) ==>
          if Clear(src, s.edits, end) then Ordered(src, r.edits, r.cursor) else |Whole(src, r)| > |Whole(src, s)|)
  }

  /** The copy taken on to end, where it does not stand past it already. */
  lemma StopsOrStands(src: string, s: State, end: nat, r: State)
    requires Copying(src, s) && end <= |src| && Pending(s.edits, end) == s.edits
    requires r == if end > s.cursor then Taken(src, s, end) else s
    ensures Copying(src, r) && r.edits == s.edits && |Whole(src, r)| >= |Whole(src, s)|
    ensures Clear(src, s.edits, end) ==> Whole(src, r) == Whole(src, s)
    ensures Ordered(src, s.edits, s.cursor) ==>
              if Clear(src, s.edits, end) then Ordered(src, r.edits, r.cursor)
              else |Whole(src, r)| > |Whole(src, s)|
  {
    if end > s.cursor { StopWhole(src, s, end); }
  }

  /** upTo: every edit in front of end written out, and the copy at end. */
  lemma AdvancedWhole(src: string, s: State, end: nat)
    requires Copying(src, s) && end <= |src|
    ensures Reached(src, s, end, Advanced(src, s, end))
  {
    AppliedWhole(src, s, end);
    PendingTwice(s.edits, end);
    StopsOrStands(src, Applied(src, s, end), end, Advanced(src, s, end));
  }

  lemma {:induction false} PendingTwice(edits: seq<Edit>, end: nat)
    ensures Pending(Pending(edits, end), end) == Pending(edits, end)
  {
    if edits != [] && edits[0].at < end {
      PendingTwice(edits[1..], end);
    }
  }
}
