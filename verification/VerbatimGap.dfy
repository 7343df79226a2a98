/** What settleGap leaves of a stretch between two tokens (ast/verbatim.go): no text of a node taken out of
    the tree, save what stands on the line of the token to come. */
module VerbatimGap {
  import opened VerbatimText
  import opened Verbatim
  import opened VerbatimLaws
  import opened VerbatimRun

  /** Text of a node is left on src[from..end] with the drops taken out of it. */
  ghost predicate Left(src: string, from: nat, end: nat, drops: seq<Extent>, dashes: bool)
    requires end <= |src| && forall d <- drops :: d.from <= |src|
    decreases |drops|
  {
    if drops == [] then HoldsNodeText(src, from, end, dashes)
    else HoldsNodeText(src, from, drops[0].from, dashes) || Left(src, drops[0].end, end, drops[1..], dashes)
  }

  ghost predicate Beyond(drops: seq<Extent>, next: nat, end: nat) {
    forall d <- drops :: next <= d.from <= end
  }

  /** A stretch that opens on a line ending at brk is that line and the rest. */
  lemma LineFirst(src: string, at: nat, brk: nat, next: nat, end: nat, stop: nat, dashes: bool)
    requires at <= brk < next <= stop <= end <= |src| && brk == BreakAt(src, at, end)
    requires next == AfterBreak(src, brk, end)
    ensures HoldsNodeText(src, at, stop, dashes)
            == (LineHoldsNode(src, at, brk, dashes) || HoldsNodeText(src, next, stop, dashes))
  {
    BreakNearer(src, at, stop, end);
  }

  lemma {:induction false} BreakNearer(src: string, at: nat, stop: nat, end: nat)
    requires at <= stop <= end <= |src| && BreakAt(src, at, end) < stop
    ensures BreakAt(src, at, stop) == BreakAt(src, at, end)
    decreases stop - at
  {
    if at < stop && !IsBreak(src[at]) { BreakNearer(src, at + 1, stop, end); }
  }

  lemma LeftOfLine(src: string, at: nat, brk: nat, next: nat, end: nat, drops: seq<Extent>, dashes: bool)
    requires at <= brk < next <= end <= |src| && brk == BreakAt(src, at, end) && next == AfterBreak(src, brk, end)
    requires Beyond(drops, next, end)
    ensures Left(src, at, end, drops, dashes)
            == (LineHoldsNode(src, at, brk, dashes) || Left(src, next, end, drops, dashes))
  {
    LineFirst(src, at, brk, next, end, if drops == [] then end else drops[0].from, dashes);
  }

  lemma EmptyLine(src: string, brk: nat, dashes: bool)
    requires brk <= |src|
    ensures !LineHoldsNode(src, brk, brk, dashes)
  {
  }

  /** A line of the gap settled one way or the other leaves no node's text. */
  lemma LineSettled(src: string, tree: Tree, from: nat, at: nat, brk: nat, next: nat, dropped: bool)
    requires from <= at <= brk <= next <= |src| && (at > from ==> IsBreak(src[at - 1]))
    ensures LineDrop(src, tree, from, at, brk, next, dropped).0 == [] ==> !LineHoldsNode(src, at, brk, tree.dashes)
  {
    if BlankEnd(src, at, brk) == brk { SpacingIsNoText(src, at, brk, false); }
  }

  /** Of one line and those under it, those under it alone are left to look at. */
  lemma LineGone(src: string, tree: Tree, from: nat, end: nat, at: nat, brk: nat, next: nat, dropped: bool,
                 rest: seq<Extent>)
    requires from <= at <= brk <= next <= end <= |src| && (at > from ==> IsBreak(src[at - 1]))
    requires brk == BreakAt(src, at, end)
    requires if brk < end then next == AfterBreak(src, brk, end) else next == end && rest == []
    requires Beyond(rest, next, end)
    ensures var drop := LineDrop(src, tree, from, at, brk, next, dropped).0;
            (forall d <- drop + rest :: d.from <= |src|)
            && Left(src, at, end, drop + rest, tree.dashes) == Left(src, next, end, rest, tree.dashes)
  {
    var drop := LineDrop(src, tree, from, at, brk, next, dropped).0;
    if drop == [] {
      assert drop + rest == rest;
      LineSettled(src, tree, from, at, brk, next, dropped);
      if brk < end {
        LeftOfLine(src, at, brk, next, end, rest, tree.dashes);
      }
    } else {
      assert (drop + rest)[1..] == rest && drop[0].from == at;
      if drop[0].end == brk < next {
        EmptyLine(src, brk, tree.dashes);
        LeftOfLine(src, brk, brk, next, end, rest, tree.dashes);
      }
    }
  }

  lemma LineStartFar(src: string, from: nat, end: nat)
    requires from <= end <= |src| && BreakAt(src, from, end) == end && (from == 0 || IsBreak(src[from - 1]))
    ensures LineStart(src, end) == from
  {
    assert from <= LineStart(src, end);
  }

  lemma DropsUnfold(src: string, tree: Tree, from: nat, end: nat, at: nat, dropped: bool, brk: nat, next: nat,
                    dropped': bool)
    requires from <= at < end <= |src| && (at > from ==> IsBreak(src[at - 1]))
    requires brk == BreakAt(src, at, end) && !(brk == end < |src|)
    requires next == if brk < end then AfterBreak(src, brk, end) else end
    requires dropped' == LineDrop(src, tree, from, at, brk, next, dropped).1
    ensures Beyond(Drops(src, tree, from, end, at, dropped), at, end)
            && Beyond(Drops(src, tree, from, end, next, dropped'), next, end)
    ensures Left(src, at, end, Drops(src, tree, from, end, at, dropped), tree.dashes)
            == Left(src, next, end, Drops(src, tree, from, end, next, dropped'), tree.dashes)
  {
    DropsWithin(src, tree, from, end, at, dropped);
    DropsWithin(src, tree, from, end, next, dropped');
    LineGone(src, tree, from, end, at, brk, next, dropped, Drops(src, tree, from, end, next, dropped'));
  }

  /** Text of a node is left on a gap from `at` on, its drops taken out. */
  ghost predicate Leaves(src: string, tree: Tree, from: nat, end: nat, at: nat, dropped: bool)
    requires from <= at <= end <= |src|
  {
    DropsWithin(src, tree, from, end, at, dropped);
    Left(src, at, end, Drops(src, tree, from, end, at, dropped), tree.dashes)
  }

  lemma {:induction false} DropsLeave(src: string, tree: Tree, from: nat, end: nat, at: nat, dropped: bool, kept: bool)
    requires from <= at <= end <= |src| && (at > from ==> IsBreak(src[at - 1]))
    requires at > from || BreakAt(src, at, end) < end || end == |src|
    requires kept == (end < |src| && HoldsNodeText(src, LineStart(src, end), end, tree.dashes))
    ensures Leaves(src, tree, from, end, at, dropped) == kept
    decreases end - at
  {
    var brk := BreakAt(src, at, end);
    if at == end || brk == end < |src| {
      LastLineLeft(src, tree, from, end, at, dropped);
    } else if brk == end {
      LastLineGone(src, tree, from, end, at, dropped);
    } else {
      var next := AfterBreak(src, brk, end);
      var dropped' := LineDrop(src, tree, from, at, brk, next, dropped).1;
      DropsLeave(src, tree, from, end, next, dropped', kept);
      LineUnfold(src, tree, from, end, at, dropped, brk, next, dropped');
    }
  }

  /** A line settled leaves what the lines under it do. */
  lemma LineUnfold(src: string, tree: Tree, from: nat, end: nat, at: nat, dropped: bool, brk: nat, next: nat,
                   dropped': bool)
    requires from <= at < end <= |src| && (at > from ==> IsBreak(src[at - 1]))
    requires brk == BreakAt(src, at, end) < end && next == AfterBreak(src, brk, end) <= end
    requires dropped' == LineDrop(src, tree, from, at, brk, next, dropped).1
    ensures Leaves(src, tree, from, end, at, dropped) == Leaves(src, tree, from, end, next, dropped')
  {
    DropsUnfold(src, tree, from, end, at, dropped, brk, next, dropped');
  }

  /** A last line of the document with no token to come. */
  lemma LastLineGone(src: string, tree: Tree, from: nat, end: nat, at: nat, dropped: bool)
    requires from <= at < end == |src| && (at > from ==> IsBreak(src[at - 1])) && BreakAt(src, at, end) == end
    ensures !Leaves(src, tree, from, end, at, dropped)
  {
    var dropped' := LineDrop(src, tree, from, at, end, end, dropped).1;
    DropsUnfold(src, tree, from, end, at, dropped, end, end, dropped');
  }

  /** Of the line of the token to come nothing is left out. */
  lemma LastLineLeft(src: string, tree: Tree, from: nat, end: nat, at: nat, dropped: bool)
    requires from <= at <= end <= |src| && (at > from ==> IsBreak(src[at - 1]))
    requires at == end || BreakAt(src, at, end) == end < |src|
    requires at > from || end == |src|
    ensures Leaves(src, tree, from, end, at, dropped)
            == (end < |src| && HoldsNodeText(src, LineStart(src, end), end, tree.dashes))
  {
    assert Drops(src, tree, from, end, at, dropped) == [];
    if end < |src| { LineStartFar(src, at, end); }
  }

  // ---------------------------------------------------------------- what goes out in place of the stretch

  /** The drops in order from c on, none over another. */
  ghost predicate InOrder(drops: seq<Extent>, c: nat, end: nat)
    decreases |drops|
  {
    drops != [] ==> c <= drops[0].from <= drops[0].end <= end && InOrder(drops[1..], drops[0].end, end)
  }

  lemma {:induction false} DropsInOrder(src: string, tree: Tree, from: nat, end: nat, at: nat, dropped: bool)
    requires from <= at && end <= |src|
    ensures InOrder(Drops(src, tree, from, end, at, dropped), at, end)
    decreases end - at
  {
    if at < end {
      var brk := BreakAt(src, at, end);
      if !(brk == end < |src|) {
        var next := if brk < end then AfterBreak(src, brk, end) else end;
        var (drop, dropped') := LineDrop(src, tree, from, at, brk, next, dropped);
        var rest := Drops(src, tree, from, end, next, dropped');
        DropsInOrder(src, tree, from, end, next, dropped');
        if drop == [] {
          assert drop + rest == rest;
          LaterInOrder(rest, at, next, end);
        } else {
          assert (drop + rest)[1..] == rest;
          LaterInOrder(rest, drop[0].end, next, end);
        }
      }
    }
  }

  lemma LaterInOrder(drops: seq<Extent>, c: nat, d: nat, end: nat)
    requires c <= d && InOrder(drops, d, end)
    ensures InOrder(drops, c, end)
  {
  }

  /** A comment lies to one side of a place or the other. */
  ghost predicate Beside(src: string, e: Edit, at: nat) {
    if e.at < at then SpanOf(src, e).end <= at else at <= SpanOf(src, e).from
  }

  ghost predicate AllBeside(src: string, edits: seq<Edit>, at: nat) {
    forall e <- edits :: Beside(src, e, at)
  }

  /** No comment edited stands across where a drop begins or ends. */
  ghost predicate Spaced(src: string, edits: seq<Edit>, drops: seq<Extent>) {
    forall d <- drops :: AllBeside(src, edits, d.from) && AllBeside(src, edits, d.end)
  }

  /** Of the first drop, and of the rest with the edits behind it. */
  lemma SpacedHead(src: string, edits: seq<Edit>, drops: seq<Extent>)
    requires drops != [] && Spaced(src, edits, drops)
    ensures AllBeside(src, edits, drops[0].from) && AllBeside(src, edits, drops[0].end)
    ensures Spaced(src, Pending(edits, drops[0].end), drops[1..])
  {
    PendingAmong(edits, drops[0].end);
    forall d <- drops[1..]
      ensures AllBeside(src, Pending(edits, drops[0].end), d.from)
              && AllBeside(src, Pending(edits, drops[0].end), d.end)
    {
      assert d in drops;
    }
  }

  /** The document from c to end with the edits in front of end spliced in. */
  ghost function SplicedTo(src: string, c: nat, edits: seq<Edit>, end: nat): string
    requires c <= end <= |src|
    decreases |edits|
  {
    if edits == [] || edits[0].at >= end then src[c..end]
    else
      var sp := SpanOf(src, edits[0]);
      var from := Min(Max(c, sp.from), end);
      src[c..from] + (sp.text + SplicedTo(src, Min(Max(from, sp.end), end), edits[1..], end))
  }

  /** The document from c on with the drops taken out of it and the edits spliced in; those of comments in a
      drop go with it. */
  ghost function Without(src: string, c: nat, edits: seq<Edit>, drops: seq<Extent>): string
    requires c <= |src| && InOrder(drops, c, |src|)
    decreases |drops|
  {
    if drops == [] then Spliced(src, c, edits)
    else
      var d := drops[0];
      SplicedTo(src, c, edits, d.from) + Without(src, d.end, Pending(edits, d.end), drops[1..])
  }

  /** The edits in front of a place, and the rest, spliced in turn. */
  lemma {:induction false} SplicedAt(src: string, c: nat, edits: seq<Edit>, end: nat)
    requires c <= end <= |src| && Ordered(src, edits, c) && AllBeside(src, edits, end)
    ensures Spliced(src, c, edits) == SplicedTo(src, c, edits, end) + Spliced(src, end, Pending(edits, end))
    decreases |edits|
  {
    if edits == [] {
      assert src[c..] == src[c..end] + src[end..];
    } else {
      var sp := SpanOf(src, edits[0]);
      assert Beside(src, edits[0], end);
      if edits[0].at >= end {
        Cut(src, c, end, sp.from);
        Assoc(src[c..end], src[end..sp.from], sp.text + Spliced(src, sp.end, edits[1..]));
        assert Max(end, sp.from) == sp.from && Max(c, sp.from) == sp.from && Max(sp.from, sp.end) == sp.end;
      } else {
        SplicedAt(src, sp.end, edits[1..], end);
        SplicedStep(src, c, edits, end, sp, SplicedTo(src, sp.end, edits[1..], end),
                    Spliced(src, end, Pending(edits[1..], end)));
      }
    }
  }

  lemma SplicedStep(src: string, c: nat, edits: seq<Edit>, end: nat, sp: Span, a: string, b: string)
    requires edits != [] && edits[0].at < end && sp == SpanOf(src, edits[0])
    requires c <= sp.from <= sp.end <= end <= |src|
    requires a == SplicedTo(src, sp.end, edits[1..], end) && Spliced(src, sp.end, edits[1..]) == a + b
    ensures Spliced(src, c, edits) == SplicedTo(src, c, edits, end) + b
  {
    assert Max(c, sp.from) == sp.from == Min(sp.from, end);
    assert Max(sp.from, sp.end) == sp.end == Min(sp.end, end);
    AssocTwice(src[c..sp.from], sp.text, a, b);
  }

  lemma AssocTwice(head: string, text: string, a: string, b: string)
    ensures head + (text + (a + b)) == (head + (text + a)) + b
  {
    Assoc(text, a, b);
    Assoc(head, text + a, b);
  }

  /** Edits carried out in front of a place leave the copy in front of it. */
  lemma {:induction false} AppliedShort(src: string, s: State, end: nat)
    requires Copying(src, s) && Ordered(src, s.edits, s.cursor) && s.cursor <= end <= |src|
    requires AllBeside(src, s.edits, end)
    ensures Applied(src, s, end).cursor <= end
    decreases |s.edits|
  {
    if s.edits != [] && s.edits[0].at < end {
      var e := s.edits[0];
      assert Beside(src, e, end);
      CarriedWhole(src, s, e);
      CarriedShort(src, s, e);
      AppliedShort(src, Carried(src, s.(edits := s.edits[1..]), e), end);
    }
  }

  lemma CarriedShort(src: string, s: State, e: Edit)
    requires Copying(src, s) && Ordered(src, s.edits, s.cursor) && s.edits != [] && s.edits[0] == e
    ensures Carried(src, s.(edits := s.edits[1..]), e).cursor == SpanOf(src, e).end
  {
    if e.Add? { NoneBefore(src, s.(edits := s.edits[1..]), e.at, SpanOf(src, e).end); }
  }

  /** upTo, in front of a place no edited comment stands across. */
  lemma AdvancedText(src: string, s: State, end: nat)
    requires Copying(src, s) && Ordered(src, s.edits, s.cursor) && s.cursor <= end <= |src|
    requires AllBeside(src, s.edits, end)
    ensures var r := Advanced(src, s, end);
            && r.cursor == end && r.edits == Pending(s.edits, end) && Copying(src, r)
            && Rendering(src, r.out) == Rendering(src, s.out) + SplicedTo(src, s.cursor, s.edits, end)
  {
    AppliedShort(src, s, end);
    PendingAmong(s.edits, end);
    AdvancedWhole(src, s, end);
    var r := Advanced(src, s, end);
    assert r.edits != [] ==> r.edits[0] in s.edits && Beside(src, r.edits[0], end);
    assert Clear(src, s.edits, end);
    SplicedAt(src, s.cursor, s.edits, end);
    var tail := Spliced(src, end, r.edits);
    Assoc(Rendering(src, s.out), SplicedTo(src, s.cursor, s.edits, end), tail);
    SameHead(Rendering(src, r.out), Rendering(src, s.out) + SplicedTo(src, s.cursor, s.edits, end), tail);
  }

  /** Edits from a place on stand in order from it. */
  lemma {:induction false} PendingOrdered(src: string, edits: seq<Edit>, c: nat, end: nat)
    requires Ordered(src, edits, c) && AllBeside(src, edits, end)
    ensures Ordered(src, Pending(edits, end), end)
    decreases |edits|
  {
    if edits != [] {
      assert Beside(src, edits[0], end);
      if edits[0].at < end { PendingOrdered(src, edits[1..], SpanOf(src, edits[0]).end, end); }
    }
  }

  lemma {:induction false} PendingLater(edits: seq<Edit>, at: nat, end: nat)
    requires at <= end
    ensures Pending(Pending(edits, at), end) == Pending(edits, end)
  {
    if edits != [] && edits[0].at < at { PendingLater(edits[1..], at, end); }
  }

  lemma {:induction false} PendingAmong(edits: seq<Edit>, end: nat)
    ensures forall e <- Pending(edits, end) :: e in edits
  {
    if edits != [] && edits[0].at < end { PendingAmong(edits[1..], end); }
  }

  /** The copy past one drop: what is written, and the edits still to come. */
  lemma PassedOne(src: string, s: State, d: Extent, left: seq<Edit>)
    requires s.cursor <= d.from <= d.end <= |src| && !s.failed && !s.dropping
    requires left == Pending(s.edits, s.cursor) && Ordered(src, left, s.cursor)
    requires AllBeside(src, left, d.from)
    ensures var s1 := Advanced(src, s, d.from);
            && s1.cursor == d.from && !s1.failed && !s1.dropping && s1.edits == Pending(left, d.from)
            && Rendering(src, s1.out) == Rendering(src, s.out) + SplicedTo(src, s.cursor, left, d.from)
  {
    BehindPassedOver(src, s, d.from);
    AdvancedText(src, s.(edits := left), d.from);
  }

  /** That is what the copy writes in place of the stretch: every edit still ahead of it is spliced in, but
      for those of comments in what is dropped. */
  lemma {:induction false} PassedText(src: string, s: State, drops: seq<Extent>, left: seq<Edit>)
    requires s.cursor <= |src| && !s.failed && !s.dropping && InOrder(drops, s.cursor, |src|)
    requires left == Pending(s.edits, s.cursor) && Ordered(src, left, s.cursor) && Spaced(src, left, drops)
    ensures forall d <- drops :: d.end <= |src|
    ensures var r := Passed(src, s, drops);
            && !r.failed
            && Rendering(src, r.out) + Spliced(src, r.cursor, Pending(r.edits, r.cursor))
               == Rendering(src, s.out) + Without(src, s.cursor, left, drops)
    decreases |drops|
  {
    if drops != [] {
      var d, more := drops[0], drops[1..];
      SpacedHead(src, left, drops);
      PassedOne(src, s, d, left);
      var s1 := Advanced(src, s, d.from);
      var s2 := s1.(cursor := Max(s1.cursor, d.end));
      var left' := Pending(left, d.end);
      PendingLater(left, d.from, d.end);
      PendingOrdered(src, left, s.cursor, d.end);
      PassedText(src, s2, more, left');
      Assoc(Rendering(src, s.out), SplicedTo(src, s.cursor, left, d.from), Without(src, d.end, left', more));
    }
  }

  /** A gap that holds a removed node's text is refused where it lies within a line. Elsewhere the rest of
      the document goes out less lines of the gap and with the edits of other comments spliced in, and text
      of a removed node is left of the gap if and only if it stands on the line of the token to come. */
  lemma GapSettled(src: string, tree: Tree, s: State, end: nat)
    requires s.cursor < end <= |src| && !s.failed && !s.dropping
    requires HoldsNodeText(src, s.cursor, end, tree.dashes)
    requires var left := Pending(s.edits, s.cursor);
             Ordered(src, left, s.cursor) && Spaced(src, left, Drops(src, tree, s.cursor, end, s.cursor, false))
    ensures var r, drops := Settled(src, tree, s, end), Drops(src, tree, s.cursor, end, s.cursor, false);
            && (r.failed <==> BreakAt(src, s.cursor, end) == end)
            && (forall d <- drops :: s.cursor <= d.from <= d.end <= end) && InOrder(drops, s.cursor, |src|)
            && (!r.failed ==>
                  Rendering(src, r.out) + Spliced(src, r.cursor, Pending(r.edits, r.cursor))
                  == Rendering(src, s.out) + Without(src, s.cursor, Pending(s.edits, s.cursor), drops))
            && (!r.failed ==>
                  (Left(src, s.cursor, end, drops, tree.dashes)
                   <==> end < |src| && HoldsNodeText(src, LineStart(src, end), end, tree.dashes)))
  {
    var drops := Drops(src, tree, s.cursor, end, s.cursor, false);
    DropsWithin(src, tree, s.cursor, end, s.cursor, false);
    DropsInOrder(src, tree, s.cursor, end, s.cursor, false);
    InOrderFurther(drops, s.cursor, end, |src|);
    if BreakAt(src, s.cursor, end) < end {
      DropsLeave(src, tree, s.cursor, end, s.cursor, false,
                 end < |src| && HoldsNodeText(src, LineStart(src, end), end, tree.dashes));
      PassedText(src, s, drops, Pending(s.edits, s.cursor));
    }
  }

  lemma {:induction false} InOrderFurther(drops: seq<Extent>, c: nat, end: nat, n: nat)
    requires InOrder(drops, c, end) && end <= n
    ensures InOrder(drops, c, n)
    decreases |drops|
  {
    if drops != [] { InOrderFurther(drops[1..], drops[0].end, end, n); }
  }

  /** A node taken from the later lines of a flow collection: "2" of "[1," over "2,3]" is neither left out
      nor refused, and goes out again with the comma behind it. */
  lemma FlowEntryWrittenBack()
    ensures var src, tree, s := "[1,\n2,3]", Tree({}, false), State(2, false, [], false, [Stretch(0, 2)]);
            HoldsNodeText(src, 2, 5, false) && Settled(src, tree, s, 5) == s
  {
    var src, tree := "[1,\n2,3]", Tree({}, false);
    assert BreakAt(src, 2, 5) == 3;
    assert !TextIn(src, 3, 3, false);
    assert TextIn(src, 4, 5, false);
    assert BreakAt(src, 4, 5) == 5;
    assert LineHoldsNode(src, 4, 5, false);
    assert HoldsNodeText(src, 4, 5, false);
    assert AfterBreak(src, 3, 8) == 4;
    assert Drops(src, tree, 2, 5, 4, false) == [];
    assert LineDrop(src, tree, 2, 2, 3, 4, false) == ([], false);
  }
}
