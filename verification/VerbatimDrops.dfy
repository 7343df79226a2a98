/** Which lines of a gap settleGap leaves out (ast/verbatim.go), line by line and from the text alone. */
module VerbatimDrops {
  import opened VerbatimText
  import opened Verbatim

  /** Each comment the tree holds is one of the document's own, known by where its "#" stands. */
  ghost predicate CommentsHeld(src: string, tree: Tree) {
    forall c <- tree.comments :: c < |src| && src[c] == '#'
  }

  /** The position is left out. */
  ghost predicate Covered(drops: seq<Extent>, p: nat) {
    exists d <- drops :: d.from <= p < d.end
  }

  /** A line begins at `at`: the document does, or a break ends just in front, "\r\n" being one. */
  ghost predicate LineBegins(src: string, at: nat)
    requires at <= |src|
  {
    at == 0 || (IsBreak(src[at - 1]) && !(src[at - 1] == '\r' && at < |src| && src[at] == '\n'))
  }

  /** A line that lies whole in src[from..end], from `at` to its break at brk, the next line at `next`. The
      gap's own beginning counts as one where a break stands in front of it. */
  ghost predicate WholeLine(src: string, from: nat, end: nat, at: nat, brk: nat, next: nat)
    requires end <= |src|
  {
    && from <= at <= brk <= next <= end && at < end
    && (if at == from then at == 0 || IsBreak(src[at - 1]) else LineBegins(src, at))
    && (forall i :: at <= i < brk ==> !IsBreak(src[i]))
    && (if brk < end then
          && IsBreak(src[brk])
          && next == (if src[brk] == '\r' && brk + 1 < end && src[brk + 1] == '\n' then brk + 2 else brk + 1)
        else next == end == |src|)
  }

  /** Nothing stands on the line, or a document end marker. */
  ghost predicate Bare(src: string, at: nat, brk: nat)
    requires at <= brk <= |src|
  {
    Blanks(src, at, brk) || IsDocumentEnd(src[at..brk])
  }

  /** A comment the tree holds opens the line, behind blanks and perhaps a byte order mark. */
  ghost predicate HoldsOne(src: string, tree: Tree, at: nat, brk: nat)
    requires at <= brk <= |src|
  {
    exists c <- tree.comments :: at <= c < brk && Opening(src, at, c)
  }

  ghost predicate Opening(src: string, at: nat, c: nat)
    requires at <= c < |src|
  {
    Blanks(src, at, c) || (at + 3 <= c && AfterByteOrderMark(src, c) && Blanks(src, at, c - 3))
  }

  lemma HoldsOneFound(src: string, tree: Tree, at: nat, brk: nat)
    requires at <= brk <= |src| && CommentsHeld(src, tree) && !Blanks(src, at, brk)
    requires brk < |src| ==> IsBreak(src[brk])
    ensures HoldsComment(src, tree, at, brk) <==> HoldsOne(src, tree, at, brk)
  {
    var i := BlankEnd(src, at, brk);
    if HoldsOne(src, tree, at, brk) {
      var c :| c in tree.comments && at <= c < brk && Opening(src, at, c);
      assert src[c] == '#';
      if Blanks(src, at, c) { assert i == c; } else { assert !IsBlank(src[c - 3]) && i == c - 3; }
    }
    if HoldsComment(src, tree, at, brk) {
      var c := if i + 3 <= brk && AfterByteOrderMark(src, i + 3) then i + 3 else i;
      assert c in tree.comments && c < |src| && src[c] == '#';
      assert Opening(src, at, c);
    }
  }

  // ---------------------------------------------------------------- the loop, line by line

  /** Whether the line above `at` went, as the loop from cur on comes to it. */
  ghost predicate WentAbove(src: string, tree: Tree, from: nat, end: nat, cur: nat, dropped: bool, at: nat)
    requires from <= cur && end <= |src|
    decreases at - cur
  {
    if cur >= at || cur >= end then dropped
    else
      var brk := BreakAt(src, cur, end);
      if brk == end then dropped
      else
        var next := AfterBreak(src, brk, end);
        WentAbove(src, tree, from, end, next, LineDrop(src, tree, from, cur, brk, next, dropped).1, at)
  }

  /** Of the line at cur, its own drop decides. */
  lemma LineFate(src: string, tree: Tree, from: nat, end: nat, cur: nat, dropped: bool, brk: nat, next: nat, p: nat)
    requires from <= cur < end <= |src| && brk == BreakAt(src, cur, end) && !(brk == end < |src|)
    requires next == if brk < end then AfterBreak(src, brk, end) else end
    ensures var (drop, dropped') := LineDrop(src, tree, from, cur, brk, next, dropped);
            Covered(Drops(src, tree, from, end, cur, dropped), p)
            <==> if p < next then Covered(drop, p) else Covered(Drops(src, tree, from, end, next, dropped'), p)
  {
    var (drop, dropped') := LineDrop(src, tree, from, cur, brk, next, dropped);
    var rest := Drops(src, tree, from, end, next, dropped');
    DropsWithin(src, tree, from, end, next, dropped');
    CoveredByEither(drop, rest, p);
    if p >= next { assert !Covered(drop, p); } else { assert !Covered(rest, p); }
  }

  lemma CoveredByEither(a: seq<Extent>, b: seq<Extent>, p: nat)
    ensures Covered(a + b, p) <==> Covered(a, p) || Covered(b, p)
  {
    if Covered(a, p) { var d :| d in a && d.from <= p < d.end; assert d in a + b; }
    if Covered(b, p) { var d :| d in b && d.from <= p < d.end; assert d in a + b; }
  }

  /** A line further down is settled by the state the loop comes to it in. */
  lemma {:induction false} ReachedLine(src: string, tree: Tree, from: nat, end: nat, cur: nat, dropped: bool,
                                       at: nat, brk: nat, next: nat, p: nat)
    requires from <= cur <= at && WholeLineFrom(src, from, end, cur, at, brk, next) && at <= p < next
    ensures Covered(Drops(src, tree, from, end, cur, dropped), p)
            <==> var went := WentAbove(src, tree, from, end, cur, dropped, at);
                 Covered(LineDrop(src, tree, from, at, brk, next, went).0, p)
    decreases at - cur
  {
    var brk', next' := BreakAt(src, cur, end), 0;
    if cur == at {
      assert brk' == brk;
      LineFate(src, tree, from, end, cur, dropped, brk, next, p);
    } else {
      next' := AfterBreak(src, brk', end);
      LineFate(src, tree, from, end, cur, dropped, brk', next', p);
      var dropped' := LineDrop(src, tree, from, cur, brk', next', dropped).1;
      ReachedLine(src, tree, from, end, next', dropped', at, brk, next, p);
    }
  }

  /** The line, with the loop standing at cur. */
  ghost predicate WholeLineFrom(src: string, from: nat, end: nat, cur: nat, at: nat, brk: nat, next: nat) {
    && from <= cur <= at < end <= |src| && brk == BreakAt(src, at, end) && !(brk == end < |src|)
    && next == (if brk < end then AfterBreak(src, brk, end) else end)
    && (cur < at ==> LineBegins(src, at))
  }

  /** The state past a line is that line's own. */
  lemma {:induction false} WentOf(src: string, tree: Tree, from: nat, end: nat, cur: nat, dropped: bool,
                                  at: nat, brk: nat, next: nat)
    requires from <= cur <= at && WholeLineFrom(src, from, end, cur, at, brk, next) && brk < end
    ensures WentAbove(src, tree, from, end, cur, dropped, next)
            == LineDrop(src, tree, from, at, brk, next, WentAbove(src, tree, from, end, cur, dropped, at)).1
    decreases at - cur
  {
    if cur < at {
      var brk' := BreakAt(src, cur, end);
      var next' := AfterBreak(src, brk', end);
      WentOf(src, tree, from, end, next', LineDrop(src, tree, from, cur, brk', next', dropped).1, at, brk, next);
    }
  }

  // ---------------------------------------------------------------- which lines go

  /** The line just above `at` lies whole in the gap and is left out. */
  ghost predicate WentUp(src: string, from: nat, end: nat, drops: seq<Extent>, at: nat)
    requires end <= |src|
  {
    exists a, b :: WholeLine(src, from, end, a, b, at) && Covered(drops, a)
  }

  lemma AsLoop(src: string, from: nat, end: nat, at: nat, brk: nat, next: nat)
    requires end <= |src| && WholeLine(src, from, end, at, brk, next)
    ensures WholeLineFrom(src, from, end, from, at, brk, next)
  {
  }

  /** What the loop makes of a whole line it stands at, `went` saying that the one above it went. */
  lemma OneLine(src: string, tree: Tree, from: nat, end: nat, at: nat, brk: nat, next: nat, went: bool, p: nat)
    requires end <= |src| && WholeLine(src, from, end, at, brk, next) && CommentsHeld(src, tree) && at <= p < next
    ensures var (drop, went') := LineDrop(src, tree, from, at, brk, next, went);
            && (Covered(drop, p) <==> went')
            && (went' <==> if Bare(src, at, brk) then went
                           else HoldsText(src, at, brk, tree.dashes) || !HoldsOne(src, tree, at, brk))
  {
    var one := [Extent(at, next)];
    assert one[0] in one && Covered(one, p);
    assert Blanks(src, at, brk) <==> BlankEnd(src, at, brk) == brk;
    if !Blanks(src, at, brk) { HoldsOneFound(src, tree, at, brk); }
  }

  /** A whole line of a gap is left out entire or kept entire. One with text goes, and so does one whose
      comment the tree does not hold; one opened by a comment the tree holds stays; a bare one goes exactly
      where the line above it does. */
  lemma GapLine(src: string, tree: Tree, from: nat, end: nat, at: nat, brk: nat, next: nat)
    requires end <= |src| && CommentsHeld(src, tree) && WholeLine(src, from, end, at, brk, next)
    ensures var drops := Drops(src, tree, from, end, from, false);
            && (forall p :: at <= p < next ==> (Covered(drops, p) <==> Covered(drops, at)))
            && (Covered(drops, at) <==>
                  if Bare(src, at, brk) then WentUp(src, from, end, drops, at)
                  else HoldsText(src, at, brk, tree.dashes) || !HoldsOne(src, tree, at, brk))
  {
    var drops := Drops(src, tree, from, end, from, false);
    var went := WentAbove(src, tree, from, end, from, false, at);
    AsLoop(src, from, end, at, brk, next);
    forall p | at <= p < next ensures Covered(drops, p) <==> LineDrop(src, tree, from, at, brk, next, went).1 {
      ReachedLine(src, tree, from, end, from, false, at, brk, next, p);
      OneLine(src, tree, from, end, at, brk, next, went, p);
    }
    OneLine(src, tree, from, end, at, brk, next, went, at);
    AboveWent(src, tree, from, end, at);
  }

  /** The state the loop comes to a line in is what became of the line above it. */
  lemma AboveWent(src: string, tree: Tree, from: nat, end: nat, at: nat)
    requires from <= at < end <= |src| && CommentsHeld(src, tree) && (at > from ==> LineBegins(src, at))
    ensures WentAbove(src, tree, from, end, from, false, at)
            <==> WentUp(src, from, end, Drops(src, tree, from, end, from, false), at)
  {
    var drops := Drops(src, tree, from, end, from, false);
    if WentUp(src, from, end, drops, at) {
      var a, b :| WholeLine(src, from, end, a, b, at) && Covered(drops, a);
      WentLine(src, tree, from, end, a, b, at);
    }
    if at > from && WentAbove(src, tree, from, end, from, false, at) {
      var a, b := LineAbove(src, from, end, at);
      if a == from && from > 0 && !IsBreak(src[from - 1]) {
        WentOf(src, tree, from, end, from, false, a, b, at);
      } else {
        WentLine(src, tree, from, end, a, b, at);
      }
    }
  }

  lemma WentLine(src: string, tree: Tree, from: nat, end: nat, a: nat, b: nat, at: nat)
    requires end <= |src| && CommentsHeld(src, tree) && WholeLine(src, from, end, a, b, at) && at < end
    ensures WentAbove(src, tree, from, end, from, false, at)
            <==> Covered(Drops(src, tree, from, end, from, false), a)
  {
    var went := WentAbove(src, tree, from, end, from, false, a);
    AsLoop(src, from, end, a, b, at);
    WentOf(src, tree, from, end, from, false, a, b, at);
    ReachedLine(src, tree, from, end, from, false, a, b, at, a);
    OneLine(src, tree, from, end, a, b, at, went, a);
  }

  /** A line that begins inside the gap has one above it there. */
  lemma LineAbove(src: string, from: nat, end: nat, at: nat) returns (a: nat, b: nat)
    requires from < at < end <= |src| && LineBegins(src, at)
    ensures from <= a <= b < at && WholeLineFrom(src, from, end, from, a, b, at)
    ensures WholeLine(src, from, end, a, b, at) || (a == from && from > 0 && !IsBreak(src[from - 1]))
  {
    b := if at >= from + 2 && src[at - 1] == '\n' && src[at - 2] == '\r' then at - 2 else at - 1;
    a := LineStart(src, b);
    if a < from { a := from; }
    BreakIs(src, a, b, end);
  }

  lemma {:induction false} BreakIs(src: string, a: nat, b: nat, end: nat)
    requires a <= b < end <= |src| && IsBreak(src[b]) && forall i :: a <= i < b ==> !IsBreak(src[i])
    ensures BreakAt(src, a, end) == b
  {
  }

  /** What follows the last token on its own line goes where it holds text, and the break stays. */
  lemma GapFirstLine(src: string, tree: Tree, from: nat, end: nat, p: nat)
    requires 0 < from < end <= |src| && !IsBreak(src[from - 1]) && from <= p
    requires var brk := BreakAt(src, from, end); brk < end && p < AfterBreak(src, brk, end)
    ensures var brk := BreakAt(src, from, end);
            Covered(Drops(src, tree, from, end, from, false), p) <==> p < brk && HoldsText(src, from, brk, tree.dashes)
  {
    var brk := BreakAt(src, from, end);
    LineFate(src, tree, from, end, from, false, brk, AfterBreak(src, brk, end), p);
    var one := [Extent(from, brk)];
    assert one[0] in one;
  }

  /** Nothing outside the gap goes, and nothing of the line of the token to come. */
  lemma GapLastLine(src: string, tree: Tree, from: nat, end: nat, p: nat)
    requires from <= end <= |src| && Covered(Drops(src, tree, from, end, from, false), p)
    ensures from <= p < end && (end < |src| ==> p < LineStart(src, end))
  {
    DropsWithin(src, tree, from, end, from, false);
    if end < |src| { BeforeLast(src, tree, from, end, from, false, p); }
  }

  lemma {:induction false} BeforeLast(src: string, tree: Tree, from: nat, end: nat, cur: nat, dropped: bool, p: nat)
    requires from <= cur && end < |src| && Covered(Drops(src, tree, from, end, cur, dropped), p)
    ensures p < LineStart(src, end)
    decreases end - cur
  {
    if cur < end {
      var brk := BreakAt(src, cur, end);
      if brk < end {
        var next := AfterBreak(src, brk, end);
        LineFate(src, tree, from, end, cur, dropped, brk, next, p);
        if p >= next {
          BeforeLast(src, tree, from, end, next, LineDrop(src, tree, from, cur, brk, next, dropped).1, p);
        }
        assert LineStart(src, end) > brk;
      }
    }
  }

  /** So no comment the tree holds is lost to a gap where it opens its line and no text stands there. */
  lemma CommentStays(src: string, tree: Tree, from: nat, end: nat, at: nat, brk: nat, next: nat, c: nat)
    requires end <= |src| && CommentsHeld(src, tree) && WholeLine(src, from, end, at, brk, next)
    requires c in tree.comments && at <= c < brk && Opening(src, at, c)
    requires !HoldsText(src, at, brk, tree.dashes)
    ensures !Covered(Drops(src, tree, from, end, from, false), c)
  {
    GapLine(src, tree, from, end, at, brk, next);
    assert HoldsOne(src, tree, at, brk);
    assert src[c] == '#' && src[at..brk][0] == src[at] != '.';
  }

  /** "#" over c, where the b above it is removed: the line of b goes and the comment stays. */
  lemma HeadCommentKept(src: string, tree: Tree)
    requires src == "a\nb\n#\nc" && tree == Tree({4}, false)
    ensures Drops(src, tree, 1, 6, 1, false) == [Extent(2, 4)]
  {
    assert BreakAt(src, 1, 6) == 1 && BreakAt(src, 2, 6) == 3 && BreakAt(src, 4, 6) == 5;
    assert BlankEnd(src, 2, 3) == 2 && !IsDocumentEnd(src[2..3]) && TextIn(src, 2, 3, false);
    assert BlankEnd(src, 4, 5) == 4 && !IsDocumentEnd(src[4..5]) && !TextIn(src, 4, 5, false);
    assert LineDrop(src, tree, 1, 1, 1, 2, false) == ([], false);
    assert LineDrop(src, tree, 1, 2, 3, 4, false) == ([Extent(2, 4)], true);
    assert LineDrop(src, tree, 1, 4, 5, 6, true) == ([], false);
    assert Drops(src, tree, 1, 6, 4, true) == [] + [];
    assert Drops(src, tree, 1, 6, 2, false) == [Extent(2, 4)] + [];
  }
}
