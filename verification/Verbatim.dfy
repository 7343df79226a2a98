/** The copier that writes a document back the way it was read, comment edits and removed lines apart
    (ast/verbatim.go). */
module Verbatim {
  import opened VerbatimText

  /** One stretch of a rendering: bytes of the document, or text laid out. */
  datatype Written = Stretch(from: nat, end: nat) | Laid(text: string)

  /** A comment to write beside a node, or one of the document's own, from its "#" through the break that
      ends it, to write over or to take out. */
  datatype Edit =
    | Add(at: nat, text: string)
    | Replace(at: nat, end: nat, text: string)
    | Remove(at: nat, end: nat)

  datatype Token = Token(at: nat, end: nat)

  datatype Extent = Extent(from: nat, end: nat)

  /** The copy, between two calls. */
  datatype State = State(cursor: nat, dropping: bool, edits: seq<Edit>, failed: bool, out: seq<Written>)

  // ---------------------------------------------------------------- what an edit stands for

  /** What an edit puts in place of which bytes. */
  datatype Span = Span(from: nat, end: nat, text: string)

  /** A comment alone on its line. */
  ghost predicate Alone(src: string, at: nat)
    requires at <= |src|
  {
    Blanks(src, LineStart(src, at), at)
  }

  /** Taken out, a comment alone on its line takes the line with it, and one that closes a line takes
      the blanks in front of it; written over, only the "#" and its words go. */
  ghost function SpanOf(src: string, e: Edit): (r: Span)
    ensures r.from <= |src| && r.end <= |src|
  {
    var at := Min(e.at, |src|);
    if e.Add? then Span(at, at, " " + e.text)
    else
      var end := Min(Max(e.end, at), |src|);
      if e.Replace? then Span(at, WithoutBreak(src, end), "#" + e.text)
      else if Alone(src, at) then Span(LineStart(src, at), end, "")
      else Span(BlankStart(src, LineStart(src, at), at), WithoutBreak(src, end), "")
  }

  /** The document from c on with each edit's span spliced; a span that opens behind c is cut there. */
  ghost function Spliced(src: string, c: nat, edits: seq<Edit>): string
    requires c <= |src|
    decreases |edits|
  {
    if edits == [] then src[c..]
    else
      var sp := SpanOf(src, edits[0]);
      var from := Max(c, sp.from);
      src[c..from] + (sp.text + Spliced(src, Max(from, sp.end), edits[1..]))
  }

  function Piece(src: string, w: Written): string {
    match w
    case Laid(text) => text
    case Stretch(from, end) => if from <= end <= |src| then src[from..end] else ""
  }

  /** What a rendering comes to. */
  function Rendering(src: string, out: seq<Written>): string {
    if out == [] then "" else Rendering(src, out[..|out| - 1]) + Piece(src, out[|out| - 1])
  }

  // ---------------------------------------------------------------- the copy, step by step

  ghost function Lay(s: State, text: string): State {
    if s.failed || text == "" then s else s.(out := s.out + [Laid(text)])
  }

  /** take, and what it gives handed over. */
  ghost function Taken(src: string, s: State, end: nat): (r: State)
    requires s.cursor <= end <= |src|
    ensures r.cursor == end && r.edits == s.edits && r.failed == s.failed && !r.dropping
  {
    var from := if s.dropping then TextEnd(src, s.cursor, end) else s.cursor;
    s.(cursor := end, dropping := false, out := s.out + if from == end then [] else [Stretch(from, end)])
  }

  /** skipComment. */
  ghost function Skipped(src: string, s: State, sp: Span): (r: State)
    requires s.cursor <= |src| && sp.from <= |src| && sp.end <= |src|
    ensures s.cursor <= r.cursor <= |src| && r.edits == s.edits && r.failed == s.failed
  {
    var s1 := if sp.from > s.cursor then Taken(src, s, sp.from) else s;
    if sp.end > s1.cursor then s1.(cursor := sp.end) else s1
  }

  /** One edit, taken off the front. */
  ghost function Carried(src: string, s: State, e: Edit): (r: State)
    requires s.cursor <= |src| && !s.failed
    ensures s.cursor <= r.cursor <= |src| && |r.edits| <= |s.edits| && !r.failed
    decreases |s.edits|, 2
  {
    if e.Add? then Lay(Advanced(src, s, e.at), " " + e.text)
    else Lay(Skipped(src, s, SpanOf(src, e)), if e.Replace? then "#" + e.text else "")
  }

  /** applyEdits. */
  ghost function Applied(src: string, s: State, end: nat): (r: State)
    requires s.cursor <= |src|
    ensures s.cursor <= r.cursor <= |src| && |r.edits| <= |s.edits| && r.failed == s.failed
    decreases |s.edits|, 0
  {
    if s.failed || s.edits == [] || s.edits[0].at >= end then s
    else
      var s0 := s.(edits := s.edits[1..]);
      Applied(src, if s.edits[0].at < s.cursor then s0 else Carried(src, s0, s.edits[0]), end)
  }

  /** upTo. */
  ghost function Advanced(src: string, s: State, end: nat): (r: State)
    requires s.cursor <= |src|
    ensures s.cursor <= r.cursor <= |src| && |r.edits| <= |s.edits| && r.failed == s.failed
    decreases |s.edits|, 1
  {
    if s.failed then s
    else
      var e := Min(end, |src|);
      var s1 := Applied(src, s, e);
      if e <= s1.cursor then s1 else Taken(src, s1, e)
  }

  /** upToToken. */
  ghost function ToToken(src: string, s: State, tk: Token): (r: State)
    requires s.cursor <= |src|
    ensures s.cursor <= r.cursor <= |src| && r.edits == s.edits && r.failed == s.failed
  {
    if s.failed then s
    else
      var at := Min(Max(tk.at, s.cursor), |src|);
      var end := Max(TokenEnd(src, s.edits, tk), at);
      var s1 := if at > s.cursor then Taken(src, s, at) else s;
      if end > s1.cursor then s1.(cursor := end, out := s1.out + [Stretch(s1.cursor, end)]) else s1
  }

  predicate RemovalAt(edits: seq<Edit>, end: nat) {
    edits != [] && edits[0].Remove? && edits[0].at == end
  }

  /** tokenEnd. */
  function TokenEnd(src: string, edits: seq<Edit>, tk: Token): (r: nat)
    ensures Min(tk.at, Min(tk.end, |src|)) <= r <= Min(tk.end, |src|)
  {
    var end := Min(tk.end, |src|);
    var start := Min(tk.at, end);
    var text := TextEnd(src, start, end);
    if RemovalAt(edits, end) then text
    else if text == start then end
    else if BreakAt(src, text, end) < end then text
    else end
  }

  // ---------------------------------------------------------------- lines a removed node left

  /** What the tree holds besides its nodes: the offsets of its comments, and a block sequence that
      records no "-". */
  datatype Tree = Tree(comments: set<nat>, dashes: bool)

  predicate HoldsComment(src: string, tree: Tree, at: nat, brk: nat)
    requires at <= brk <= |src|
  {
    var i := BlankEnd(src, at, brk);
    (if i + 3 <= brk && AfterByteOrderMark(src, i + 3) then i + 3 else i) in tree.comments
  }

  /** One line of a gap that opens at `from`: what of it is left out, and whether the line under it
      follows one that went. */
  function LineDrop(src: string, tree: Tree, from: nat, at: nat, brk: nat, next: nat, dropped: bool)
    : (seq<Extent>, bool)
    requires from <= at <= brk <= next <= |src|
  {
    if at == from && from > 0 && !IsBreak(src[from - 1]) then
      (if HoldsText(src, at, brk, tree.dashes) then [Extent(at, brk)] else [], false)
    else if BlankEnd(src, at, brk) == brk || IsDocumentEnd(src[at..brk]) then
      (if dropped then [Extent(at, next)] else [], dropped)
    else if HoldsText(src, at, brk, tree.dashes) || !HoldsComment(src, tree, at, brk) then
      ([Extent(at, next)], true)
    else
      ([], false)
  }

  /** The loop of settleGap, from the line at on. */
  function Drops(src: string, tree: Tree, from: nat, end: nat, at: nat, dropped: bool): (r: seq<Extent>)
    requires from <= at && end <= |src|
    decreases end - at
  {
    if at >= end then []
    else
      var brk := BreakAt(src, at, end);
      if brk == end < |src| then []
      else
        var next := if brk < end then AfterBreak(src, brk, end) else end;
        var (drop, dropped') := LineDrop(src, tree, from, at, brk, next, dropped);
        drop + Drops(src, tree, from, end, next, dropped')
  }

  /** The copy taken past each of those in turn. */
  ghost function Passed(src: string, s: State, drops: seq<Extent>): (r: State)
    requires s.cursor <= |src|
    requires forall i :: 0 <= i < |drops| ==> drops[i].end <= |src|
    ensures s.cursor <= r.cursor <= |src| && |r.edits| <= |s.edits| && r.failed == s.failed
    decreases |drops|
  {
    if drops == [] then s
    else
      var s1 := Advanced(src, s, drops[0].from);
      Passed(src, s1.(cursor := Max(s1.cursor, drops[0].end)), drops[1..])
  }

  lemma {:induction false} DropsWithin(src: string, tree: Tree, from: nat, end: nat, at: nat, dropped: bool)
    requires from <= at && end <= |src|
    ensures forall d <- Drops(src, tree, from, end, at, dropped) :: at <= d.from <= d.end <= end
    decreases end - at
  {
    if at < end {
      var brk := BreakAt(src, at, end);
      if !(brk == end < |src|) {
        var next := if brk < end then AfterBreak(src, brk, end) else end;
        DropsWithin(src, tree, from, end, next, LineDrop(src, tree, from, at, brk, next, dropped).1);
      }
    }
  }

  /** settleGap. */
  ghost function Settled(src: string, tree: Tree, s: State, end: nat): (r: State)
    requires s.cursor <= |src|
    ensures s.cursor <= r.cursor <= |src| && |r.edits| <= |s.edits| && (s.failed ==> r.failed)
  {
    if s.failed || s.dropping || end <= s.cursor || end > |src|
        || !HoldsNodeText(src, s.cursor, end, tree.dashes) then s
    else if BreakAt(src, s.cursor, end) == end then s.(failed := true)
    else
      DropsWithin(src, tree, s.cursor, end, s.cursor, false);
      Passed(src, s, Drops(src, tree, s.cursor, end, s.cursor, false))
  }

  // ---------------------------------------------------------------- a run

  /** writeTokenOf. */
  ghost function WroteToken(src: string, tree: Tree, transforms: bool, s: State, tk: Token): (r: State)
    requires s.cursor <= |src|
    ensures s.cursor <= r.cursor <= |src|
  {
    var s1 := Settled(src, tree, s, tk.at);
    if !transforms && !s1.dropping then Advanced(src, s1, TokenEnd(src, s1.edits, tk)) else ToToken(src, s1, tk)
  }

  /** The end of VerbatimFile: the text behind the last token, then the edits the copy never reached. */
  ghost function Closed(src: string, tree: Tree, s: State): (r: State)
    requires s.cursor <= |src|
    ensures s.cursor <= r.cursor <= |src|
  {
    var s1 := Advanced(src, Settled(src, tree, s, |src|), |src|);
    if s1.edits == [] then s1 else Applied(src, s1, |src| + 1)
  }

  /** A rendering, from the first of its tokens on. */
  ghost function Ran(src: string, tree: Tree, transforms: bool, s: State, tokens: seq<Token>): (r: State)
    requires s.cursor <= |src|
    ensures s.cursor <= r.cursor <= |src|
    decreases |tokens|
  {
    if tokens == [] then Closed(src, tree, s)
    else Ran(src, tree, transforms, WroteToken(src, tree, transforms, s, tokens[0]), tokens[1..])
  }

  class VerbatimWriter {
    const src: string
    const tree: Tree
    const transforms: bool
    var cursor: nat
    var dropping: bool
    var edits: seq<Edit>
    var failed: bool
    var out: seq<Written>

    constructor (src: string, tree: Tree, transforms: bool, cursor: nat, edits: seq<Edit>)
      ensures Now() == State(cursor, false, edits, false, [])
      ensures this.src == src && this.tree == tree && this.transforms == transforms
    {
      this.src, this.tree, this.transforms := src, tree, transforms;
      this.cursor, dropping, this.edits, failed, out := cursor, false, edits, false, [];
    }

    ghost function Now(): State
      reads this
    {
      State(cursor, dropping, edits, failed, out)
    }

    /** What the transform or the writer is given. */
    method Hand(w: Written)
      requires w.Stretch? ==> w.from <= w.end
      modifies this`out
      ensures out == if failed || (w.Stretch? && w.from == w.end) || w == Laid("") then old(out) else old(out) + [w]
    {
      if failed || (w.Stretch? && w.from == w.end) || (w.Laid? && w.text == "") {
        return;
      }
      out := out + [w];
    }

    method Take(end: nat) returns (from: nat)
      requires cursor <= end <= |src|
      modifies this`cursor, this`dropping
      ensures cursor == end && !dropping
      ensures from == if old(dropping) then TextEnd(src, old(cursor), end) else old(cursor)
    {
      from := cursor;
      cursor := end;
      if !dropping {
        return;
      }
      dropping := false;
      from := FindTextEnd(src, from, end);
    }

    method TakeAndHand(end: nat)
      requires !failed && cursor <= end <= |src|
      modifies this`cursor, this`dropping, this`out
      ensures Now() == Taken(src, old(Now()), end)
    {
      var from := Take(end);
      Hand(Stretch(from, end));
      assert out == old(out) + if from == end then [] else [Stretch(from, end)];
    }

    method UpTo(end: nat)
      requires cursor <= |src|
      modifies this`cursor, this`dropping, this`edits, this`out
      ensures Now() == Advanced(src, old(Now()), end)
      decreases |edits|, 1
    {
      if failed {
        return;
      }
      var e := if end > |src| then |src| else end;
      ApplyEdits(e);
      if e <= cursor {
        return;
      }
      TakeAndHand(e);
    }

    method ApplyEdits(end: nat)
      requires cursor <= |src|
      modifies this`cursor, this`dropping, this`edits, this`out
      ensures Now() == Applied(src, old(Now()), end)
      decreases |edits|, 0
    {
      ghost var was := Now();
      while |edits| > 0 && !failed
        invariant cursor <= |src| && |edits| <= |was.edits| && failed == was.failed
        invariant Applied(src, Now(), end) == Applied(src, was, end)
        decreases |edits|
      {
        var pending := edits[0];
        if pending.at >= end {
          return;
        }
        edits := edits[1..];
        if pending.at < cursor {
          continue;
        }
        if pending.Add? {
          UpTo(pending.at);
          Hand(Laid(" " + pending.text));
        } else {
          SkipComment(pending);
          if pending.Replace? {
            Hand(Laid("#" + pending.text));
          }
        }
      }
    }

    method SkipComment(e: Edit)
      requires cursor <= |src| && !failed && !e.Add?
      modifies this`cursor, this`dropping, this`out
      ensures Now() == Skipped(src, old(Now()), SpanOf(src, e))
    {
      var at := Min(e.at, |src|);
      var end := Min(Max(e.end, at), |src|);
      var lineStart := FindLineStart(src, at);
      var alone := OnlyBlanks(src, lineStart, at);
      if e.Remove? && alone {
        at := lineStart;
      } else if e.Remove? {
        at := FindBlankStart(src, lineStart, at);
        end := WithoutBreak(src, end);
      } else {
        end := WithoutBreak(src, end);
      }
      if at > cursor {
        TakeAndHand(at);
      }
      if end > cursor {
        cursor := end;
      }
    }

    method UpToToken(tk: Token)
      requires cursor <= |src|
      modifies this`cursor, this`dropping, this`out
      ensures Now() == ToToken(src, old(Now()), tk)
    {
      if failed {
        return;
      }
      var at := Min(Max(tk.at, cursor), |src|);
      var tokenEnd := FindTokenEnd(tk);
      var end := Max(tokenEnd, at);
      if at > cursor {
        TakeAndHand(at);
      }
      if end > cursor {
        var from := cursor;
        cursor := end;
        Hand(Stretch(from, end));
      }
    }

    method FindTokenEnd(tk: Token) returns (r: nat)
      ensures r == TokenEnd(src, edits, tk)
    {
      var end := Min(tk.end, |src|);
      var start := Min(tk.at, end);
      var text := FindTextEnd(src, start, end);
      if RemovalAt(edits, end) {
        return text;
      }
      if text == start {
        return end;
      }
      var brk := IndexBreak(src, text, end);
      return if brk < end then text else end;
    }

    method SettleGap(end: nat)
      requires cursor <= |src|
      modifies this`cursor, this`dropping, this`edits, this`out, this`failed
      ensures Now() == Settled(src, tree, old(Now()), end)
    {
      if failed || dropping || end <= cursor || end > |src| {
        return;
      }
      var holds := FindNodeText(src, cursor, end, tree.dashes);
      if !holds {
        return;
      }
      var brk := IndexBreak(src, cursor, end);
      if brk == end {
        failed := true;
        return;
      }
      var drops := FindDrops(cursor, end);
      DropsWithin(src, tree, cursor, end, cursor, false);
      PassDrops(drops);
    }

    method FindDrops(from: nat, end: nat) returns (drops: seq<Extent>)
      requires from <= end <= |src|
      ensures drops == Drops(src, tree, from, end, from, false)
    {
      drops := [];
      var at, dropped := from, false;
      while at < end
        invariant from <= at <= end
        invariant drops + Drops(src, tree, from, end, at, dropped) == Drops(src, tree, from, end, from, false)
        decreases end - at
      {
        var brk := IndexBreak(src, at, end);
        if brk == end && end < |src| {
          break;
        }
        var next := if brk < end then AfterBreak(src, brk, end) else end;
        var (drop, dropped') := LineDrop(src, tree, from, at, brk, next, dropped);
        Assoc(drops, drop, Drops(src, tree, from, end, next, dropped'));
        drops, dropped, at := drops + drop, dropped', next;
      }
    }

    method PassDrops(drops: seq<Extent>)
      requires cursor <= |src| && forall i :: 0 <= i < |drops| ==> drops[i].end <= |src|
      modifies this`cursor, this`dropping, this`edits, this`out
      ensures Now() == Passed(src, old(Now()), drops)
    {
      ghost var was := Now();
      assert drops[0..] == drops;
      for i := 0 to |drops|
        invariant cursor <= |src|
        invariant Passed(src, Now(), drops[i..]) == Passed(src, was, drops)
      {
        assert drops[i..][1..] == drops[i + 1..];
        UpTo(drops[i].from);
        cursor := Max(cursor, drops[i].end);
      }
    }

    method WriteTokenOf(tk: Token)
      requires cursor <= |src|
      modifies this`cursor, this`dropping, this`edits, this`out, this`failed
      ensures Now() == WroteToken(src, tree, transforms, old(Now()), tk)
    {
      SettleGap(tk.at);
      if !transforms && !dropping {
        var end := FindTokenEnd(tk);
        UpTo(end);
        return;
      }
      UpToToken(tk);
    }

    method FlushEdits()
      requires cursor <= |src|
      modifies this`cursor, this`dropping, this`edits, this`out
      ensures Now() == if old(edits) == [] then old(Now()) else Applied(src, old(Now()), |src| + 1)
    {
      if |edits| > 0 {
        ApplyEdits(|src| + 1);
      }
    }
  }

  lemma Assoc<T>(a: seq<T>, b: seq<T>, c: seq<T>)
    ensures (a + b) + c == a + (b + c)
  {
  }

  /** A whole rendering: each token in turn, then what stands behind the last. */
  method VerbatimFile(src: string, tree: Tree, transforms: bool, from: nat, edits: seq<Edit>, tokens: seq<Token>)
    returns (out: seq<Written>, failed: bool)
    requires from <= |src|
    ensures var r := Ran(src, tree, transforms, State(from, false, edits, false, []), tokens);
            out == r.out && failed == r.failed
  {
    var vw := new VerbatimWriter(src, tree, transforms, from, edits);
    ghost var was := vw.Now();
    assert tokens[0..] == tokens;
    for i := 0 to |tokens|
      invariant vw.cursor <= |src| && vw.src == src && vw.tree == tree && vw.transforms == transforms
      invariant Ran(src, tree, transforms, vw.Now(), tokens[i..]) == Ran(src, tree, transforms, was, tokens)
    {
      assert tokens[i..][1..] == tokens[i + 1..];
      vw.WriteTokenOf(tokens[i]);
    }
    assert tokens[|tokens|..] == [];
    vw.SettleGap(|src|);
    vw.UpTo(|src|);
    vw.FlushEdits();
    return vw.out, vw.failed;
  }
}
