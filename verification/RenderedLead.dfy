/** withoutLead (ast/rendered.go): the line break a piece opens with taken off it, by a cut through the
    pieces where one can be made and a flatten where it cannot. */
module RenderedLead {
  import opened TextLayout
  import opened Rendered

  /** strings.TrimPrefix(s, "\n"). */
  function TrimBreak(s: string): string {
    if Leads(s) then s[1..] else s
  }

  /** The first part that writes something, |parts| where none does. */
  ghost function FirstFull(parts: seq<Piece>): (i: nat)
    ensures i <= |parts|
    ensures forall j :: 0 <= j < i ==> parts[j].size == 0
    ensures i < |parts| ==> parts[i].size != 0
  {
    if parts == [] || parts[0].size != 0 then 0 else 1 + FirstFull(parts[1..])
  }

  /** Where the opening break of p can be taken off: everywhere but behind an empty first part whose
      separator is that break, with a second part that writes something and has no break of its own
      to give up. */
  ghost predicate DropsLead(p: Piece) {
    p.Parts? && p.leads && FirstFull(p.parts) < |p.parts| ==>
      var i := FirstFull(p.parts);
      if p.sep == SepBreak && i > 0 then i > 1 || (p.parts[i].leads && DropsLead(p.parts[i]))
      else DropsLead(p.parts[i])
  }

  /** The loop finds a part to cut: it gives up behind a second empty part, where a break is the
      separator between two pieces. */
  ghost predicate FindsPart(p: Piece)
    requires p.Parts?
  {
    FirstFull(p.parts) < |p.parts| && (p.sep == SepBreak ==> FirstFull(p.parts) < 2)
  }

  /** The break is reached by cutting alone, and nothing is flattened. */
  ghost predicate Cuts(p: Piece) {
    p.Parts? && p.leads ==> FindsPart(p) && Cuts(p.parts[FirstFull(p.parts)])
  }

  /** What is flattened, if anything is, fits. */
  ghost predicate LeadFits(p: Piece) {
    p.Parts? && p.leads ==>
      if FindsPart(p) then LeadFits(p.parts[FirstFull(p.parts)]) else Fits(p, false, 0)
  }

  /** The eager text withoutLead is to leave. */
  ghost function WithoutBreak(p: Piece, text: string): string {
    if DropsLead(p) then TrimBreak(text) else text
  }

  /** What the piece left is to be written like: p, once the break it gave up is written. */
  ghost predicate WrittenLike(p: Piece, out: Piece, w: Writer, k: nat) {
    Written(out, if DropsLead(p) then Writer(w.out + "\n", true) else w, k) == Written(p, w, k)
  }

  /** In any state and under any indentation, where nothing is flattened or the piece fits there. */
  ghost predicate WrittenWhereFit(p: Piece, out: Piece) {
    forall w: Writer, k: nat :: Cuts(p) || Fits(p, w.atLineStart, k) ==> WrittenLike(p, out, w, k)
  }

  // ---------------------------------------------------------------- where pieces fit

  /** A piece that writes nothing fits anywhere. */
  lemma {:induction false} EmptyFits(p: Piece, atStart: bool, indent: int)
    requires Valid(p) && p.size == 0
    ensures Fits(p, atStart, indent)
    decreases p, 1
  {
    if p.Parts? { EmptyFitsSeq(p.parts, p.sep, true, atStart, indent + p.indent, p); }
  }

  lemma {:induction false} EmptyFitsSeq(parts: seq<Piece>, sep: Sep, first: bool, atStart: bool, indent: int,
                                        whole: Piece)
    requires forall i :: 0 <= i < |parts| ==> parts[i] < whole && Valid(parts[i])
    requires RawSeq(parts, sep, first) == ""
    ensures FitsSeq(parts, sep, first, atStart, indent)
    decreases whole, 0, |parts|
  {
    if parts != [] {
      assert |Raw(parts[0])| == 0;
      EmptyFits(parts[0], After(LeadSep(sep, first), atStart), indent);
      EmptyFitsSeq(parts[1..], sep, false, After(Raw(parts[0]), After(LeadSep(sep, first), atStart)), indent, whole);
    }
  }

  /** A piece that opens on a break fits wherever it does from one state, and under less. */
  lemma {:induction false} LeadingFits(p: Piece, atStart: bool, atStart': bool, indent: int, indent': int)
    requires Valid(p) && indent' <= indent
    requires Fits(p, atStart, indent)
    requires p.leads || atStart == atStart'
    ensures Fits(p, atStart', indent')
    decreases p, 1
  {
    if p.Parts? {
      LeadingFitsSeq(p.parts, p.sep, true, atStart && !p.hanging, atStart' && !p.hanging,
                     indent + p.indent, indent' + p.indent, p);
    }
  }

  lemma {:induction false} LeadingFitsSeq(parts: seq<Piece>, sep: Sep, first: bool, atStart: bool, atStart': bool,
                                          indent: int, indent': int, whole: Piece)
    requires forall i :: 0 <= i < |parts| ==> parts[i] < whole && Valid(parts[i])
    requires indent' <= indent && FitsSeq(parts, sep, first, atStart, indent)
    requires Leads(RawSeq(parts, sep, first)) || atStart == atStart'
    ensures FitsSeq(parts, sep, first, atStart', indent')
    decreases whole, 0, |parts|
  {
    if parts != [] {
      var lead, p, rest := LeadSep(sep, first), parts[0], RawSeq(parts[1..], sep, false);
      var at, at' := After(lead, atStart), After(lead, atStart');
      if lead == "" { assert RawSeq(parts, sep, first) == Raw(p) + rest; }
      if Raw(p) == "" {
        assert Raw(p) + rest == rest;
        EmptyFits(p, at', indent');
      } else {
        assert lead == "" ==> Leads(Raw(p)) == Leads(RawSeq(parts, sep, first));
        LeadingFits(p, at, at', indent, indent');
      }
      LeadingFitsSeq(parts[1..], sep, false, After(Raw(p), at), After(Raw(p), at'), indent, indent', whole);
    }
  }

  lemma {:induction false} PartFits(parts: seq<Piece>, sep: Sep, first: bool, atStart: bool, indent: int, i: nat)
    requires i < |parts| && FitsSeq(parts, sep, first, atStart, indent)
    ensures Fits(parts[i], true, indent) || Fits(parts[i], false, indent)
  {
    if i > 0 {
      var at := After(LeadSep(sep, first), atStart);
      PartFits(parts[1..], sep, false, After(Raw(parts[0]), at), indent, i - 1);
    }
  }

  /** A part that opens on a break fits in its own right, in any state, where the whole fits. */
  lemma InnerFits(p: Piece, atStart: bool, k: nat, i: nat, atStart': bool, k': nat)
    requires Valid(p) && p.Parts? && Fits(p, atStart, k) && i < |p.parts| && p.parts[i].leads
    requires k' <= k + p.indent
    ensures Fits(p.parts[i], atStart', k')
  {
    var part, at := p.parts[i], atStart && !p.hanging;
    assert Valid(part);
    PartFits(p.parts, p.sep, true, at, k + p.indent, i);
    if Fits(part, true, k + p.indent) {
      LeadingFits(part, true, atStart', k + p.indent, k');
    } else {
      LeadingFits(part, false, atStart', k + p.indent, k');
    }
  }

  /** A rope that fits is cut right: by cutting, or by flattening what fits. */
  lemma {:induction false} FitsLead(p: Piece)
    requires Valid(p) && (Cuts(p) || Fits(p, false, 0))
    ensures LeadFits(p)
    decreases p
  {
    if p.Parts? && p.leads && FindsPart(p) {
      var i := FirstFull(p.parts);
      assert Valid(p.parts[i]);
      if p.parts[i].leads {
        if !Cuts(p) { InnerFits(p, false, 0, i, false, 0); }
        FitsLead(p.parts[i]);
      }
    }
  }

  // ---------------------------------------------------------------- the eager text, cut

  /** Parts that write nothing, with no separator to write either, put nothing in front of the i'th. */
  lemma {:induction false} FromFirstFull(parts: seq<Piece>, sep: Sep, first: bool, i: nat)
    requires AllValid(parts) && i < |parts| && (forall j :: 0 <= j < i ==> parts[j].size == 0)
    requires sep == SepNone || i == 0
    ensures FlatSeq(parts, sep, first) == LeadSep(sep, first) + (Flat(parts[i]) + FlatSeq(parts[i + 1..], sep, false))
    ensures RawSeq(parts, sep, first) == LeadSep(sep, first) + (Raw(parts[i]) + RawSeq(parts[i + 1..], sep, false))
  {
    if i > 0 {
      FromFirstFull(parts[1..], sep, false, i - 1);
      assert parts[1..][i - 1 + 1..] == parts[i + 1..];
      FlatShape(parts[0]);
    }
  }

  /** The same, behind one empty part and the break that separates it. */
  lemma BehindBreak(parts: seq<Piece>, sep: Sep, part: Piece, rest: seq<Piece>)
    requires AllValid(parts) && |parts| > 1 && parts[0].size == 0 && parts[1] == part && parts[2..] == rest
    ensures FlatSeq(parts, sep, true) == SepText(sep) + (Flat(part) + FlatSeq(rest, sep, false))
    ensures RawSeq(parts, sep, true) == SepText(sep) + (Raw(part) + RawSeq(rest, sep, false))
  {
    FlatShape(parts[0]);
    var under := parts[1..];
    assert under[0] == part && under[1..] == rest;
    assert FlatSeq(parts, sep, true) == "" + ("" + FlatSeq(under, sep, false));
  }

  /** Where a part is found, it opens the join, or it stands behind one empty part and a break. */
  lemma FoundPart(p: Piece, i: nat)
    requires Valid(p) && p.Parts? && p.leads && FindsPart(p) && i == FirstFull(p.parts)
    ensures i == 0 || p.sep == SepNone || (i == 1 && p.sep == SepBreak)
    ensures i == 0 || p.sep == SepNone ==> p.parts[i].leads
  {
    assert Valid(p.parts[i]);
    if i == 0 || p.sep == SepNone {
      FromFirstFull(p.parts, p.sep, true, i);
      assert "" + (Raw(p.parts[i]) + RawSeq(p.parts[i + 1..], p.sep, false))
          == Raw(p.parts[i]) + RawSeq(p.parts[i + 1..], p.sep, false);
    } else {
      assert Valid(p.parts[0]);
      assert Raw(p) == "" + (Raw(p.parts[0]) + RawSeq(p.parts[1..], p.sep, false));
      assert Raw(p.parts[0]) == "";
      assert Raw(p)[0] == SepText(p.sep)[0];
    }
  }

  lemma CancelTail(a: string, b: string, tail: string)
    ensures a + tail == b + tail <==> a == b
  {
    assert a == (a + tail)[..|(a + tail)| - |tail|];
    assert b == (b + tail)[..|(b + tail)| - |tail|];
  }

  lemma TrimConcat(a: string, b: string)
    requires a != ""
    ensures TrimBreak(a + b) == TrimBreak(a) + b
  {
  }

  /** With nothing in front of it, the part's text opens the join's. */
  lemma CutFront(parts: seq<Piece>, sep: Sep, i: nat, cut: Piece)
    requires AllValid(parts) && i < |parts| && (forall j :: 0 <= j < i ==> parts[j].size == 0) && Valid(cut)
    requires (sep == SepNone || i == 0) && parts[i].size != 0
    ensures FlatSeq(parts[i := cut], sep, true) == FlatSeq(parts, sep, true) <==> Flat(cut) == Flat(parts[i])
    ensures FlatSeq(parts[i := cut], sep, true) == TrimBreak(FlatSeq(parts, sep, true))
            <==> Flat(cut) == TrimBreak(Flat(parts[i]))
  {
    assert Valid(parts[i]);
    FlatShape(parts[i]);
    FromFirstFull(parts, sep, true, i);
    FromFirstFull(parts[i := cut], sep, true, i);
    assert parts[i := cut][i + 1..] == parts[i + 1..];
    var tail := FlatSeq(parts[i + 1..], sep, false);
    assert "" + (Flat(parts[i]) + tail) == Flat(parts[i]) + tail;
    assert "" + (Flat(cut) + tail) == Flat(cut) + tail;
    TrimConcat(Flat(parts[i]), tail);
    CancelTail(Flat(cut), Flat(parts[i]), tail);
    CancelTail(Flat(cut), TrimBreak(Flat(parts[i])), tail);
  }

  /** Behind an empty part and a break: the break in front is as good as the one given up. */
  lemma CutBehind(parts: seq<Piece>, cut: Piece)
    requires AllValid(parts) && Valid(cut) && |parts| > 1 && parts[0].size == 0
    ensures FlatSeq(parts[1 := cut], SepBreak, true) == FlatSeq(parts, SepBreak, true) <==> Flat(cut) == Flat(parts[1])
    ensures parts[1].leads ==>
              (FlatSeq(parts[1 := cut], SepBreak, true) == TrimBreak(FlatSeq(parts, SepBreak, true))
               <==> Flat(cut) == TrimBreak(Flat(parts[1])))
  {
    FlatShape(parts[1]);
    assert Valid(parts[1]);
    assert parts[1 := cut][2..] == parts[2..];
    BehindBreak(parts, SepBreak, parts[1], parts[2..]);
    BehindBreak(parts[1 := cut], SepBreak, cut, parts[2..]);
    BesideBreak(Flat(cut), Flat(parts[1]), FlatSeq(parts[2..], SepBreak, false));
  }

  lemma BesideBreak(cut: string, text: string, tail: string)
    ensures "\n" + (cut + tail) == "\n" + (text + tail) <==> cut == text
    ensures Leads(text) ==>
              ("\n" + (cut + tail) == TrimBreak("\n" + (text + tail)) <==> cut == TrimBreak(text))
  {
    var a, b := "\n" + (cut + tail), "\n" + (text + tail);
    assert a[1..] == cut + tail && b[1..] == text + tail;
    CancelTail(cut, text, tail);
    if Leads(text) {
      Assoc("\n", cut, tail);
      CancelTail("\n" + cut, text, tail);
      assert text == "\n" + text[1..];
      assert ("\n" + cut)[1..] == cut;
    }
  }

  /** The eager text of the parts with the one found put in another's place. */
  lemma CutSeq(p: Piece, i: nat, cut: Piece)
    requires Valid(p) && p.Parts? && p.leads && FindsPart(p) && i == FirstFull(p.parts) && Valid(cut)
    ensures FlatSeq(p.parts[i := cut], p.sep, true) == WithoutBreak(p, FlatSeq(p.parts, p.sep, true))
            <==> Flat(cut) == WithoutBreak(p.parts[i], Flat(p.parts[i]))
  {
    FoundPart(p, i);
    if i == 0 || p.sep == SepNone {
      CutFront(p.parts, p.sep, i, cut);
    } else {
      CutBehind(p.parts, cut);
      assert Valid(p.parts[1]);
      FlatShape(p.parts[1]);
    }
  }

  /** A layout under a fixed indentation tells its texts apart. */
  lemma {:induction false} LayInjective(a: string, b: string, atStart: bool, k: int)
    requires Lay(a, atStart, k) == Lay(b, atStart, k)
    ensures a == b
  {
    LayShape(a, atStart, k);
    LayShape(b, atStart, k);
    if a != "" {
      LayHead(a, atStart, k);
      LayHead(b, atStart, k);
      LayInjective(a[1..], b[1..], a[0] == '\n', k);
    }
  }

  lemma LayHead(s: string, atStart: bool, k: int)
    requires s != ""
    ensures var pad := if atStart && s[0] != '\n' && k > 0 then k else 0;
            && |Lay(s, atStart, k)| > pad && Lay(s, atStart, k)[pad] == s[0]
            && Lay(s, atStart, k)[pad + 1..] == Lay(s[1..], s[0] == '\n', k)
  {
  }

  /** From the parts cut to the piece: the indentation goes back on, and the first line of a hanging
      piece is the one the break ended. */
  lemma CutWhole(p: Piece, cutText: string)
    requires Valid(p) && p.Parts? && p.leads
    ensures Lay(cutText, true, p.indent) == WithoutBreak(p, Flat(p)) <==> cutText == WithoutBreak(p, Inner(p))
  {
    InnerShape(p);
    var text := Inner(p);
    LayLeading(text, p.indent);
    LayWithoutLead(text, !p.hanging, p.indent);
    LayShape(text, !p.hanging, p.indent);
    if Lay(cutText, true, p.indent) == WithoutBreak(p, Flat(p)) {
      LayInjective(cutText, WithoutBreak(p, text), true, p.indent);
    }
  }

  /** The eager text of the piece rebuilt around the part cut: right exactly where the part's is. */
  lemma CutFlat(p: Piece, i: nat, cut: Piece, joined: Piece, out: Piece)
    requires Valid(p) && p.Parts? && p.leads && FindsPart(p) && i == FirstFull(p.parts) && Valid(cut)
    requires joined.Parts? && joined.indent == 0 && !joined.hanging
    requires Flat(joined) == FlatSeq(p.parts[i := cut], p.sep, true)
    requires out == Parts(joined.parts, joined.sep, p.indent, false, joined.size, joined.spans, joined.leads)
    ensures Flat(out) == WithoutBreak(p, Flat(p)) <==> Flat(cut) == WithoutBreak(p.parts[i], Flat(p.parts[i]))
  {
    LayNothing(Inner(joined), true, 0);
    CutSeq(p, i, cut);
    CutWhole(p, Inner(joined));
  }

  // ---------------------------------------------------------------- what is written, cut

  /** A piece that opens on a break is written the same from either state. */
  lemma {:induction false} LeadsAnywhere(p: Piece, w: Writer, at: bool, k: int)
    requires Valid(p) && p.leads
    ensures Written(p, w.(atLineStart := at), k) == Written(p, w, k)
    decreases p, 1
  {
    var v := w.(atLineStart := at);
    if p.Parts? && !p.hanging { LeadsAnywhereSeq(p.parts, p.sep, true, w, at, k + p.indent, p); }
  }

  lemma {:induction false} LeadsAnywhereSeq(parts: seq<Piece>, sep: Sep, first: bool, w: Writer, at: bool, k: int,
                                            whole: Piece)
    requires forall i :: 0 <= i < |parts| ==> parts[i] < whole && Valid(parts[i])
    requires Leads(RawSeq(parts, sep, first))
    ensures WrittenSeq(parts, sep, first, w.(atLineStart := at), k) == WrittenSeq(parts, sep, first, w, k)
    decreases whole, 0, |parts|
  {
    var lead, p, v := LeadSep(sep, first), parts[0], w.(atLineStart := at);
    if lead == "" {
      var under := RawSeq(parts[1..], sep, false);
      assert "" + (Raw(p) + under) == Raw(p) + under;
      if p.size == 0 {
        assert Raw(p) + under == under;
        EmptyWrites(p, w, k);
        EmptyWrites(p, v, k);
        LeadsAnywhereSeq(parts[1..], sep, false, w, at, k, whole);
      } else {
        LeadsAnywhere(p, w, at, k);
      }
    }
  }

  /** Parts that write nothing in front of the i'th, as FromFirstFull has it. */
  lemma {:induction false} WrittenFrom(parts: seq<Piece>, sep: Sep, first: bool, i: nat, w: Writer, k: int)
    requires AllValid(parts) && i < |parts| && (forall j :: 0 <= j < i ==> parts[j].size == 0)
    requires sep == SepNone || (i == 0 && first)
    ensures WrittenSeq(parts, sep, first, w, k) == WrittenSeq(parts[i + 1..], sep, false, Written(parts[i], w, k), k)
  {
    if i > 0 {
      EmptyWrites(parts[0], w, k);
      WrittenFrom(parts[1..], sep, false, i - 1, w, k);
      assert parts[1..][i - 1 + 1..] == parts[i + 1..];
    }
  }

  lemma WrittenBehind(parts: seq<Piece>, part: Piece, rest: seq<Piece>, w: Writer, broken: Writer, k: int)
    requires AllValid(parts) && |parts| > 1 && parts[0].size == 0 && parts[1] == part && parts[2..] == rest
    requires broken == Writer(w.out + "\n", true)
    ensures WrittenSeq(parts, SepBreak, true, w, k) == WrittenSeq(rest, SepBreak, false, Written(part, broken, k), k)
  {
    EmptyWrites(parts[0], w, k);
    assert parts[1..][1..] == rest;
    assert Write(w, "\n", k) == broken;
  }

  /** A break written, and the text under it. */
  lemma LeafWrittenLike(p: Piece, out: Piece, w: Writer, k: nat)
    requires Valid(p) && p.Leaf? && p.leads
    requires out.Leaf? && out.text == p.text[1..] && out.indent == p.indent && !out.hanging
    ensures WrittenLike(p, out, w, k)
  {
  }

  /** The piece flattened, where it fits: its text under a break is that text under any indentation. */
  lemma FlattenedWrittenLike(p: Piece, out: Piece, w: Writer, k: nat)
    requires Valid(p) && p.leads && Fits(p, w.atLineStart, k) && DropsLead(p)
    requires out.Leaf? && out.text == TrimBreak(Flat(p)) && out.indent == 0 && !out.hanging
    ensures WrittenLike(p, out, w, k)
  {
    FlatShape(p);
    LazyAgainstEager(p, w, w, k);
    assert Write(w, Flat(p), k) == Write(Put(w, '\n', k), Flat(p)[1..], k);
  }

  /** The parts with the one found put in another's place, in front of the join: written, in the state
      the cut leaves, as the parts are. */
  lemma CutFrontWritten(parts: seq<Piece>, sep: Sep, i: nat, cut: Piece, w: Writer, v: Writer, k: nat)
    requires AllValid(parts) && i < |parts| && (forall j :: 0 <= j < i ==> parts[j].size == 0) && Valid(cut)
    requires sep == SepNone || i == 0
    requires Written(cut, v, k) == Written(parts[i], w, k)
    ensures WrittenSeq(parts[i := cut], sep, true, v, k) == WrittenSeq(parts, sep, true, w, k)
  {
    WrittenFrom(parts, sep, true, i, w, k);
    WrittenFrom(parts[i := cut], sep, true, i, v, k);
    assert parts[i := cut][i + 1..] == parts[i + 1..];
  }

  /** The same behind an empty part and a break. */
  lemma CutBehindWritten(parts: seq<Piece>, others: seq<Piece>, cut: Piece, w: Writer, v: Writer, k: int,
                         w': Writer, v': Writer)
    requires |parts| > 1 && parts[0].size == 0 && AllValid(parts) && Valid(cut) && others == parts[1 := cut]
    requires w' == Writer(w.out + "\n", true) && v' == Writer(v.out + "\n", true)
    requires Written(cut, v', k) == Written(parts[1], w', k)
    ensures WrittenSeq(others, SepBreak, true, v, k) == WrittenSeq(parts, SepBreak, true, w, k)
  {
    var rest := parts[2..];
    assert others[2..] == rest;
    WrittenBehind(parts, parts[1], rest, w, w', k);
    WrittenBehind(others, cut, rest, v, v', k);
  }

  /** The part is written as it should be, wherever the writer stands. */
  ghost predicate PartLike(part: Piece, cut: Piece, out: string, k: nat) {
    if part.leads then forall at: bool :: WrittenLike(part, cut, Writer(out, at), k) else cut == part
  }

  /** The parts of p with the one found cut, written in the state p is to be taken up in. */
  lemma CutPartsWritten(p: Piece, i: nat, cut: Piece, w: Writer, v: Writer, k: nat)
    requires Valid(p) && p.Parts? && p.leads && FindsPart(p) && i == FirstFull(p.parts) && Valid(cut)
    requires PartLike(p.parts[i], cut, w.out, k) && PartLike(p.parts[i], cut, w.out + "\n", k)
    requires v == if DropsLead(p) then Writer(w.out + "\n", true) else Writer(w.out, v.atLineStart)
    ensures WrittenSeq(p.parts[i := cut], p.sep, true, v, k) == WrittenSeq(p.parts, p.sep, true, w, k)
  {
    var part := p.parts[i];
    assert Valid(part);
    FoundPart(p, i);
    if i == 0 || p.sep == SepNone {
      assert WrittenLike(part, cut, Writer(w.out, v.atLineStart), k);
      LeadsAnywhere(part, w, v.atLineStart, k);
      assert w.(atLineStart := v.atLineStart) == Writer(w.out, v.atLineStart);
      CutFrontWritten(p.parts, p.sep, i, cut, w, v, k);
    } else {
      assert part.leads ==> WrittenLike(part, cut, Writer(w.out + "\n", true), k);
      CutBehindWritten(p.parts, p.parts[1 := cut], cut, w, v, k,
                       Writer(w.out + "\n", true), Writer(v.out + "\n", true));
    }
  }

  // ---------------------------------------------------------------- withoutLead

  /** The piece left is the piece given, but for the break. Its eager text is right exactly where what
      was flattened fits; and it is written, under the break, as the piece given is, in any state and
      under any indentation, where nothing was flattened or the piece fits there. */
  method WithoutLead(p: Piece) returns (out: Piece)
    requires Valid(p)
    ensures Valid(out)
    ensures !p.leads ==> out == p
    ensures Flat(out) == WithoutBreak(p, Flat(p)) <==> LeadFits(p)
    ensures p.leads ==> WrittenWhereFit(p, out)
    decreases p
  {
    if !p.leads {
      FlatShape(p);
      return p;
    }
    if p.Leaf? {
      out := LeafWithoutLead(p);
      return;
    }
    var i, n := 0, |p.parts|;
    while i < n
      invariant 0 <= i <= n
      invariant forall j :: 0 <= j < i ==> p.parts[j].size == 0
      invariant i > 1 ==> p.sep != SepBreak
    {
      var part := p.parts[i];
      if part.size == 0 {
        if i > 0 && p.sep == SepBreak { break; }
        i := i + 1;
        continue;
      }
      FullIsFirst(p.parts, i);
      assert Valid(part);
      var cut := WithoutLead(part);
      var joined := JoinPieces(p.sep, p.parts[i := cut]);
      out := Parts(joined.parts, joined.sep, p.indent, false, joined.size, joined.spans, joined.leads);
      CutFlat(p, i, cut, joined, out);
      CutAnywhere(p, i, cut, joined, out);
      return;
    }
    LateFull(p.parts, i);
    out := FlattenedWithoutLead(p);
  }

  method LeafWithoutLead(p: Piece) returns (out: Piece)
    requires Valid(p) && p.Leaf? && p.leads
    ensures Valid(out)
    ensures Flat(out) == WithoutBreak(p, Flat(p))
    ensures forall w: Writer, k: nat :: WrittenLike(p, out, w, k)
  {
    LayWithoutLead(p.text, !p.hanging, p.indent);
    LayShape(p.text, !p.hanging, p.indent);
    var leaf := MakeLeaf(p.text[1..]);
    out := Leaf(leaf.text, p.indent, false, leaf.size, leaf.spans, leaf.leads);
    forall w: Writer, k: nat ensures WrittenLike(p, out, w, k) {
      LeafWrittenLike(p, out, w, k);
    }
  }

  method FlattenedWithoutLead(p: Piece) returns (out: Piece)
    requires Valid(p) && p.Parts? && p.leads && !FindsPart(p)
    ensures Valid(out)
    ensures Flat(out) == WithoutBreak(p, Flat(p)) <==> LeadFits(p)
    ensures forall w: Writer, k: nat :: Fits(p, w.atLineStart, k) ==> WrittenLike(p, out, w, k)
  {
    var text := Flatten(p);
    FactsHold(p);
    out := MakeLeaf(text[1..]);
    assert text == ['\n'] + text[1..] && Flat(p) == ['\n'] + Flat(p)[1..];
    forall w: Writer, k: nat | Fits(p, w.atLineStart, k) ensures WrittenLike(p, out, w, k) {
      LeadingFits(p, w.atLineStart, false, k, 0);
      FlattenedWrittenLike(p, out, w, k);
    }
  }

  /** The piece rebuilt around the part cut, where the part is written as it should be. */
  lemma CutAnywhere(p: Piece, i: nat, cut: Piece, joined: Piece, out: Piece)
    requires Valid(p) && p.Parts? && p.leads && FindsPart(p) && i == FirstFull(p.parts) && Valid(cut)
    requires !p.parts[i].leads ==> cut == p.parts[i]
    requires p.parts[i].leads ==> WrittenWhereFit(p.parts[i], cut)
    requires joined.Parts? && joined.indent == 0 && !joined.hanging
    requires forall w: Writer, k: nat ::
               Written(joined, w, k) == WrittenSeq(p.parts[i := cut], p.sep, true, w, k)
    requires out == Parts(joined.parts, joined.sep, p.indent, false, joined.size, joined.spans, joined.leads)
    ensures WrittenWhereFit(p, out)
  {
    forall w: Writer, k: nat | Cuts(p) || Fits(p, w.atLineStart, k) ensures WrittenLike(p, out, w, k) {
      var under := k + p.indent;
      PartAnywhere(p, i, cut, w, k, under);
      var v := if DropsLead(p) then Writer(w.out + "\n", true) else w;
      CutPartsWritten(p, i, cut, w.(atLineStart := w.atLineStart && !p.hanging), v, under);
      Reindented(joined, out, p.indent, v, k, under);
      assert Written(joined, v, under) == WrittenSeq(p.parts[i := cut], p.sep, true, v, under);
    }
  }

  lemma PartAnywhere(p: Piece, i: nat, cut: Piece, w: Writer, k: nat, under: nat)
    requires Valid(p) && p.Parts? && p.leads && FindsPart(p) && i == FirstFull(p.parts)
    requires !p.parts[i].leads ==> cut == p.parts[i]
    requires p.parts[i].leads ==> WrittenWhereFit(p.parts[i], cut)
    requires (Cuts(p) || Fits(p, w.atLineStart, k)) && under == k + p.indent
    ensures PartLike(p.parts[i], cut, w.out, under) && PartLike(p.parts[i], cut, w.out + "\n", under)
  {
    if p.parts[i].leads && !Cuts(p) {
      InnerFits(p, w.atLineStart, k, i, true, under);
      InnerFits(p, w.atLineStart, k, i, false, under);
    }
  }

  /** A join is written under an indentation of its own as it is under that much more around it. */
  lemma Reindented(joined: Piece, out: Piece, n: nat, w: Writer, k: nat, under: nat)
    requires joined.Parts? && joined.indent == 0 && !joined.hanging && under == k + n
    requires out == Parts(joined.parts, joined.sep, n, false, joined.size, joined.spans, joined.leads)
    ensures Written(out, w, k) == Written(joined, w, under)
  {
  }

  lemma FullIsFirst(parts: seq<Piece>, i: nat)
    requires i < |parts| && parts[i].size != 0 && forall j :: 0 <= j < i ==> parts[j].size == 0
    ensures FirstFull(parts) == i
  {
  }

  lemma LateFull(parts: seq<Piece>, i: nat)
    requires i <= |parts| && forall j :: 0 <= j < i ==> parts[j].size == 0
    ensures FirstFull(parts) >= i
    ensures i < |parts| && parts[i].size == 0 ==> FirstFull(parts) > i
  {
  }

  /** The case it misses: nothing, a break, and a line. */
  lemma LeadKept() returns (p: Piece)
    ensures Valid(p) && Fits(p, false, 0) && p.leads && Flat(p) == "\nx"
    ensures !DropsLead(p)
  {
    var parts := [MakeLeaf(""), MakeLeaf("x")];
    p := Parts(parts, SepBreak, 0, false, 2, true, true);
    assert parts[1..] == [MakeLeaf("x")] && parts[1..][1..] == [];
    assert RawSeq(parts, SepBreak, true) == "\nx";
    assert FlatSeq(parts, SepBreak, true) == "\nx";
    LayNothing("\nx", true, 0);
  }
}
