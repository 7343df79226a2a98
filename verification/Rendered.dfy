/** Deferred rendering (ast/rendered.go): text held in pieces, with indentation kept as a number on
    a piece and put in by a line writer as the pieces are written out. The eager form it stands for
    is `Flat`: join the parts, then indent every line, level by level. */
module Rendered {
  import opened TextLayout

  datatype Sep = SepNone | SepBreak | SepSpace

  function SepText(sep: Sep): string {
    match sep
    case SepBreak => "\n"
    case SepSpace => " "
    case SepNone => ""
  }

  /** The separator a part takes in front of it: none before the first. */
  function LeadSep(sep: Sep, first: bool): string {
    if first then "" else SepText(sep)
  }

  /** A leaf's text, or parts to be joined. size, spans and leads are what layout decisions ask
      before anything is written. */
  datatype Piece =
    | Leaf(text: string, indent: int, hanging: bool, size: int, spans: bool, leads: bool)
    | Parts(parts: seq<Piece>, sep: Sep, indent: int, hanging: bool, size: int, spans: bool, leads: bool)

  // ---------------------------------------------------------------- what a piece stands for

  /** The text of a piece with no indentation at all. */
  ghost function Raw(p: Piece): string
    decreases p
  {
    match p
    case Leaf(text, _, _, _, _, _) => text
    case Parts(parts, sep, _, _, _, _, _) => RawSeq(parts, sep, true)
  }

  /** The parts joined; first says that nothing of the join stands before them. */
  ghost function RawSeq(parts: seq<Piece>, sep: Sep, first: bool): string
    decreases parts
  {
    if parts == [] then ""
    else LeadSep(sep, first) + (Raw(parts[0]) + RawSeq(parts[1..], sep, false))
  }

  /** The eager rendering: the parts joined, and then indented as one finished block. */
  ghost function Flat(p: Piece): string
    decreases p, 1
  {
    Lay(Inner(p), !p.hanging, p.indent)
  }

  ghost function Inner(p: Piece): string
    decreases p, 0
  {
    match p
    case Leaf(text, _, _, _, _, _) => text
    case Parts(parts, sep, _, _, _, _, _) => FlatSeq(parts, sep, true)
  }

  ghost function FlatSeq(parts: seq<Piece>, sep: Sep, first: bool): string
    decreases parts, 0
  {
    if parts == [] then ""
    else LeadSep(sep, first) + (Flat(parts[0]) + FlatSeq(parts[1..], sep, false))
  }

  /** The facts a piece carries are those of its text, all the way down. */
  ghost predicate Valid(p: Piece) {
    && p.indent >= 0
    && p.size == |Raw(p)|
    && p.spans == ('\n' in Raw(p))
    && p.leads == Leads(Raw(p))
    && (p.hanging ==> p.size > 0)
    && (p.Parts? ==> AllValid(p.parts))
  }

  ghost predicate AllValid(parts: seq<Piece>) {
    forall i :: 0 <= i < |parts| ==> Valid(parts[i])
  }

  // ---------------------------------------------------------------- shape of the eager text

  /** Both empty or neither, both open on a break or neither, both span one or neither, and both leave
      a writer alike. */
  ghost predicate SameShape(a: string, b: string) {
    && (a == "" <==> b == "")
    && ('\n' in a <==> '\n' in b)
    && Leads(a) == Leads(b)
    && After(a, true) == After(b, true)
    && After(a, false) == After(b, false)
  }

  lemma SameShapeConcat(a: string, b: string, a': string, b': string)
    requires SameShape(a, a') && SameShape(b, b')
    ensures SameShape(a + b, a' + b')
  {
    if a == "" { assert a + b == b && a' + b' == b'; }
    if b == "" { assert a + b == a && a' + b' == a'; }
  }

  /** Indentation never changes whether a piece is empty, opens on a break, or ends on one. */
  lemma {:induction false} FlatShape(p: Piece)
    ensures SameShape(Flat(p), Raw(p))
    decreases p, 1
  {
    if p.Parts? { FlatSeqShape(p.parts, p.sep, true, p); }
    LayShape(Inner(p), !p.hanging, p.indent);
  }

  lemma {:induction false} FlatSeqShape(parts: seq<Piece>, sep: Sep, first: bool, whole: Piece)
    requires forall i :: 0 <= i < |parts| ==> parts[i] < whole
    ensures SameShape(FlatSeq(parts, sep, first), RawSeq(parts, sep, first))
    decreases whole, 0, |parts|
  {
    if parts != [] {
      FlatShape(parts[0]);
      FlatSeqShape(parts[1..], sep, false, whole);
      SameShapeConcat(Flat(parts[0]), FlatSeq(parts[1..], sep, false), Raw(parts[0]), RawSeq(parts[1..], sep, false));
      var lead := LeadSep(sep, first);
      SameShapeConcat(lead, Flat(parts[0]) + FlatSeq(parts[1..], sep, false),
                      lead, Raw(parts[0]) + RawSeq(parts[1..], sep, false));
    }
  }

  // ---------------------------------------------------------------- the lazy rendering

  /** Where writeTo leaves a writer that p is written to with `indent` columns in force around it. */
  ghost function Written(p: Piece, w: Writer, indent: int): Writer
    decreases p
  {
    var w', k := if p.hanging then w.(atLineStart := false) else w, indent + p.indent;
    match p
    case Leaf(text, _, _, _, _, _) => Write(w', text, k)
    case Parts(parts, sep, _, _, _, _, _) => WrittenSeq(parts, sep, true, w', k)
  }

  ghost function WrittenSeq(parts: seq<Piece>, sep: Sep, first: bool, w: Writer, indent: int): Writer
    decreases parts
  {
    if parts == [] then w
    else
      WrittenSeq(parts[1..], sep, false, Written(parts[0], Write(w, LeadSep(sep, first), indent), indent), indent)
  }

  /** What a piece adds to a writer in any state and under any indentation has the shape of its text
      without indentation. */
  lemma {:induction false} Adds(p: Piece, w: Writer, k: int) returns (added: string)
    requires Valid(p)
    ensures Written(p, w, k) == Writer(w.out + added, After(Raw(p), w.atLineStart))
    ensures SameShape(added, Raw(p))
    decreases p, 1
  {
    var at := w.atLineStart && !p.hanging;
    if p.Parts? {
      added := AddsSeq(p.parts, p.sep, true, w.(atLineStart := at), k + p.indent, p);
    } else {
      added := Lay(p.text, at, k + p.indent);
      WriteIsLay(w.(atLineStart := at), p.text, k + p.indent);
      LayShape(p.text, at, k + p.indent);
    }
  }

  lemma {:induction false} AddsSeq(parts: seq<Piece>, sep: Sep, first: bool, w: Writer, k: int, whole: Piece)
    returns (added: string)
    requires forall i :: 0 <= i < |parts| ==> parts[i] < whole && Valid(parts[i])
    ensures WrittenSeq(parts, sep, first, w, k)
            == Writer(w.out + added, After(RawSeq(parts, sep, first), w.atLineStart))
    ensures SameShape(added, RawSeq(parts, sep, first))
    decreases whole, 0, |parts|
  {
    if parts == [] {
      added := "";
      assert w.out + "" == w.out;
    } else {
      var lead, raw, under := LeadSep(sep, first), Raw(parts[0]), RawSeq(parts[1..], sep, false);
      WriteIsLay(w, lead, k);
      LayShape(lead, w.atLineStart, k);
      var a := Lay(lead, w.atLineStart, k);
      var b := Adds(parts[0], Write(w, lead, k), k);
      var c := AddsSeq(parts[1..], sep, false, Written(parts[0], Write(w, lead, k), k), k, whole);
      added := a + (b + c);
      Assoc(w.out, a, b);
      Assoc(w.out, a + b, c);
      Assoc(a, b, c);
      AfterConcat(raw, under, After(lead, w.atLineStart));
      AfterConcat(lead, raw + under, w.atLineStart);
      SameShapeConcat(b, c, raw, under);
      SameShapeConcat(a, b + c, lead, raw + under);
    }
  }

  /** A piece that writes nothing leaves a writer as it was. */
  lemma EmptyWrites(p: Piece, w: Writer, k: int)
    requires Valid(p) && p.size == 0
    ensures Written(p, w, k) == w
  {
    var added := Adds(p, w, k);
    assert w.out + "" == w.out;
  }

  const FRESH_WRITER := Writer("", false)

  /** The facts a piece carries are those of the text it is written as, and of its eager text. */
  lemma FactsHold(p: Piece)
    requires Valid(p)
    ensures var text := Written(p, FRESH_WRITER, 0).out;
            p.spans == ('\n' in text) && p.leads == Leads(text) && (p.size == 0 <==> text == "")
    ensures p.spans == ('\n' in Flat(p)) && p.leads == Leads(Flat(p)) && (p.size == 0 <==> Flat(p) == "")
  {
    var added := Adds(p, FRESH_WRITER, 0);
    assert "" + added == added;
    FlatShape(p);
  }

  // ---------------------------------------------------------------- the constructors

  function MakeLeaf(text: string): (p: Piece)
    ensures Valid(p) && Raw(p) == text && Flat(p) == text
  {
    LayNothing(text, true, 0);
    Leaf(text, 0, false, |text|, '\n' in text, Leads(text))
  }

  function Shifted(p: Piece, spaces: int, hanging: bool): (r: Piece)
    requires Valid(p)
    ensures Valid(r) && Raw(r) == Raw(p)
    ensures Flat(r) == Lay(Flat(p), !hanging, spaces)
  {
    if spaces <= 0 || p.size == 0 then
      FlatShape(p);
      if spaces <= 0 then LayNothing(Flat(p), !hanging, spaces); p else p
    else
      JustOne(p);
      Parts([p], SepNone, spaces, hanging, p.size, p.spans, p.leads)
  }

  lemma JustOne(p: Piece)
    ensures RawSeq([p], SepNone, true) == Raw(p) && FlatSeq([p], SepNone, true) == Flat(p)
  {
    assert [p][1..] == [];
  }

  /** Every line one level deeper, the first included: Flat(r) is what indentLines makes of Flat(p). */
  function IndentedBy(p: Piece, spaces: int): (r: Piece)
    requires Valid(p)
    ensures Valid(r) && Raw(r) == Raw(p)
    ensures Flat(r) == Lay(Flat(p), true, spaces)
  {
    Shifted(p, spaces, false)
  }

  /** Every line but the first, which a marker holds: what hangingIndent makes of Flat(p). */
  function HangingBy(p: Piece, spaces: int): (r: Piece)
    requires Valid(p)
    ensures Valid(r) && Raw(r) == Raw(p)
    ensures Flat(r) == Lay(Flat(p), false, spaces)
  {
    Shifted(p, spaces, true)
  }

  /** The parts that write something, in order. */
  ghost function NonEmpty(parts: seq<Piece>): seq<Piece> {
    if parts == [] then []
    else (if parts[0].size > 0 then [parts[0]] else []) + NonEmpty(parts[1..])
  }

  lemma {:induction false} NonEmptySnoc(parts: seq<Piece>, last: Piece)
    ensures NonEmpty(parts + [last]) == NonEmpty(parts) + if last.size > 0 then [last] else []
  {
    if parts != [] {
      NonEmptySnoc(parts[1..], last);
      assert (parts + [last])[1..] == parts[1..] + [last];
    } else {
      assert [last][1..] == [];
      assert parts + [last] == [last];
    }
  }

  method WithoutEmpty(parts: seq<Piece>) returns (out: seq<Piece>)
    ensures out == NonEmpty(parts)
  {
    out := [];
    var i, n := 0, |parts|;
    while i < n
      invariant 0 <= i <= n && out == NonEmpty(parts[..i])
    {
      NonEmptySnoc(parts[..i], parts[i]);
      assert parts[..i + 1] == parts[..i] + [parts[i]];
      if parts[i].size > 0 {
        out := out + [parts[i]];
      }
      i := i + 1;
    }
    assert parts[..n] == parts;
  }

  /** One part in front of others, with nothing between them. */
  lemma ConsNone(p: Piece, rest: seq<Piece>, first: bool)
    ensures RawSeq([p] + rest, SepNone, first) == Raw(p) + RawSeq(rest, SepNone, false)
    ensures FlatSeq([p] + rest, SepNone, first) == Flat(p) + FlatSeq(rest, SepNone, false)
  {
    assert ([p] + rest)[1..] == rest;
  }

  lemma FirstNone(parts: seq<Piece>, first: bool)
    ensures RawSeq(parts, SepNone, first) == RawSeq(parts, SepNone, false)
    ensures FlatSeq(parts, SepNone, first) == FlatSeq(parts, SepNone, false)
  {
  }

  /** With nothing between the parts, one that writes nothing changes nothing. */
  lemma {:induction false} NonEmptySame(parts: seq<Piece>, first: bool)
    requires AllValid(parts)
    ensures AllValid(NonEmpty(parts))
    ensures RawSeq(NonEmpty(parts), SepNone, first) == RawSeq(parts, SepNone, first)
    ensures FlatSeq(NonEmpty(parts), SepNone, first) == FlatSeq(parts, SepNone, first)
  {
    if parts != [] {
      var p, rest := parts[0], NonEmpty(parts[1..]);
      NonEmptySame(parts[1..], false);
      assert [p] + parts[1..] == parts;
      ConsNone(p, parts[1..], first);
      FlatShape(p);
      if p.size > 0 {
        ConsNone(p, rest, first);
      } else {
        assert NonEmpty(parts) == rest;
        FirstNone(rest, first);
      }
    }
  }

  /** Nor does it change what is written. */
  lemma {:induction false} NonEmptyWritten(parts: seq<Piece>, first: bool, w: Writer, k: int)
    requires AllValid(parts)
    ensures WrittenSeq(NonEmpty(parts), SepNone, first, w, k) == WrittenSeq(parts, SepNone, first, w, k)
  {
    if parts != [] {
      var p, rest := parts[0], NonEmpty(parts[1..]);
      assert Valid(p);
      NonEmptyWritten(parts[1..], false, Written(p, w, k), k);
      if p.size > 0 {
        assert ([p] + rest)[1..] == rest;
        assert NonEmpty(parts)[0] == p;
      } else {
        EmptyWrites(p, w, k);
        assert NonEmpty(parts) == rest;
        FirstUnseen(rest, first, w, k);
      }
    }
  }

  lemma FirstUnseen(parts: seq<Piece>, first: bool, w: Writer, k: int)
    ensures WrittenSeq(parts, SepNone, first, w, k) == WrittenSeq(parts, SepNone, false, w, k)
  {
  }

  /** What join's loop has gathered from a stretch of the text: its length, whether it spans a break,
      whether it opens on one. */
  ghost predicate Gathered(text: string, size: int, spans: bool, leads: bool, leadSet: bool) {
    && size == |text|
    && spans == ('\n' in text)
    && leadSet == (text != "")
    && leads == Leads(text)
  }

  /** The three facts of a text with a separator and a part put after it. */
  lemma GatherText(text: string, lead: string, part: string)
    ensures var all := text + (lead + part);
            && |all| == |text| + |lead| + |part|
            && ('\n' in all <==> '\n' in text || '\n' in lead || '\n' in part)
            && Leads(all) == if text != "" then Leads(text) else if lead != "" then Leads(lead) else Leads(part)
  {
    var all := text + (lead + part);
    if text == "" { assert all == lead + part; }
    if text == "" && lead == "" { assert all == part; }
  }

  ghost function Prefix(parts: seq<Piece>, i: nat, sep: Sep): string
    requires i <= |parts|
  {
    if i == 0 then ""
    else Prefix(parts, i - 1, sep) + (LeadSep(sep, i == 1) + Raw(parts[i - 1]))
  }

  lemma {:induction false} PrefixRest(parts: seq<Piece>, i: nat, sep: Sep)
    requires i <= |parts|
    ensures Prefix(parts, i, sep) + RawSeq(parts[i..], sep, i == 0) == RawSeq(parts, sep, true)
  {
    if i == 0 {
      assert parts[0..] == parts;
    } else {
      PrefixRest(parts, i - 1, sep);
      assert parts[i - 1..][1..] == parts[i..];
      var lead, raw, under := LeadSep(sep, i == 1), Raw(parts[i - 1]), RawSeq(parts[i..], sep, false);
      assert RawSeq(parts[i - 1..], sep, i == 1) == lead + (raw + under);
      Assoc(lead, raw, under);
      Assoc(Prefix(parts, i - 1, sep), lead + raw, under);
    }
  }

  /** join's loop: the facts of the join, from those of the parts. */
  method Gather(parts: seq<Piece>, sep: Sep) returns (size: int, spans: bool, leads: bool)
    requires AllValid(parts)
    ensures size == |RawSeq(parts, sep, true)|
    ensures spans == ('\n' in RawSeq(parts, sep, true))
    ensures leads == Leads(RawSeq(parts, sep, true))
  {
    size, spans, leads := 0, false, false;
    var leadSet := false;
    var isBreak := sep == SepBreak;
    for i := 0 to |parts|
      invariant Gathered(Prefix(parts, i, sep), size, spans, leads, leadSet)
    {
      var part := parts[i];
      assert Valid(part);
      GatherText(Prefix(parts, i, sep), LeadSep(sep, i == 0), Raw(part));
      if i > 0 {
        size := size + |SepText(sep)|;
        spans := spans || isBreak;
        if !leadSet && sep != SepNone {
          leads, leadSet := isBreak, true;
        }
      }
      if !leadSet && part.size > 0 {
        leads, leadSet := part.leads, true;
      }
      spans := spans || part.spans;
      size := size + part.size;
    }
    PrefixRest(parts, |parts|, sep);
    assert Prefix(parts, |parts|, sep) + "" == Prefix(parts, |parts|, sep);
  }

  /** Where nothing separates the parts, those that write nothing are left out. */
  method Dropped(sep: Sep, given: seq<Piece>) returns (parts: seq<Piece>)
    requires AllValid(given)
    ensures AllValid(parts)
    ensures RawSeq(parts, sep, true) == RawSeq(given, sep, true)
    ensures FlatSeq(parts, sep, true) == FlatSeq(given, sep, true)
    ensures forall w: Writer, k: nat :: WrittenSeq(parts, sep, true, w, k) == WrittenSeq(given, sep, true, w, k)
  {
    if sep != SepNone {
      return given;
    }
    parts := WithoutEmpty(given);
    NonEmptySame(given, true);
    forall w: Writer, k: nat ensures WrittenSeq(parts, sep, true, w, k) == WrittenSeq(given, sep, true, w, k) {
      NonEmptyWritten(given, true, w, k);
    }
  }

  /** A join with no indentation of its own stands for its parts. */
  lemma JoinStands(p: Piece)
    requires p.Parts? && p.indent == 0 && !p.hanging
    ensures Raw(p) == RawSeq(p.parts, p.sep, true) && Flat(p) == FlatSeq(p.parts, p.sep, true)
    ensures forall w: Writer, k: nat :: Written(p, w, k) == WrittenSeq(p.parts, p.sep, true, w, k)
  {
    LayNothing(FlatSeq(p.parts, p.sep, true), true, 0);
    forall w: Writer, k: nat ensures Written(p, w, k) == WrittenSeq(p.parts, p.sep, true, w, k) {
      assert w.(atLineStart := w.atLineStart) == w;
    }
  }

  /** strings.Join(texts, sep). */
  function JoinWith(texts: seq<string>, sep: string): string {
    if texts == [] then "" else if |texts| == 1 then texts[0] else texts[0] + sep + JoinWith(texts[1..], sep)
  }

  ghost function RawTexts(parts: seq<Piece>): seq<string> {
    seq(|parts|, i requires 0 <= i < |parts| => Raw(parts[i]))
  }

  ghost function FlatTexts(parts: seq<Piece>): seq<string> {
    seq(|parts|, i requires 0 <= i < |parts| => Flat(parts[i]))
  }

  /** A piece's text is that of the parts joined. */
  ghost predicate JoinOf(p: Piece, parts: seq<Piece>, glue: string) {
    Raw(p) == JoinWith(RawTexts(parts), glue) && Flat(p) == JoinWith(FlatTexts(parts), glue)
  }

  /** A separator, and the rest of a join behind it. */
  lemma {:induction false} RestIsJoin(parts: seq<Piece>, sep: Sep, glue: string)
    requires parts != [] && glue == SepText(sep)
    ensures RawSeq(parts, sep, false) == glue + JoinWith(RawTexts(parts), glue)
    ensures FlatSeq(parts, sep, false) == glue + JoinWith(FlatTexts(parts), glue)
  {
    assert RawTexts(parts)[1..] == RawTexts(parts[1..]) && FlatTexts(parts)[1..] == FlatTexts(parts[1..]);
    if |parts| == 1 {
      assert Raw(parts[0]) + "" == Raw(parts[0]) && Flat(parts[0]) + "" == Flat(parts[0]);
    } else {
      RestIsJoin(parts[1..], sep, glue);
      Assoc(Raw(parts[0]), glue, JoinWith(RawTexts(parts[1..]), glue));
      Assoc(Flat(parts[0]), glue, JoinWith(FlatTexts(parts[1..]), glue));
    }
  }

  /** The parts in turn are the parts' texts joined, by a line break, a blank or nothing. */
  lemma SeqIsJoin(parts: seq<Piece>, sep: Sep)
    ensures var glue := if sep == SepBreak then "\n" else if sep == SepSpace then " " else "";
            && RawSeq(parts, sep, true) == JoinWith(RawTexts(parts), glue)
            && FlatSeq(parts, sep, true) == JoinWith(FlatTexts(parts), glue)
  {
    if parts != [] {
      var glue := SepText(sep);
      RestIsJoin(parts, sep, glue);
      assert RawSeq(parts, sep, false) == glue + RawSeq(parts, sep, true) by { SeqBehind(parts, sep); }
      assert FlatSeq(parts, sep, false) == glue + FlatSeq(parts, sep, true) by { SeqBehind(parts, sep); }
      SameBehind(glue, RawSeq(parts, sep, true), JoinWith(RawTexts(parts), glue));
      SameBehind(glue, FlatSeq(parts, sep, true), JoinWith(FlatTexts(parts), glue));
    }
  }

  lemma SeqBehind(parts: seq<Piece>, sep: Sep)
    requires parts != []
    ensures RawSeq(parts, sep, false) == SepText(sep) + RawSeq(parts, sep, true)
    ensures FlatSeq(parts, sep, false) == SepText(sep) + FlatSeq(parts, sep, true)
  {
    var raw, flat := Raw(parts[0]) + RawSeq(parts[1..], sep, false), Flat(parts[0]) + FlatSeq(parts[1..], sep, false);
    assert "" + raw == raw && "" + flat == flat;
  }

  lemma SameBehind(head: string, a: string, b: string)
    requires head + a == head + b
    ensures a == b
  {
    assert a == (head + a)[|head|..] && b == (head + b)[|head|..];
  }

  /** join: whatever it drops or caches, the piece it makes stands for the parts joined, carries the
      facts of the text it is written as, and is written as the parts are. */
  method JoinPieces(sep: Sep, given: seq<Piece>) returns (out: Piece)
    requires AllValid(given)
    ensures out.Parts? && out.indent == 0 && !out.hanging
    ensures Valid(out)
    ensures Raw(out) == RawSeq(given, sep, true)
    ensures Flat(out) == FlatSeq(given, sep, true)
    ensures sep == SepBreak ==> JoinOf(out, given, "\n")
    ensures sep == SepSpace ==> JoinOf(out, given, " ")
    ensures sep == SepNone ==> JoinOf(out, given, "")
    ensures out.spans == ('\n' in Written(out, FRESH_WRITER, 0).out)
    ensures out.leads == Leads(Written(out, FRESH_WRITER, 0).out)
    ensures forall w: Writer, k: nat :: Written(out, w, k) == WrittenSeq(given, sep, true, w, k)
  {
    var parts := Dropped(sep, given);
    var size, spans, leads := Gather(parts, sep);
    out := Parts(parts, sep, 0, false, size, spans, leads);
    JoinStands(out);
    FactsHold(out);
    SeqIsJoin(given, sep);
  }

  // ---------------------------------------------------------------- lazy against eager

  /** The layout a rope must have for the number on a piece to mean what the eager form means: a
      piece shifted whole begins a line, or opens on a break; a hanging piece does not begin one,
      unless nothing around it is shifted or it opens on a break. */
  ghost predicate Fits(p: Piece, atStart: bool, indent: int)
    decreases p
  {
    && (p.indent > 0 && !p.hanging && p.size > 0 ==> atStart || p.leads)
    && (p.hanging && atStart && indent > 0 ==> p.leads)
    && (p.Parts? ==> FitsSeq(p.parts, p.sep, true, atStart && !p.hanging, indent + p.indent))
  }

  ghost predicate FitsSeq(parts: seq<Piece>, sep: Sep, first: bool, atStart: bool, indent: int)
    decreases parts
  {
    parts == [] ||
    var at := After(LeadSep(sep, first), atStart);
    Fits(parts[0], at, indent) && FitsSeq(parts[1..], sep, false, After(Raw(parts[0]), at), indent)
  }

  /** What one writer has written against another: never more; less where it began with less or the
      rope does not fit; the very same where they began as one and it does. */
  ghost predicate Keeps(lazy: Writer, eager: Writer, lazy': Writer, eager': Writer, fits: bool) {
    && lazy'.atLineStart == eager'.atLineStart
    && |lazy'.out| <= |eager'.out|
    && (|lazy.out| < |eager.out| || !fits ==> |lazy'.out| < |eager'.out|)
    && (lazy == eager && fits ==> lazy' == eager')
  }

  /** Lazy against eager, from writers in one state and under any indentation. */
  lemma {:induction false} LazyAgainstEager(p: Piece, lazy: Writer, eager: Writer, indent: int)
    requires Valid(p) && indent >= 0
    requires lazy.atLineStart == eager.atLineStart && |lazy.out| <= |eager.out|
    ensures Keeps(lazy, eager, Written(p, lazy, indent), Write(eager, Flat(p), indent),
                  Fits(p, lazy.atLineStart, indent))
    ensures Written(p, lazy, indent).atLineStart == After(Raw(p), lazy.atLineStart)
    decreases p, 1
  {
    var at, k := lazy.atLineStart && !p.hanging, indent + p.indent;
    var lazy', eager' := lazy.(atLineStart := at), eager.(atLineStart := at);
    var fits := p.Parts? ==> FitsSeq(p.parts, p.sep, true, at, k);
    if p.Parts? {
      LazySeqAgainstEager(p.parts, p.sep, true, lazy', eager', k, p);
    } else {
      LeafAgainstEager(p, lazy', eager', k);
    }
    InnerShape(p);
    LevelKeeps(Inner(p), !p.hanging, p.indent, indent, lazy, eager, Written(p, lazy, indent), fits);
    FitsLevel(p, lazy.atLineStart, indent, fits);
  }

  /** A leaf's text, written by both. */
  lemma LeafAgainstEager(p: Piece, lazy: Writer, eager: Writer, k: int)
    requires Valid(p) && p.Leaf? && lazy.atLineStart == eager.atLineStart && |lazy.out| <= |eager.out|
    ensures Keeps(lazy, eager, Write(lazy, p.text, k), Write(eager, p.text, k), true)
    ensures Write(lazy, p.text, k).atLineStart == After(p.text, lazy.atLineStart)
  {
    WriteIsLay(lazy, p.text, k);
    WriteIsLay(eager, p.text, k);
  }

  /** A piece fits where what it holds does and its own level does. */
  lemma FitsLevel(p: Piece, atStart: bool, indent: nat, inner: bool)
    requires Valid(p) && Leads(Inner(p)) == p.leads && (Inner(p) == "" <==> p.size == 0)
    requires inner == (p.Parts? ==> FitsSeq(p.parts, p.sep, true, atStart && !p.hanging, indent + p.indent))
    ensures Fits(p, atStart, indent) == (inner && LevelFits(Inner(p), !p.hanging, p.indent, atStart, indent))
  {
  }

  /** One level of a rope: what holds of its text under the indentation inside it holds of its text
      indented, under the indentation around it. */
  lemma LevelKeeps(text: string, whole: bool, n: nat, k: nat, lazy: Writer, eager: Writer, done: Writer, fits: bool)
    requires lazy.atLineStart == eager.atLineStart && |lazy.out| <= |eager.out|
    requires text == "" ==> whole
    requires var at := lazy.atLineStart && whole;
             Keeps(lazy.(atLineStart := at), eager.(atLineStart := at), done,
                   Write(eager.(atLineStart := at), text, k + n), fits)
    ensures Keeps(lazy, eager, done, Write(eager, Lay(text, whole, n), k),
                  fits && LevelFits(text, whole, n, lazy.atLineStart, k))
  {
    var eager' := eager.(atLineStart := lazy.atLineStart && whole);
    WriteIsLay(eager', text, k + n);
    WriteIsLay(eager, Lay(text, whole, n), k);
    LayShape(text, whole, n);
    LevelAgainstEager(text, whole, n, lazy.atLineStart, k);
  }

  lemma {:induction false} LazySeqAgainstEager(parts: seq<Piece>, sep: Sep, first: bool,
                                               lazy: Writer, eager: Writer, indent: int, whole: Piece)
    requires indent >= 0
    requires forall i :: 0 <= i < |parts| ==> parts[i] < whole && Valid(parts[i])
    requires lazy.atLineStart == eager.atLineStart && |lazy.out| <= |eager.out|
    ensures Keeps(lazy, eager, WrittenSeq(parts, sep, first, lazy, indent),
                  Write(eager, FlatSeq(parts, sep, first), indent),
                  FitsSeq(parts, sep, first, lazy.atLineStart, indent))
    ensures WrittenSeq(parts, sep, first, lazy, indent).atLineStart
            == After(RawSeq(parts, sep, first), lazy.atLineStart)
    decreases whole, 0, |parts|
  {
    if parts != [] {
      var lead, text, rest := LeadSep(sep, first), Flat(parts[0]), FlatSeq(parts[1..], sep, false);
      WriteConcat(eager, lead, text + rest, indent);
      WriteConcat(Write(eager, lead, indent), text, rest, indent);
      WriteIsLay(lazy, lead, indent);
      WriteIsLay(eager, lead, indent);
      var lazy1, eager1 := Write(lazy, lead, indent), Write(eager, lead, indent);
      LazyAgainstEager(parts[0], lazy1, eager1, indent);
      LazySeqAgainstEager(parts[1..], sep, false, Written(parts[0], lazy1, indent), Write(eager1, text, indent),
                          indent, whole);
      AfterConcat(lead, Raw(parts[0]) + RawSeq(parts[1..], sep, false), lazy.atLineStart);
      AfterConcat(Raw(parts[0]), RawSeq(parts[1..], sep, false), lazy1.atLineStart);
    }
  }

  lemma InnerShape(p: Piece)
    requires Valid(p)
    ensures Leads(Inner(p)) == p.leads
    ensures Inner(p) == "" <==> p.size == 0
  {
    if p.Parts? { FlatSeqShape(p.parts, p.sep, true, p); }
  }

  ghost predicate LevelFits(text: string, whole: bool, n: nat, atStart: bool, k: nat) {
    text == "" || text[0] == '\n' || (if whole then atStart || n == 0 else !atStart || k == 0)
  }

  /** One level: text laid out once under n and k together, against text indented by n on its own and
      then laid out under k. */
  lemma LevelAgainstEager(text: string, whole: bool, n: nat, atStart: bool, k: nat)
    ensures LevelFits(text, whole, n, atStart, k) ==>
              Lay(text, atStart && whole, k + n) == Lay(Lay(text, whole, n), atStart, k)
    ensures !LevelFits(text, whole, n, atStart, k) ==>
              |Lay(text, atStart && whole, k + n)| < |Lay(Lay(text, whole, n), atStart, k)|
  {
    LayTwice(text, whole, n, k);
    if text == "" || text[0] == '\n' {
      LayLeading(text, k + n);
      LayShape(text, whole, n);
      LayLeading(Lay(text, whole, n), k);
    } else if whole != atStart {
      LayMixed(text, n, k);
    }
  }

  /** The deferred form writes the text the eager form builds if and only if the rope fits. */
  lemma LazyIsEager(p: Piece)
    requires Valid(p)
    ensures Written(p, FRESH_WRITER, 0).out == Flat(p) <==> Fits(p, false, 0)
  {
    LazyAgainstEager(p, FRESH_WRITER, FRESH_WRITER, 0);
    WriteIsLay(FRESH_WRITER, Flat(p), 0);
    LayNothing(Flat(p), false, 0);
  }

  // ---------------------------------------------------------------- what a rope that does not fit writes

  /** The rope with every piece shifted whole from inside a line made hanging. */
  ghost function Hung(p: Piece, atStart: bool): Piece
    decreases p
  {
    var hangs := p.hanging || (p.indent > 0 && p.size > 0 && !atStart && !p.leads);
    match p
    case Leaf(_, _, _, _, _, _) => p.(hanging := hangs)
    case Parts(parts, sep, _, _, _, _, _) =>
      p.(hanging := hangs, parts := HungSeq(parts, sep, true, atStart && !hangs))
  }

  ghost function HungSeq(parts: seq<Piece>, sep: Sep, first: bool, atStart: bool): (r: seq<Piece>)
    ensures |r| == |parts|
    decreases parts
  {
    if parts == [] then []
    else
      var at := After(LeadSep(sep, first), atStart);
      [Hung(parts[0], at)] + HungSeq(parts[1..], sep, false, After(Raw(parts[0]), at))
  }

  /** No hanging piece begins a line under indentation, unless it opens on a break. */
  ghost predicate HangsInLine(p: Piece, atStart: bool, indent: int)
    decreases p
  {
    && (p.hanging && atStart && indent > 0 ==> p.leads)
    && (p.Parts? ==> HangsInLineSeq(p.parts, p.sep, true, atStart && !p.hanging, indent + p.indent))
  }

  ghost predicate HangsInLineSeq(parts: seq<Piece>, sep: Sep, first: bool, atStart: bool, indent: int)
    decreases parts
  {
    parts == [] ||
    var at := After(LeadSep(sep, first), atStart);
    HangsInLine(parts[0], at, indent) && HangsInLineSeq(parts[1..], sep, false, After(Raw(parts[0]), at), indent)
  }

  /** It is the same text, and carries the same facts. */
  lemma {:induction false} HungValid(p: Piece, atStart: bool)
    requires Valid(p)
    ensures Valid(Hung(p, atStart)) && Raw(Hung(p, atStart)) == Raw(p)
    decreases p, 1
  {
    if p.Parts? {
      var hangs := p.hanging || (p.indent > 0 && p.size > 0 && !atStart && !p.leads);
      HungSeqValid(p.parts, p.sep, true, atStart && !hangs, p);
    }
  }

  lemma {:induction false} HungSeqValid(parts: seq<Piece>, sep: Sep, first: bool, atStart: bool, whole: Piece)
    requires forall i :: 0 <= i < |parts| ==> parts[i] < whole && Valid(parts[i])
    ensures AllValid(HungSeq(parts, sep, first, atStart))
    ensures RawSeq(HungSeq(parts, sep, first, atStart), sep, first) == RawSeq(parts, sep, first)
    decreases whole, 0, |parts|
  {
    if parts != [] {
      var at := After(LeadSep(sep, first), atStart);
      HungValid(parts[0], at);
      HungSeqValid(parts[1..], sep, false, After(Raw(parts[0]), at), whole);
      var rest := HungSeq(parts[1..], sep, false, After(Raw(parts[0]), at));
      assert ([Hung(parts[0], at)] + rest)[1..] == rest;
    }
  }

  /** It is written the same. */
  lemma {:induction false} HungWritten(p: Piece, w: Writer, k: int)
    requires Valid(p)
    ensures Written(Hung(p, w.atLineStart), w, k) == Written(p, w, k)
    decreases p, 1
  {
    if p.Parts? {
      HungSeqWritten(p.parts, p.sep, true, w.(atLineStart := w.atLineStart && !p.hanging), k + p.indent, p);
    }
  }

  lemma {:induction false} HungSeqWritten(parts: seq<Piece>, sep: Sep, first: bool, w: Writer, k: int, whole: Piece)
    requires forall i :: 0 <= i < |parts| ==> parts[i] < whole && Valid(parts[i])
    ensures WrittenSeq(HungSeq(parts, sep, first, w.atLineStart), sep, first, w, k)
            == WrittenSeq(parts, sep, first, w, k)
    decreases whole, 0, |parts|
  {
    if parts != [] {
      var w' := Write(w, LeadSep(sep, first), k);
      WriteIsLay(w, LeadSep(sep, first), k);
      HungWritten(parts[0], w', k);
      var added := Adds(parts[0], w', k);
      HungSeqWritten(parts[1..], sep, false, Written(parts[0], w', k), k, whole);
      var rest := HungSeq(parts[1..], sep, false, After(Raw(parts[0]), w'.atLineStart));
      assert ([Hung(parts[0], w'.atLineStart)] + rest)[1..] == rest;
    }
  }

  /** It fits, but for hanging pieces that begin a line. */
  lemma {:induction false} HungFits(p: Piece, atStart: bool, indent: int)
    requires Valid(p)
    ensures Fits(Hung(p, atStart), atStart, indent) <==> HangsInLine(p, atStart, indent)
    decreases p, 1
  {
    if p.Parts? {
      HungSeqFits(p.parts, p.sep, true, atStart && !p.hanging, indent + p.indent, p);
    }
  }

  lemma {:induction false} HungSeqFits(parts: seq<Piece>, sep: Sep, first: bool, atStart: bool, indent: int,
                                       whole: Piece)
    requires forall i :: 0 <= i < |parts| ==> parts[i] < whole && Valid(parts[i])
    ensures FitsSeq(HungSeq(parts, sep, first, atStart), sep, first, atStart, indent)
            <==> HangsInLineSeq(parts, sep, first, atStart, indent)
    decreases whole, 0, |parts|
  {
    if parts != [] {
      var at := After(LeadSep(sep, first), atStart);
      HungFits(parts[0], at, indent);
      HungValid(parts[0], at);
      HungSeqFits(parts[1..], sep, false, After(Raw(parts[0]), at), indent, whole);
      var rest := HungSeq(parts[1..], sep, false, After(Raw(parts[0]), at));
      assert ([Hung(parts[0], at)] + rest)[1..] == rest;
    }
  }

  /** What any rope is written as: the eager text of the rope with its shifted pieces hanging where
      they stand inside a line, if and only if no hanging piece begins an indented line. */
  lemma WrittenAsHung(p: Piece, w: Writer, k: nat)
    requires Valid(p)
    ensures Written(p, w, k) == Write(w, Flat(Hung(p, w.atLineStart)), k) <==> HangsInLine(p, w.atLineStart, k)
  {
    var hung := Hung(p, w.atLineStart);
    HungValid(p, w.atLineStart);
    HungWritten(p, w, k);
    HungFits(p, w.atLineStart, k);
    LazyAgainstEager(hung, w, w, k);
  }

  /** One piece, and two with nothing between them. */
  lemma OnePart(a: Piece, first: bool, w: Writer, k: int)
    ensures RawSeq([a], SepNone, first) == Raw(a) && FlatSeq([a], SepNone, first) == Flat(a)
    ensures WrittenSeq([a], SepNone, first, w, k) == Written(a, w, k)
  {
    assert [a][1..] == [];
    assert "" + (Raw(a) + "") == Raw(a) && "" + (Flat(a) + "") == Flat(a);
  }

  lemma TwoParts(a: Piece, b: Piece, w: Writer, k: int)
    ensures RawSeq([a, b], SepNone, true) == Raw(a) + Raw(b)
    ensures FlatSeq([a, b], SepNone, true) == Flat(a) + Flat(b)
    ensures WrittenSeq([a, b], SepNone, true, w, k) == Written(b, Written(a, w, k), k)
  {
    OnePart(b, false, Written(a, w, k), k);
    assert [a, b][1..] == [b];
    assert "" + (Raw(a) + Raw(b)) == Raw(a) + Raw(b);
    assert "" + (Flat(a) + Flat(b)) == Flat(a) + Flat(b);
  }

  lemma OneFits(a: Piece, first: bool, atStart: bool, k: int)
    ensures FitsSeq([a], SepNone, first, atStart, k) <==> Fits(a, atStart, k)
    ensures HangsInLineSeq([a], SepNone, first, atStart, k) <==> HangsInLine(a, atStart, k)
  {
    assert [a][1..] == [];
  }

  lemma TwoFits(a: Piece, b: Piece, at: bool, k: int)
    requires at == After(Raw(a), false)
    ensures FitsSeq([a, b], SepNone, true, false, k) <==> Fits(a, false, k) && Fits(b, at, k)
    ensures HangsInLineSeq([a, b], SepNone, true, false, k) <==> HangsInLine(a, false, k) && HangsInLine(b, at, k)
  {
    OneFits(b, false, at, k);
    assert [a, b][1..] == [b];
  }

  /** A text shifted whole, as a join of its own, from inside a line. */
  lemma EntryInLine(text: string, n: nat, w: Writer) returns (entry: Piece)
    requires text != "" && '\n' !in text && n > 0 && !w.atLineStart
    ensures Valid(entry) && !entry.leads && entry.size == |text| && !entry.spans && Raw(entry) == text
    ensures Flat(entry) == Spaces(n) + text
    ensures Written(entry, w, 0) == Writer(w.out + text, false)
    ensures !Fits(entry, false, 0) && HangsInLine(entry, false, 0)
  {
    var value := MakeLeaf(text);
    var shifted := IndentedBy(value, n);
    entry := Parts([shifted], SepNone, 0, false, |text|, false, false);
    OnePart(shifted, true, w, 0);
    OnePart(value, true, w, n);
    OneFits(shifted, true, false, 0);
    OneFits(value, true, false, n);
    LayNoBreak(text, true, n);
    LayNothing(Spaces(n) + text, true, 0);
    WriteLine(w, text, n);
  }

  /** A rope the renderer writes that does not fit. A sequence entry with a blank line above it is
      shifted whole behind a break, the break is cut off it, and what is left is written after "- ".
      The eager form would indent the marker's line; what is written is the entry hanging there. */
  lemma EntryUnderBlank(text: string, n: nat) returns (line: Piece)
    requires text != "" && '\n' !in text && n > 0
    ensures Valid(line) && !Fits(line, false, 0)
    ensures Flat(line) == "\n- " + (Spaces(n) + text)
    ensures Written(line, FRESH_WRITER, 0).out == "\n- " + text
    ensures HangsInLine(line, false, 0)
  {
    var w := Writer("\n- ", false);
    var marker := MakeLeaf("\n- ");
    var entry := EntryInLine(text, n, w);
    line := Parts([marker, entry], SepNone, 0, false, 3 + |text|, true, true);
    TwoParts(marker, entry, FRESH_WRITER, 0);
    TwoFits(marker, entry, false, 0);
    MarkerWritten();
    LayNothing("\n- " + (Spaces(n) + text), true, 0);
  }

  lemma MarkerWritten()
    ensures Written(MakeLeaf("\n- "), FRESH_WRITER, 0) == Writer("\n- ", false)
    ensures After("\n- ", false) == false
  {
    WriteIsLay(FRESH_WRITER, "\n- ", 0);
    LayNothing("\n- ", false, 0);
  }

  // ---------------------------------------------------------------- the writer

  /** lineWriter: text out with an indentation put in at the first character of a line that has
      content. */
  class LineWriter {
    var out: string
    var atLineStart: bool

    ghost function State(): Writer
      reads this
    {
      Writer(out, atLineStart)
    }

    constructor ()
      ensures State() == FRESH_WRITER
    {
      out, atLineStart := "", false;
    }

    /** pad: the indentation a line opens with, once. */
    method Pad(indent: int)
      modifies this
      ensures out == if old(atLineStart) then old(out) + Spaces(indent) else old(out)
      ensures !atLineStart
    {
      if !atLineStart || indent <= 0 {
        atLineStart := false;
        return;
      }
      atLineStart := false;
      out := out + Spaces(indent);
    }

    /** writeString cuts s at its breaks; what comes out is s written character by character. */
    method WriteString(s: string, indent: int)
      modifies this
      ensures State() == Write(old(State()), s, indent)
    {
      var rest := s;
      while rest != ""
        invariant Write(State(), rest, indent) == Write(old(State()), s, indent)
        decreases |rest|
      {
        var cut := BreakAt(rest);
        assert rest == rest[..cut] + rest[cut..];
        WriteConcat(State(), rest[..cut], rest[cut..], indent);
        if cut > 0 {
          WriteLine(State(), rest[..cut], indent);
        }
        if cut == |rest| {
          Pad(indent);
          out := out + rest;
          return;
        }
        if cut > 0 {
          Pad(indent);
          out := out + rest[..cut];
        }
        out := out + "\n";
        atLineStart := true;
        assert rest[cut..][1..] == rest[cut + 1..];
        rest := rest[cut + 1..];
      }
    }
  }

  /** writeTo: the walk that writes a piece and everything in it. */
  method WriteTo(p: Piece, w: LineWriter, indent: int)
    modifies w
    ensures w.State() == Written(p, old(w.State()), indent)
    decreases p
  {
    var k := indent + p.indent;
    if p.hanging {
      w.atLineStart := false;
    }
    match p
    case Leaf(text, _, _, _, _, _) =>
      w.WriteString(text, k);
    case Parts(parts, sep, _, _, _, _, _) =>
      for i := 0 to |parts|
        invariant WrittenSeq(parts[i..], sep, i == 0, w.State(), k) == Written(p, old(w.State()), indent)
      {
        assert parts[i..][1..] == parts[i + 1..];
        if i > 0 {
          w.WriteString(SepText(sep), k);
        }
        WriteTo(parts[i], w, k);
      }
  }

  /** string: a piece flattened by a writer of its own. Where the rope fits this is the eager text. */
  method Flatten(p: Piece) returns (s: string)
    requires Valid(p)
    ensures s == Written(p, FRESH_WRITER, 0).out
    ensures s == Flat(p) <==> Fits(p, false, 0)
  {
    var w := new LineWriter();
    WriteTo(p, w, 0);
    LazyIsEager(p);
    return w.out;
  }
}
