/** Literal block scalars as ast/render.go prints them, read back by the rules of section 8.1 of
    YAML 1.2.2: the indentation indicator (8.1.1.1), chomping (8.1.1.2) and the literal style (8.1.2). */
module BlockScalar {
  import opened TextLayout

  datatype Option<+T> = None | Some(value: T)
  datatype Chomping = Strip | Clip | Keep

  // ---------------------------------------------------------------- headers

  /** The indentation of the node around another. A document encloses its root at -1. */
  type Indentation = n: int | n >= -1

  predicate IsWidth(c: char) { '1' <= c <= '9' }

  predicate IsChomping(c: char) { c == '+' || c == '-' }

  /** A literal's header: a "|", and at most one width and one chomping indicator in either order. */
  predicate Header(h: string) {
    && 1 <= |h| <= 3 && h[0] == '|'
    && (forall i :: 1 <= i < |h| ==> IsWidth(h[i]) || IsChomping(h[i]))
    && (|h| == 3 ==> IsWidth(h[1]) != IsWidth(h[2]))
  }

  function ChompingOf(h: string): Chomping {
    if '+' in h then Keep else if '-' in h then Strip else Clip
  }

  /** statedIndent: the width a header asks for, 0 where it leaves it to be detected. */
  function StatedIndent(h: string): (n: nat)
    ensures n <= 9
  {
    if h == "" then 0
    else if IsWidth(h[0]) then (h[0] as int) - ('0' as int)
    else StatedIndent(h[1..])
  }

  /** Sections 8.1.1.1 and 8.1.1.2: what may stand behind the "|" of a header. */
  const WIDTHS := {"", "1", "2", "3", "4", "5", "6", "7", "8", "9"}

  const INDICATORS := {"", "+", "-"}

  lemma HeaderIs(h: string)
    ensures Header(h) <==> exists w, c :: w in WIDTHS && c in INDICATORS && (h == "|" + (w + c) || h == "|" + (c + w))
  {
    if Header(h) {
      var w := if |h| > 1 && IsWidth(h[1]) then [h[1]] else if |h| > 2 && IsWidth(h[2]) then [h[2]] else "";
      var c := if |h| > 1 && IsChomping(h[1]) then [h[1]] else if |h| > 2 && IsChomping(h[2]) then [h[2]] else "";
      assert w in WIDTHS && c in INDICATORS;
      assert h == "|" + (w + c) || h == "|" + (c + w);
    }
  }

  function RestatedChar(c: char, width: int): char
    requires 1 <= width <= 9
  {
    if IsWidth(c) then ('0' as int + width) as char else c
  }

  function Restated(h: string, width: int): string {
    if h == "" || !(1 <= width <= 9) then h else [RestatedChar(h[0], width)] + Restated(h[1..], width)
  }

  /** restateIndent: the width rewritten, everything else as it stands; left alone where one digit
      cannot hold it. */
  method RestateIndent(h: string, width: int) returns (out: string)
    ensures out == Restated(h, width)
  {
    if width < 1 || width > 9 {
      return h;
    }
    out := "";
    for i := 0 to |h|
      invariant out + Restated(h[i..], width) == Restated(h, width)
    {
      assert h[i..][1..] == h[i + 1..];
      out := out + [RestatedChar(h[i], width)];
    }
  }

  /** Restating a width changes that and nothing else a reader looks at. */
  lemma {:induction false} RestatedReads(h: string, width: int)
    requires 1 <= width <= 9
    ensures |Restated(h, width)| == |h|
    ensures forall c :: !IsWidth(c) ==> (c in Restated(h, width) <==> c in h)
    ensures forall i :: 0 <= i < |h| ==> Restated(h, width)[i] == RestatedChar(h[i], width)
    ensures StatedIndent(Restated(h, width)) == if StatedIndent(h) > 0 then width else 0
  {
    if h != "" {
      RestatedReads(h[1..], width);
      var r := Restated(h, width);
      assert r[1..] == Restated(h[1..], width);
      forall c | !IsWidth(c) ensures c in r <==> c in h {
        assert c in r <==> c == r[0] || c in r[1..];
        assert c in h <==> c == h[0] || c in h[1..];
      }
    }
  }

  lemma RestatedHeader(h: string, width: int)
    requires Header(h)
    ensures Header(Restated(h, width))
    ensures ChompingOf(Restated(h, width)) == ChompingOf(h)
    ensures StatedIndent(Restated(h, width))
            == if StatedIndent(h) > 0 && 1 <= width <= 9 then width else StatedIndent(h)
  {
    if 1 <= width <= 9 { RestatedReads(h, width); }
  }

  /** withoutKeepChomping. */
  function WithoutKeep(h: string): string {
    if h == "" then "" else (if h[0] == '+' then "" else [h[0]]) + WithoutKeep(h[1..])
  }

  // ---------------------------------------------------------------- printing

  /** Lines closed by a break each. */
  function Closed(lines: seq<string>): string {
    if lines == [] then "" else lines[0] + ("\n" + Closed(lines[1..]))
  }

  predicate Ended(value: string) {
    value != "" && value[|value| - 1] == '\n'
  }

  /** The lines of a value's content: the empty string past a final break is not one of them. */
  function BodyLines(value: string): (lines: seq<string>)
    ensures forall i :: 0 <= i < |lines| ==> '\n' !in lines[i]
  {
    var all := Split(value);
    if Ended(value) then all[..|all| - 1] else all
  }

  /** blockScalarBody: every line indented and closed by a break, a line with nothing on it left empty. */
  method BlockScalarBody(value: string, indent: int) returns (body: string)
    ensures body == Closed(PadAll(BodyLines(value), indent))
  {
    var lines := Split(value);
    if Ended(value) {
      lines := lines[..|lines| - 1];
    }
    var pad := Spaces(indent);
    body := "";
    for i := 0 to |lines|
      invariant body + Closed(PadAll(lines[i..], indent)) == Closed(PadAll(lines, indent))
    {
      ghost var before := body;
      BodyStep(before, lines, i, indent);
      if lines[i] != "" {
        body := body + pad;
        body := body + lines[i];
      }
      assert body == before + Padded(lines[i], indent);
      body := body + "\n";
    }
  }

  lemma BodyStep(body: string, lines: seq<string>, i: nat, indent: int)
    requires i < |lines|
    ensures body + Closed(PadAll(lines[i..], indent))
            == body + Padded(lines[i], indent) + "\n" + Closed(PadAll(lines[i + 1..], indent))
  {
    var line, rest := Padded(lines[i], indent), Closed(PadAll(lines[i + 1..], indent));
    assert PadAll(lines[i..], indent)[1..] == PadAll(lines[i + 1..], indent);
    Assoc(body, line, "\n" + rest);
    Assoc(body + line, "\n", rest);
  }

  /** literalAt for a literal scalar without a comment. The last break is left to what follows. */
  method LiteralAt(header: string, value: string, indent: int, lift: int) returns (text: string)
    requires Header(header) && '\r' !in value
    ensures value == "" ==> text == WithoutKeep(Stated(header, indent + lift))
    ensures value != "" ==>
              text + "\n" == Stated(header, indent + lift) + ("\n" + Closed(PadAll(BodyLines(value), indent)))
  {
    var h := header;
    if StatedIndent(header) > 0 {
      h := RestateIndent(header, indent + lift);
    }
    if value == "" {
      return WithoutKeep(h);
    }
    var body := BlockScalarBody(value, indent);
    LinesOfValue(value);
    ClosedEnds(PadAll(BodyLines(value), indent));
    text := h + "\n" + body[..|body| - 1];
    HeaderAndBody(h, body);
  }

  lemma HeaderAndBody(h: string, body: string)
    requires Ended(body)
    ensures h + "\n" + body[..|body| - 1] + "\n" == h + ("\n" + body)
  {
    var content := body[..|body| - 1];
    assert content + "\n" == body;
    Assoc(h + "\n", content, "\n");
    Assoc(h, "\n", body);
  }

  function Stated(header: string, width: int): string {
    if StatedIndent(header) > 0 then Restated(header, width) else header
  }

  lemma ClosedEnds(lines: seq<string>)
    requires lines != []
    ensures Ended(Closed(lines))
  {
    if |lines| > 1 {
      ClosedEnds(lines[1..]);
    }
  }

  /** A value is its lines, with a break between them, and after them where it ends on one. */
  lemma {:induction false} LinesOfValue(value: string)
    ensures value != "" ==> BodyLines(value) != []
    ensures Ended(value) ==> Closed(BodyLines(value)) == value
    ensures !Ended(value) ==> Closed(BodyLines(value)) == value + "\n"
  {
    SplitClosed(value);
    JoinSplit(value);
    var lines := Split(value);
    if Ended(value) {
      ClosedConcat(lines[..|lines| - 1], [lines[|lines| - 1]]);
      assert lines[..|lines| - 1] + [lines[|lines| - 1]] == lines;
      LastSplit(value);
      OneClosed("");
      Cancel(value, Closed(lines[..|lines| - 1]), "\n");
    }
  }

  lemma OneClosed(line: string)
    ensures Closed([line]) == line + "\n"
  {
    assert [line][1..] == [];
  }

  lemma Cancel(a: string, b: string, c: string)
    requires a + c == b + c
    ensures a == b
  {
    assert a == (a + c)[..|a|] && b == (b + c)[..|b|];
  }

  lemma {:induction false} SplitClosed(value: string)
    ensures Closed(Split(value)) == value + "\n"
  {
    JoinSplit(value);
    ClosedJoin(Split(value));
  }

  lemma {:induction false} ClosedJoin(lines: seq<string>)
    requires lines != []
    ensures Closed(lines) == Join(lines) + "\n"
  {
    if |lines| > 1 {
      ClosedJoin(lines[1..]);
    } else {
      assert lines[1..] == [];
    }
  }

  lemma {:induction false} ClosedConcat(a: seq<string>, b: seq<string>)
    ensures Closed(a + b) == Closed(a) + Closed(b)
  {
    if a == [] {
      assert a + b == b;
    } else {
      assert (a + b)[1..] == a[1..] + b;
      ClosedConcat(a[1..], b);
      Assoc("\n", Closed(a[1..]), Closed(b));
      Assoc(a[0], "\n" + Closed(a[1..]), Closed(b));
    }
  }

  lemma {:induction false} LastSplit(value: string)
    requires Ended(value)
    ensures |Split(value)| > 1 && Split(value)[|Split(value)| - 1] == ""
  {
    if |value| > 1 {
      LastSplit(value[1..]);
    } else {
      assert value[1..] == "";
    }
  }

  // ---------------------------------------------------------------- reading, by section 8.1

  predicate Blank(line: string) {
    forall i :: 0 <= i < |line| ==> line[i] == ' '
  }

  function Lead(line: string): (n: nat)
    ensures n <= |line|
    ensures forall i :: 0 <= i < n ==> line[i] == ' '
    ensures n < |line| ==> line[n] != ' '
  {
    if line == "" || line[0] != ' ' then 0 else 1 + Lead(line[1..])
  }

  /** One line of a block whose content stands at column d: an empty line, content, or neither. */
  function CutLine(line: string, d: nat): Option<string> {
    if Blank(line) && |line| <= d then Some("")
    else if Lead(line) >= d then Some(line[d..])
    else None
  }

  function CutAll(lines: seq<string>, d: nat): (r: Option<seq<string>>)
    ensures r.Some? ==> |r.value| == |lines|
    ensures r.Some? ==> forall i :: 0 <= i < |lines| ==> CutLine(lines[i], d) == Some(r.value[i])
    ensures r.None? ==> exists i :: 0 <= i < |lines| && CutLine(lines[i], d).None?
  {
    if lines == [] then Some([])
    else
      var first, rest := CutLine(lines[0], d), CutAll(lines[1..], d);
      if first.Some? && rest.Some? then Some([first.value] + rest.value)
      else
        assert rest.None? ==> exists i :: 0 <= i < |lines[1..]| && CutLine(lines[1..][i], d).None?;
        None
  }

  function FirstFull(lines: seq<string>): (i: nat)
    ensures i <= |lines|
    ensures forall j :: 0 <= j < i ==> Blank(lines[j])
    ensures i < |lines| ==> !Blank(lines[i])
  {
    if lines == [] || !Blank(lines[0]) then 0 else 1 + FirstFull(lines[1..])
  }

  function Longest(lines: seq<string>): (n: nat)
    ensures forall i :: 0 <= i < |lines| ==> |lines[i]| <= n
  {
    if lines == [] then 0
    else
      var rest := Longest(lines[1..]);
      if |lines[0]| > rest then |lines[0]| else rest
  }

  /** 8.1.1.1: the column of the first line that is not empty. It stands deeper than the node around
      the scalar, and no empty line before it may be longer. */
  function Detected(lines: seq<string>, parent: Indentation): Option<nat> {
    var i := FirstFull(lines);
    if i == |lines| then Some(Longest(lines))
    else if Lead(lines[i]) > parent && forall j :: 0 <= j < i ==> |lines[j]| <= Lead(lines[i]) then Some(Lead(lines[i]))
    else None
  }

  /** How many lines stand before the trailing empty ones. */
  function Kept(lines: seq<string>): (k: nat)
    ensures k <= |lines|
    ensures k > 0 ==> lines[k - 1] != ""
    ensures forall j :: k <= j < |lines| ==> lines[j] == ""
  {
    if lines == [] || lines[|lines| - 1] != "" then |lines| else Kept(lines[..|lines| - 1])
  }

  /** 8.1.1.2. */
  function Chomped(lines: seq<string>, chomping: Chomping): string {
    var k := Kept(lines);
    match chomping
    case Keep => Closed(lines)
    case Clip => Closed(lines[..k])
    case Strip =>
      var text := Closed(lines[..k]);
      if text == "" then "" else text[..|text| - 1]
  }

  function Empties(n: nat): (r: seq<string>)
    ensures |r| == n && forall i :: 0 <= i < n ==> r[i] == ""
  {
    seq(n, _ => "")
  }

  function Breaks(n: nat): string {
    seq(n, _ => '\n')
  }

  /** Section 8.1.1.2 by the characters of the header: of lines that end on content and n empty ones behind them,
      "+" keeps every break, "-" none behind the content, and a header with neither one. */
  lemma ChompedBySpec(h: string, body: seq<string>, n: nat)
    requires body == [] || body[|body| - 1] != ""
    ensures var text := Chomped(body + Empties(n), ChompingOf(h));
            if '+' in h then text == Closed(body) + Breaks(n)
            else if '-' in h then text == (if body == [] then "" else Join(body))
            else text == (if body == [] then "" else Join(body) + "\n")
  {
    KeptBody(body, n);
    ClosedConcat(body, Empties(n));
    EmptiesClosed(n);
    assert (body + Empties(n))[..|body|] == body;
    if body != [] {
      ClosedJoin(body);
      assert Closed(body)[..|Closed(body)| - 1] == Join(body);
    }
  }

  lemma {:induction false} KeptBody(body: seq<string>, n: nat)
    requires body == [] || body[|body| - 1] != ""
    ensures Kept(body + Empties(n)) == |body|
  {
    var lines := body + Empties(n);
    if n == 0 {
      assert lines == body;
    } else {
      assert lines[..|lines| - 1] == body + Empties(n - 1);
      KeptBody(body, n - 1);
    }
  }

  lemma {:induction false} EmptiesClosed(n: nat)
    ensures Closed(Empties(n)) == Breaks(n)
  {
    if n > 0 {
      EmptiesClosed(n - 1);
      assert Empties(n)[1..] == Empties(n - 1);
      assert Breaks(n) == "\n" + Breaks(n - 1);
      assert "" + ("\n" + Breaks(n - 1)) == "\n" + Breaks(n - 1);
    }
  }

  /** 8.1.1.1: the column the content stands at, stated or detected. */
  function Column(h: string, lines: seq<string>, parent: Indentation): Option<nat> {
    if StatedIndent(h) > 0 then Some(parent + StatedIndent(h)) else Detected(lines, parent)
  }

  function ReadLines(h: string, lines: seq<string>, parent: Indentation): Option<string> {
    var column := Column(h, lines, parent);
    if column.None? then None
    else
      var content := CutAll(lines, column.value);
      if content.None? then None else Some(Chomped(content.value, ChompingOf(h)))
  }

  /** A block scalar under a node indented by `parent` columns, or None where the text is not one. */
  function ReadLiteral(text: string, parent: Indentation): Option<string> {
    var cut := BreakAt(text);
    if cut == |text| || !Header(text[..cut]) then None
    else
      var all := Split(text[cut + 1..]);
      ReadLines(text[..cut], all[..|all| - 1], parent)
  }

  // ---------------------------------------------------------------- when the value comes back

  /** Whether the trailing breaks of a value are ones its header's chomping can leave. */
  predicate FitsChomping(value: string, chomping: Chomping) {
    match chomping
    case Keep => Ended(value)
    case Strip => !Ended(value)
    case Clip => Ended(value) && |value| > 1 && !Ended(value[..|value| - 1])
  }

  predicate HasContent(value: string) {
    exists i :: 0 <= i < |value| && value[i] != '\n'
  }

  /** The first character of the value that is not a break. */
  function Opening(value: string): (c: char)
    requires HasContent(value)
  {
    if value[0] != '\n' then value[0] else Opening(value[1..])
  }

  /** The header says where the content stands: by a width one digit can hold, or by the first line
      of content, which must stand deeper than the node around it and not open on a space of its own. */
  predicate Located(header: string, value: string, width: int) {
    HasContent(value) ==>
      1 <= width && if StatedIndent(header) > 0 then width <= 9 else Opening(value) != ' '
  }

  predicate ComesBack(header: string, value: string, width: int) {
    value == "" || (FitsChomping(value, ChompingOf(header)) && Located(header, value, width))
  }

  lemma PaddedTwice(line: string, a: nat, b: nat)
    ensures Padded(Padded(line, a), b) == Padded(line, a + b)
  {
    if line != "" {
      assert Spaces(b) + Spaces(a) == Spaces(a + b);
      Assoc(Spaces(b), Spaces(a), line);
    }
  }

  lemma PadAllTwice(lines: seq<string>, a: nat, b: nat)
    ensures PadAll(PadAll(lines, a), b) == PadAll(lines, a + b)
  {
    var once := PadAll(lines, a);
    forall i | 0 <= i < |lines| ensures PadAll(once, b)[i] == PadAll(lines, a + b)[i] {
      assert once[i] == Padded(lines[i], a);
      PaddedTwice(lines[i], a, b);
    }
  }

  lemma {:induction false} LayClosed(lines: seq<string>, k: int)
    requires forall i :: 0 <= i < |lines| ==> '\n' !in lines[i]
    ensures Lay(Closed(lines), true, k) == Closed(PadAll(lines, k))
  {
    if lines != [] {
      LayClosed(lines[1..], k);
      assert PadAll(lines, k)[1..] == PadAll(lines[1..], k);
      LayNoBreak(lines[0], true, k);
      LayConcat(lines[0], "\n" + Closed(lines[1..]), true, k);
      LayBreak(Closed(lines[1..]), After(lines[0], true), k);
    }
  }

  lemma {:induction false} SplitOfClosed(lines: seq<string>)
    requires forall i :: 0 <= i < |lines| ==> '\n' !in lines[i]
    ensures Split(Closed(lines)) == lines + [""]
  {
    ClosedJoin(lines + [""]);
    ClosedConcat(lines, [""]);
    assert Closed([""]) == "\n";
    assert Join(lines + [""]) + "\n" == Closed(lines) + "\n";
    assert Join(lines + [""]) == (Join(lines + [""]) + "\n")[..|Closed(lines)|] == Closed(lines);
    SplitJoin(lines + [""]);
  }

  /** A node's text where its document puts it: laid out at column k, after a marker that holds its
      first line, and with the break that follows a node. */
  function InDocument(text: string, k: int): string {
    Lay(text, false, k) + "\n"
  }

  /** A header line with a body under it, put in a document at column k from inside a line. */
  lemma Placed(h: string, text: string, body: string, placed: string, k: int)
    requires Header(h)
    requires text + "\n" == h + ("\n" + body)
    requires placed == Lay(body, true, k)
    ensures InDocument(text, k) == h + ("\n" + placed)
  {
    LayLastBreak(text, k);
    assert InDocument(text, k) == Lay(h + ("\n" + body), false, k);
    OneLineHeader(h);
    PlacedAfter(h, "\n" + body, k, After(h, false));
    LayBreak(body, After(h, false), k);
  }

  lemma OneLineHeader(h: string)
    requires Header(h)
    ensures '\n' !in h
  {
  }

  lemma PlacedAfter(h: string, rest: string, k: int, after: bool)
    requires '\n' !in h && after == After(h, false)
    ensures Lay(h + rest, false, k) == h + Lay(rest, after, k)
  {
    LayConcat(h, rest, false, k);
    assert Lay(h, false, k) == h by {
      LayNoBreak(h, false, k);
      if h != "" { assert "" + h == h; }
    }
  }

  lemma LayLastBreak(text: string, k: int)
    ensures Lay(text + "\n", false, k) == Lay(text, false, k) + "\n"
  {
    LayConcat(text, "\n", false, k);
    assert "\n"[1..] == "";
  }

  /** What the reader makes of it. */
  lemma ReadPlaced(h: string, lines: seq<string>, parent: Indentation)
    requires Header(h)
    requires forall i :: 0 <= i < |lines| ==> '\n' !in lines[i]
    ensures ReadLiteral(h + ("\n" + Closed(lines)), parent) == ReadLines(h, lines, parent)
  {
    var body := Closed(lines);
    BreakFound(h, body);
    SplitOfClosed(lines);
    ReadCut(h + ("\n" + body), h, body, lines, parent);
  }

  lemma ReadCut(text: string, h: string, body: string, lines: seq<string>, parent: Indentation)
    requires Header(h) && text == h + ("\n" + body) && BreakAt(text) == |h|
    requires Split(body) == lines + [""]
    ensures ReadLiteral(text, parent) == ReadLines(h, lines, parent)
  {
    assert text[..|h|] == h;
    assert text[|h| + 1..] == body;
    var all := lines + [""];
    assert all[..|all| - 1] == lines;
  }

  lemma {:induction false} BreakFound(h: string, rest: string)
    requires '\n' !in h
    ensures BreakAt(h + ("\n" + rest)) == |h|
  {
    var text := h + ("\n" + rest);
    if h != "" {
      BreakFound(h[1..], rest);
      assert text[1..] == h[1..] + ("\n" + rest);
      assert text[0] == h[0] && h[0] in h;
    }
  }

  ghost predicate AllEmpty(lines: seq<string>) {
    forall i :: 0 <= i < |lines| ==> lines[i] == ""
  }

  /** Cut at the column they were padded to, the lines come back; at any other column none of the
      lines with content does. */
  lemma CutPadded(lines: seq<string>, w: nat, d: nat)
    ensures CutAll(PadAll(lines, w), d) == Some(lines)
            <==> d == w || AllEmpty(lines)
  {
    var padded := PadAll(lines, w);
    forall i | 0 <= i < |lines|
      ensures CutLine(padded[i], d) == Some(lines[i]) <==> d == w || lines[i] == ""
    {
      CutOne(lines[i], w, d);
    }
    var r := CutAll(padded, d);
    if d == w || AllEmpty(lines) {
      assert r.Some? && forall i :: 0 <= i < |lines| ==> r.value[i] == lines[i];
      assert r.value == lines;
    }
  }

  lemma CutOne(line: string, w: nat, d: nat)
    ensures CutLine(Padded(line, w), d) == Some(line) <==> d == w || line == ""
  {
    if line != "" {
      var p := Padded(line, w);
      assert forall i :: 0 <= i < w ==> p[i] == ' ';
      assert p[w..] == line;
      LeadOver(p, w);
    }
  }

  lemma {:induction false} LeadOver(line: string, w: nat)
    requires w <= |line| && forall i :: 0 <= i < w ==> line[i] == ' '
    ensures Lead(line) >= w
  {
    if w > 0 { LeadOver(line[1..], w - 1); }
  }

  /** The column is detected where the content was put exactly when its first line does not open on a
      space, and stands deeper than the node around it. */
  lemma DetectPadded(lines: seq<string>, w: nat, i: nat, parent: Indentation)
    requires i < |lines| && lines[i] != "" && forall j :: 0 <= j < i ==> lines[j] == ""
    ensures Detected(PadAll(lines, w), parent) == Some(w) <==> lines[i][0] != ' ' && w > parent
  {
    var padded := PadAll(lines, w);
    var p := padded[i];
    assert p[w..] == lines[i] && p[w] == lines[i][0];
    LeadOver(p, w);
    var f := FirstFull(padded);
    assert f < i ==> Blank(padded[f]);
    if lines[i][0] != ' ' {
      assert !Blank(p);
      assert f == i;
    } else if f == |padded| {
      assert |padded[i]| > w;
    } else if f == i {
      LeadOver(p, w + 1);
    } else {
      assert |padded[i]| > w;
    }
  }

  /** Chomping gives the value back from its own lines exactly when it fits, and from no other lines
      as many. */
  lemma ChompedBack(value: string, lines: seq<string>, chomping: Chomping)
    requires value != "" && |lines| == |BodyLines(value)|
    requires forall i :: 0 <= i < |lines| ==> '\n' !in lines[i]
    ensures Chomped(lines, chomping) == value <==> lines == BodyLines(value) && FitsChomping(value, chomping)
  {
    if lines == BodyLines(value) {
      OwnChomped(value, chomping);
    } else if chomping == Keep {
      if Closed(lines) == value {
        EndedBody(value, lines);
      }
    } else {
      var k := Kept(lines);
      var cut := lines[..k];
      assert cut != lines ==> |cut| < |lines|;
      OthersChomped(value, cut, Closed(cut));
    }
  }

  /** Lines that are not the value's, the last of them with content: neither their text nor that text
      without its last break is the value. */
  lemma OthersChomped(value: string, cut: seq<string>, text: string)
    requires value != "" && cut != BodyLines(value) && text == Closed(cut)
    requires cut != [] ==> cut[|cut| - 1] != ""
    requires forall i :: 0 <= i < |cut| ==> '\n' !in cut[i]
    ensures text != value
    ensures text == "" || text[..|text| - 1] != value
  {
    if text == value {
      EndedBody(value, cut);
      assert false;
    }
    if text != "" && text[..|text| - 1] == value {
      assert cut != [];
      StrippedBody(value, cut, text);
      assert false;
    }
  }

  lemma StrippedBody(value: string, lines: seq<string>, text: string)
    requires lines != [] && lines[|lines| - 1] != "" && text == Closed(lines)
    requires forall i :: 0 <= i < |lines| ==> '\n' !in lines[i]
    requires text != "" && text[..|text| - 1] == value
    ensures BodyLines(value) == lines
  {
    ClosedEnds(lines);
    ClosedLast(lines);
    assert text == value + "\n";
    assert !Ended(value);
    UnendedBody(value, lines);
  }

  lemma UnendedBody(value: string, lines: seq<string>)
    requires !Ended(value) && Closed(lines) == value + "\n"
    requires forall i :: 0 <= i < |lines| ==> '\n' !in lines[i]
    ensures BodyLines(value) == lines
  {
    LinesOfValue(value);
    ClosedInjective(lines, BodyLines(value));
  }

  lemma ClosedInjective(a: seq<string>, b: seq<string>)
    requires forall i :: 0 <= i < |a| ==> '\n' !in a[i]
    requires forall i :: 0 <= i < |b| ==> '\n' !in b[i]
    requires Closed(a) == Closed(b)
    ensures a == b
  {
    SplitOfClosed(a);
    SplitOfClosed(b);
    assert (a + [""])[..|a|] == a && (b + [""])[..|b|] == b;
  }

  lemma EndedBody(value: string, lines: seq<string>)
    requires value != "" && Closed(lines) == value
    requires forall i :: 0 <= i < |lines| ==> '\n' !in lines[i]
    ensures BodyLines(value) == lines
  {
    ClosedEnds(lines);
    SplitOfClosed(lines);
    assert (lines + [""])[..|lines|] == lines;
  }

  /** The text of lines that end on one with content has one break at its end and no more. */
  lemma {:induction false} ClosedLast(lines: seq<string>)
    requires lines != [] && lines[|lines| - 1] != ""
    requires forall i :: 0 <= i < |lines| ==> '\n' !in lines[i]
    ensures |Closed(lines)| > 1 && !Ended(Closed(lines)[..|Closed(lines)| - 1])
  {
    if |lines| == 1 {
      assert lines[1..] == [];
      var l := lines[0];
      assert Closed(lines)[..|l|] == l;
      assert l[|l| - 1] in l;
    } else {
      ClosedLast(lines[1..]);
      var rest := Closed(lines[1..]);
      var all := Closed(lines);
      assert all[..|all| - 1] == (lines[0] + "\n") + rest[..|rest| - 1];
    }
  }

  lemma OwnChomped(value: string, chomping: Chomping)
    requires value != ""
    ensures Chomped(BodyLines(value), chomping) == value <==> FitsChomping(value, chomping)
  {
    var lines := BodyLines(value);
    LinesOfValue(value);
    var k := Kept(lines);
    if Ended(value) {
      KeptEnds(lines, k);
      KeptAndTail(lines, k);
      OwnClipped(value, Closed(lines[..k]), Closed(lines[k..]));
    } else {
      LastIsFull(value);
      assert lines[..k] == lines;
      assert Closed(lines)[..|value|] == value;
    }
  }

  lemma KeptEnds(lines: seq<string>, k: nat)
    requires k <= |lines| && (k > 0 ==> lines[k - 1] != "")
    requires forall i :: 0 <= i < |lines| ==> '\n' !in lines[i]
    ensures var kept := Closed(lines[..k]);
            kept != "" ==> Ended(kept) && |kept| > 1 && !Ended(kept[..|kept| - 1])
  {
    if k > 0 { ClosedLast(lines[..k]); ClosedEnds(lines[..k]); }
  }

  lemma KeptAndTail(lines: seq<string>, k: nat)
    requires k <= |lines| && forall j :: k <= j < |lines| ==> lines[j] == ""
    ensures Closed(lines) == Closed(lines[..k]) + Closed(lines[k..])
    ensures forall i :: 0 <= i < |Closed(lines[k..])| ==> Closed(lines[k..])[i] == '\n'
  {
    assert lines == lines[..k] + lines[k..];
    ClosedConcat(lines[..k], lines[k..]);
    EmptyLines(lines[k..]);
  }

  /** A value that ends on a break, its kept text and the breaks chomped off it. */
  lemma OwnClipped(value: string, kept: string, tail: string)
    requires Ended(value) && value == kept + tail
    requires forall i :: 0 <= i < |tail| ==> tail[i] == '\n'
    requires kept != "" ==> Ended(kept) && |kept| > 1 && !Ended(kept[..|kept| - 1])
    ensures kept == value <==> FitsChomping(value, Clip)
    ensures kept == "" || kept[..|kept| - 1] != value
  {
    if tail == "" {
      assert kept + tail == kept;
    } else if |value| > 1 {
      var n := |value|;
      assert value[n - 2] == if |tail| > 1 then tail[|tail| - 2] else kept[|kept| - 1];
      assert value[..n - 1][n - 2] == value[n - 2];
    }
  }

  lemma EmptyLines(lines: seq<string>)
    requires forall i :: 0 <= i < |lines| ==> lines[i] == ""
    ensures |Closed(lines)| == |lines| && forall i :: 0 <= i < |lines| ==> Closed(lines)[i] == '\n'
  {
    if lines != [] { EmptyLines(lines[1..]); }
  }

  /** A value that does not end on a break ends on a line with content. */
  lemma {:induction false} LastIsFull(value: string)
    requires value != "" && !Ended(value)
    ensures Split(value)[|Split(value)| - 1] != ""
  {
    if |value| > 1 {
      LastIsFull(value[1..]);
    } else {
      assert value[1..] == "";
    }
  }

  /** Where the first line with content stands, and what it opens on. */
  lemma {:induction false} OpeningLine(value: string) returns (i: nat)
    requires HasContent(value)
    ensures i < |Split(value)| && Split(value)[i] != "" && (forall j :: 0 <= j < i ==> Split(value)[j] == "")
    ensures Split(value)[i][0] == Opening(value)
  {
    if value[0] == '\n' {
      assert HasContent(value[1..]) by {
        var j :| 0 <= j < |value| && value[j] != '\n';
        assert value[1..][j - 1] == value[j];
      }
      i := OpeningLine(value[1..]);
      i := i + 1;
    } else {
      i := 0;
    }
  }

  lemma OpeningBodyLine(value: string) returns (i: nat)
    requires HasContent(value)
    ensures var lines := BodyLines(value);
            && i < |lines| && lines[i] != "" && (forall j :: 0 <= j < i ==> lines[j] == "")
            && lines[i][0] == Opening(value)
  {
    i := OpeningLine(value);
    if Ended(value) { LastSplit(value); }
  }

  lemma {:induction false} NoContent(value: string)
    requires !HasContent(value)
    ensures forall j :: 0 <= j < |Split(value)| ==> Split(value)[j] == ""
  {
    if value != "" {
      assert !HasContent(value[1..]);
      NoContent(value[1..]);
    }
  }

  /** A literal scalar printed under a node indented by `parent`, on a line `lift` columns further in,
      reads back as the value it was printed from if and only if it is empty, or its trailing breaks
      are ones the chomping leaves and its header says where the content stands. The root of a
      document is printed with parent -1 and lift 1. */
  method RoundTrip(header: string, value: string, indent: nat, parent: Indentation, lift: nat, column: nat)
    returns (text: string)
    requires Header(header) && '\r' !in value && column == parent + lift
    ensures ReadLiteral(InDocument(text, column), parent) == Some(value) <==> ComesBack(header, value, indent + lift)
  {
    text := LiteralAt(header, value, indent, lift);
    var h := Stated(header, indent + lift);
    RestatedHeader(header, indent + lift);
    if value == "" {
      HeaderReadsEmpty(h, parent, column);
    } else {
      PrintedReads(header, h, value, text, indent, lift, parent, column, column + indent);
    }
  }

  /** A width no digit holds: under WithIndent(10) the header keeps the width it had, and a value
      printed at column ten is not read back. */
  lemma WideIndentLost(value: string, text: string)
    requires value != "" && HasContent(value)
    requires text + "\n" == "|2\n" + Closed(PadAll(BodyLines(value), 10))
    ensures ReadLiteral(InDocument(text, 0), 0) != Some(value)
  {
    var h := "|2";
    var digit := h[1..];
    assert digit == "2" && StatedIndent(digit) == 2;
    assert StatedIndent(h) == 2 && Stated(h, 10) == h;
    assert h + ("\n" + Closed(PadAll(BodyLines(value), 10))) == "|2\n" + Closed(PadAll(BodyLines(value), 10));
    PrintedReads(h, h, value, text, 10, 0, 0, 0, 10);
  }

  /** h is header with its width, where it states one, made to say `width` if one digit can. */
  predicate Restates(h: string, header: string, width: int) {
    && Header(h)
    && ChompingOf(h) == ChompingOf(header)
    && StatedIndent(h) == if StatedIndent(header) > 0 && 1 <= width <= 9 then width else StatedIndent(header)
  }

  /** The same, with the columns the text stands at (k) and its content stands at (w) spelled out. */
  lemma PrintedReads(header: string, h: string, value: string, text: string, indent: nat, lift: nat,
                     parent: Indentation, k: nat, w: nat)
    requires Restates(h, header, indent + lift) && value != "" && k == parent + lift && w == k + indent
    requires text + "\n" == h + ("\n" + Closed(PadAll(BodyLines(value), indent)))
    ensures ReadLiteral(InDocument(text, k), parent) == Some(value) <==> ComesBack(header, value, indent + lift)
  {
    PrintedDoc(h, BodyLines(value), text, indent, parent, k, w);
    ReadsIff(header, h, value, indent, lift, parent, w);
  }

  lemma PrintedDoc(h: string, lines: seq<string>, text: string, indent: nat, parent: Indentation, k: nat, w: nat)
    requires Header(h) && w == k + indent && forall i :: 0 <= i < |lines| ==> '\n' !in lines[i]
    requires text + "\n" == h + ("\n" + Closed(PadAll(lines, indent)))
    ensures ReadLiteral(InDocument(text, k), parent) == ReadLines(h, PadAll(lines, w), parent)
  {
    PrintedText(h, lines, text, indent, k);
    DocReads(InDocument(text, k), h, PadAll(lines, w), parent);
  }

  lemma DocReads(doc: string, h: string, lines: seq<string>, parent: Indentation)
    requires Header(h) && doc == h + ("\n" + Closed(lines))
    requires forall i :: 0 <= i < |lines| ==> '\n' !in lines[i]
    ensures ReadLiteral(doc, parent) == ReadLines(h, lines, parent)
  {
    ReadPlaced(h, lines, parent);
  }

  lemma ReadsIff(header: string, h: string, value: string, indent: nat, lift: nat, parent: Indentation, w: nat)
    requires Restates(h, header, indent + lift) && value != "" && w == parent + lift + indent
    ensures ReadLines(h, PadAll(BodyLines(value), w), parent) == Some(value)
            <==> ComesBack(header, value, indent + lift)
  {
    ColumnLocates(header, h, value, indent, lift, parent, w);
    LinesRead(h, value, w, parent);
  }

  /** The printed text in its document: the header, and the lines under all their indentation. */
  lemma PrintedText(h: string, lines: seq<string>, text: string, indent: nat, k: nat)
    requires Header(h) && forall i :: 0 <= i < |lines| ==> '\n' !in lines[i]
    requires text + "\n" == h + ("\n" + Closed(PadAll(lines, indent)))
    ensures InDocument(text, k) == h + ("\n" + Closed(PadAll(lines, k + indent)))
  {
    var body := Closed(PadAll(lines, indent));
    LayClosed(PadAll(lines, indent), k);
    PadAllTwice(lines, indent, k);
    Placed(h, text, body, Lay(body, true, k), k);
  }

  /** Whatever column the reader settles on, it gives back the value exactly where that is the column
      of the content and the chomping fits. */
  lemma LinesRead(h: string, value: string, w: nat, parent: Indentation)
    requires value != ""
    ensures var lines := BodyLines(value);
            var column := Column(h, PadAll(lines, w), parent);
            ReadLines(h, PadAll(lines, w), parent) == Some(value)
            <==> FitsChomping(value, ChompingOf(h)) && column.Some?
                 && (column == Some(w) || AllEmpty(lines))
  {
    var lines := BodyLines(value);
    var padded := PadAll(lines, w);
    var column := Column(h, padded, parent);
    if column.Some? {
      CutPadded(lines, w, column.value);
      var content := CutAll(padded, column.value);
      if content.Some? {
        CutHasNoBreak(padded, column.value);
        ChompedBack(value, content.value, ChompingOf(h));
      }
    }
  }

  lemma CutHasNoBreak(lines: seq<string>, d: nat)
    requires forall i :: 0 <= i < |lines| ==> '\n' !in lines[i]
    requires CutAll(lines, d).Some?
    ensures forall i :: 0 <= i < |lines| ==> '\n' !in CutAll(lines, d).value[i]
  {
    forall i | 0 <= i < |lines| ensures '\n' !in CutAll(lines, d).value[i] {
      assert CutLine(lines[i], d) == Some(CutAll(lines, d).value[i]);
    }
  }

  /** The column the reader settles on is the printed one exactly where the header locates it, or
      there is nothing to locate. */
  lemma ColumnLocates(header: string, h: string, value: string, indent: nat, lift: nat, parent: Indentation, w: nat)
    requires Restates(h, header, indent + lift) && value != "" && w == parent + lift + indent
    ensures var column := Column(h, PadAll(BodyLines(value), w), parent);
            Located(header, value, indent + lift)
            <==> column.Some? && (column == Some(w) || AllEmpty(BodyLines(value)))
  {
    DetectedLocates(value, w, parent);
  }

  /** What detection makes of a value's lines: the column they stand at, where the first of them with
      content does not open on a space. */
  lemma DetectedLocates(value: string, w: nat, parent: Indentation)
    ensures AllEmpty(BodyLines(value)) <==> !HasContent(value)
    ensures HasContent(value) ==>
              (Detected(PadAll(BodyLines(value), w), parent) == Some(w) <==> Opening(value) != ' ' && w > parent)
    ensures !HasContent(value) ==> Detected(PadAll(BodyLines(value), w), parent).Some?
  {
    var lines := BodyLines(value);
    if HasContent(value) {
      var i := OpeningBodyLine(value);
      DetectPadded(lines, w, i, parent);
    } else {
      NoContent(value);
      NoneFull(PadAll(lines, w));
    }
  }

  lemma NoneFull(lines: seq<string>)
    requires forall i :: 0 <= i < |lines| ==> lines[i] == ""
    ensures FirstFull(lines) == |lines|
  {
  }

  /** An empty value is its header without a "+", and reads back empty whatever the header asked for. */
  lemma HeaderReadsEmpty(h: string, parent: Indentation, k: nat)
    requires Header(h)
    ensures ReadLiteral(InDocument(WithoutKeep(h), k), parent) == Some("")
  {
    var g, none: seq<string> := WithoutKeep(h), [];
    KeepGone(h);
    assert "\n" + Closed(none) == "\n";
    Placed(g, g, "", "", k);
    DocReads(InDocument(g, k), g, none, parent);
    NothingRead(g, parent);
  }

  lemma NothingRead(h: string, parent: Indentation)
    ensures ReadLines(h, [], parent) == Some("")
  {
    var none: seq<string> := [];
    assert none[..Kept(none)] == none;
    assert forall d :: CutAll(none, d) == Some(none);
  }

  lemma KeepGone(h: string)
    requires Header(h)
    ensures Header(WithoutKeep(h))
  {
    var rest := h[1..];
    assert h == ['|'] + rest && WithoutKeep(h) == ['|'] + WithoutKeep(rest);
    if rest != "" {
      var last := rest[1..];
      assert last != "" ==> last[1..] == "";
      assert WithoutKeep(last) == if last == "" || last[0] == '+' then "" else last;
      assert WithoutKeep(rest) == (if rest[0] == '+' then "" else [rest[0]]) + WithoutKeep(last);
    }
  }

  // ---------------------------------------------------------------- dedentBy

  function Dedented(line: string, n: nat): string {
    if |line| >= n then line[n..] else line[Lead(line)..]
  }

  /** dedentBy: n columns off every line, and what spaces there are off a line that is shorter. */
  method DedentBy(text: string, n: int) returns (r: string)
    ensures n <= 0 ==> r == text
    ensures n > 0 ==> |Split(r)| == |Split(text)|
    ensures n > 0 ==> forall i :: 0 <= i < |Split(text)| ==> Split(r)[i] == Dedented(Split(text)[i], n)
    ensures forall t: string :: text == Lay(t, true, n) ==> r == t
  {
    forall t: string | text == Lay(t, true, n)
      ensures n <= 0 ==> text == t
      ensures n > 0 ==> Split(text) == PadAll(Split(t), n)
    {
      if n <= 0 {
        LayNothing(t, true, n);
      } else {
        JoinPadded(Split(t), n);
        JoinSplit(t);
        SplitJoin(PadAll(Split(t), n));
      }
    }
    if n <= 0 {
      return text;
    }
    var lines := Split(text);
    ghost var was := lines;
    for i := 0 to |lines|
      invariant |lines| == |was|
      invariant forall j :: 0 <= j < i ==> lines[j] == Dedented(was[j], n)
      invariant forall j :: i <= j < |was| ==> lines[j] == was[j]
    {
      if |lines[i]| >= n {
        lines := lines[i := lines[i][n..]];
      } else {
        lines := lines[i := lines[i][Lead(lines[i])..]];
      }
    }
    SplitJoin(lines);
    r := Join(lines);
    forall t: string | text == Lay(t, true, n) ensures r == t {
      forall i | 0 <= i < |lines| ensures lines[i] == Split(t)[i] {
        assert was[i] == Padded(Split(t)[i], n);
      }
      assert lines == Split(t);
      JoinSplit(t);
    }
  }
}
