/** Indentation of text by lines, as ast/render.go does it: split at the line breaks, pad the lines
    that hold something, join again. `Lay` is the same thing said character by character, with the
    state a writer is in, and everything else in the layout is proved against it. */
module TextLayout {

  /** A byte of the source is modelled as one `char`. */
  function Spaces(n: int): (r: string)
    ensures |r| == if n > 0 then n else 0
    ensures '\n' !in r
  {
    seq(if n > 0 then n else 0, _ => ' ')
  }

  /** s written with k columns put in front of every line that has content. atStart says that
      nothing stands yet on the line s begins on. */
  function Lay(s: string, atStart: bool, k: int): string {
    if s == "" then ""
    else if s[0] == '\n' then "\n" + Lay(s[1..], true, k)
    else (if atStart then Spaces(k) else "") + [s[0]] + Lay(s[1..], false, k)
  }

  /** Whether a writer stands at the start of a line once s is written. */
  predicate After(s: string, atStart: bool) {
    if s == "" then atStart else s[|s| - 1] == '\n'
  }

  /** s is not empty and opens on a line break. */
  predicate Leads(s: string) {
    s != "" && s[0] == '\n'
  }

  // ---------------------------------------------------------------- laws of Lay

  lemma AfterTail(s: string, atStart: bool)
    requires s != ""
    ensures After(s[1..], s[0] == '\n') == After(s, atStart)
  {
  }

  lemma AfterConcat(a: string, b: string, atStart: bool)
    ensures After(a + b, atStart) == After(b, After(a, atStart))
  {
  }

  /** Writing two texts one after the other, the second in the state the first left, is writing
      their concatenation. */
  lemma {:induction false} LayConcat(a: string, b: string, atStart: bool, k: int)
    ensures Lay(a + b, atStart, k) == Lay(a, atStart, k) + Lay(b, After(a, atStart), k)
  {
    if a == "" {
      assert a + b == b;
    } else {
      assert (a + b)[0] == a[0] && (a + b)[1..] == a[1..] + b;
      LayConcat(a[1..], b, a[0] == '\n', k);
      AfterTail(a, atStart);
    }
  }

  lemma {:induction false} LayNothing(s: string, atStart: bool, k: int)
    requires k <= 0
    ensures Lay(s, atStart, k) == s
  {
    if s != "" {
      LayNothing(s[1..], s[0] == '\n', k);
    }
  }

  lemma {:induction false} LayNoBreak(s: string, atStart: bool, k: int)
    requires '\n' !in s
    ensures Lay(s, atStart, k) == if s == "" then "" else (if atStart then Spaces(k) else "") + s
  {
    if s != "" {
      LayNoBreak(s[1..], false, k);
    }
  }

  lemma {:induction false} LayPadding(n: nat, s: string, k: int)
    ensures Lay(Spaces(n) + s, false, k) == Spaces(n) + Lay(s, false, k)
  {
    LayNoBreak(Spaces(n), false, k);
    LayConcat(Spaces(n), s, false, k);
  }

  /** What a layout leaves alone: emptiness, the opening break, and how the text ends. */
  lemma {:induction false} LayShape(s: string, atStart: bool, k: int)
    ensures Lay(s, atStart, k) == "" <==> s == ""
    ensures Leads(Lay(s, atStart, k)) == Leads(s)
    ensures After(Lay(s, atStart, k), true) == After(s, true)
    ensures After(Lay(s, atStart, k), false) == After(s, false)
    ensures '\n' in Lay(s, atStart, k) <==> '\n' in s
  {
    if s != "" {
      LayShape(s[1..], s[0] == '\n', k);
    }
  }

  /** One character of content, in either state. */
  lemma LayContent(c: char, s: string, atStart: bool, k: int)
    requires c != '\n'
    ensures Lay([c] + s, atStart, k) == (if atStart then Spaces(k) else "") + ([c] + Lay(s, false, k))
  {
    assert ([c] + s)[1..] == s;
  }

  lemma LayBreak(s: string, atStart: bool, k: int)
    ensures Lay("\n" + s, atStart, k) == "\n" + Lay(s, true, k)
  {
    assert ("\n" + s)[1..] == s;
  }

  /** The two readings of a first line that has content differ by the padding in front. */
  lemma FirstColumn(s: string, k: int)
    requires s != "" && s[0] != '\n'
    ensures Lay(s, true, k) == Spaces(k) + Lay(s, false, k)
  {
    assert s == [s[0]] + s[1..];
    LayContent(s[0], s[1..], true, k);
    LayContent(s[0], s[1..], false, k);
  }

  /** A line that opens on padding and has content gets the outer padding in front of it. */
  lemma LayPadded(n: nat, s: string, k: nat)
    requires s != "" && s[0] != '\n'
    ensures Lay(Spaces(n) + s, true, k) == Spaces(k) + (Spaces(n) + Lay(s, false, k))
  {
    if n == 0 {
      assert Spaces(n) + s == s;
      FirstColumn(s, k);
      assert Spaces(n) + Lay(s, false, k) == Lay(s, false, k);
    } else {
      LayPadding(n, s, k);
      var all := Spaces(n) + s;
      FirstColumn(all, k);
    }
  }

  /** Indenting what is already indented adds the two up, where both see the first line alike. */
  lemma {:induction false} LayTwice(s: string, atStart: bool, n: nat, k: nat)
    ensures Lay(Lay(s, atStart, n), atStart, k) == Lay(s, atStart, n + k)
  {
    if s == "" {
    } else if s[0] == '\n' {
      LayTwice(s[1..], true, n, k);
      LayBreak(Lay(s[1..], true, n), atStart, k);
    } else {
      LayTwice(s[1..], false, n, k);
      LayTwiceContent(s, atStart, n, k);
    }
  }

  lemma LayTwiceContent(s: string, atStart: bool, n: nat, k: nat)
    requires s != "" && s[0] != '\n'
    requires Lay(Lay(s[1..], false, n), false, k) == Lay(s[1..], false, n + k)
    ensures Lay(Lay(s, atStart, n), atStart, k) == Lay(s, atStart, n + k)
  {
    var rest := [s[0]] + Lay(s[1..], false, n);
    LayContent(s[0], Lay(s[1..], false, n), false, k);
    if atStart {
      assert Lay(s, true, n) == Spaces(n) + rest;
      LayPadded(n, rest, k);
      assert Spaces(k) + Spaces(n) == Spaces(n + k);
      Assoc(Spaces(k), Spaces(n), Lay(rest, false, k));
      FirstColumn(s, n + k);
    } else {
      assert Lay(s, false, n) == rest;
    }
  }

  /** A text that does not open on a break, indented from inside a line and then laid out at the
      start of one, or the other way about: the two readings of its first line do not cancel. */
  lemma LayMixed(s: string, n: nat, k: nat)
    requires s != "" && s[0] != '\n'
    ensures Lay(Lay(s, true, n), false, k) == Spaces(n) + Lay(s, false, n + k)
    ensures Lay(Lay(s, false, n), true, k) == Spaces(k) + Lay(s, false, n + k)
  {
    LayTwice(s[1..], false, n, k);
    var rest := [s[0]] + Lay(s[1..], false, n);
    assert Lay(s, true, n) == Spaces(n) + rest;
    LayPadding(n, rest, k);
  }

  /** A text that opens on a break is laid out the same from either state. */
  lemma LayLeading(s: string, k: int)
    requires s == "" || s[0] == '\n'
    ensures Lay(s, true, k) == Lay(s, false, k)
  {
  }

  /** Taking the opening break off is the same before the layout and after it. */
  lemma LayWithoutLead(s: string, atStart: bool, k: int)
    requires Leads(s)
    ensures Lay(s, atStart, k)[1..] == Lay(s[1..], true, k)
  {
  }

  // ---------------------------------------------------------------- writing, as a state

  /** A writer: what is out, and whether nothing stands yet on its last line. */
  datatype Writer = Writer(out: string, atLineStart: bool)

  /** One character written with k columns in force. */
  function Put(w: Writer, c: char, k: int): Writer {
    if c == '\n' then Writer(w.out + "\n", true)
    else Writer((if w.atLineStart then w.out + Spaces(k) else w.out) + [c], false)
  }

  function Write(w: Writer, s: string, k: int): Writer
    decreases |s|
  {
    if s == "" then w else Write(Put(w, s[0], k), s[1..], k)
  }

  lemma Assoc(a: string, b: string, c: string)
    ensures (a + b) + c == a + (b + c)
  {
  }

  /** Writing s adds Lay of s, and nothing else. */
  lemma {:induction false} WriteIsLay(w: Writer, s: string, k: int)
    ensures Write(w, s, k) == Writer(w.out + Lay(s, w.atLineStart, k), After(s, w.atLineStart))
    decreases |s|
  {
    if s == "" {
      assert w.out + "" == w.out;
    } else {
      var w' := Put(w, s[0], k);
      WriteIsLay(w', s[1..], k);
      AfterTail(s, w.atLineStart);
      var tail := Lay(s[1..], w'.atLineStart, k);
      if s[0] == '\n' {
        Assoc(w.out, "\n", tail);
      } else if w.atLineStart {
        Assoc(w.out, Spaces(k), [s[0]]);
        Assoc(w.out, Spaces(k) + [s[0]], tail);
      } else {
        Assoc(w.out, [s[0]], tail);
        assert "" + [s[0]] == [s[0]];
      }
    }
  }

  lemma {:induction false} WriteConcat(w: Writer, a: string, b: string, k: int)
    ensures Write(w, a + b, k) == Write(Write(w, a, k), b, k)
    decreases |a|
  {
    if a == "" {
      assert a + b == b;
    } else {
      assert (a + b)[0] == a[0] && (a + b)[1..] == a[1..] + b;
      WriteConcat(Put(w, a[0], k), a[1..], b, k);
    }
  }

  /** A text with no break in it: the indentation once, then the text. */
  lemma WriteLine(w: Writer, s: string, k: int)
    requires s != "" && '\n' !in s
    ensures Write(w, s, k) == Writer((if w.atLineStart then w.out + Spaces(k) else w.out) + s, false)
  {
    WriteIsLay(w, s, k);
    LayNoBreak(s, w.atLineStart, k);
    assert s[|s| - 1] in s;
    assert (w.out + Spaces(k)) + s == w.out + (Spaces(k) + s);
  }

  // ---------------------------------------------------------------- lines

  /** strings.Split(s, "\n"): one more line than s has breaks. */
  function Split(s: string): (lines: seq<string>)
    ensures |lines| > 0
    ensures forall i :: 0 <= i < |lines| ==> '\n' !in lines[i]
  {
    if s == "" then [""]
    else
      var rest := Split(s[1..]);
      if s[0] == '\n' then [""] + rest else [[s[0]] + rest[0]] + rest[1..]
  }

  /** strings.Join(lines, "\n"). */
  function Join(lines: seq<string>): string
    requires |lines| > 0
  {
    if |lines| == 1 then lines[0] else lines[0] + "\n" + Join(lines[1..])
  }

  lemma {:induction false} JoinSplit(s: string)
    ensures Join(Split(s)) == s
  {
    if s != "" {
      JoinSplit(s[1..]);
      var rest := Split(s[1..]);
      if s[0] == '\n' {
        assert ([""] + rest)[1..] == rest;
        assert "" + "\n" + Join(rest) == s;
      } else {
        var lines := [[s[0]] + rest[0]] + rest[1..];
        assert lines[1..] == rest[1..];
        if |rest| > 1 {
          assert Join(lines) == [s[0]] + rest[0] + "\n" + Join(rest[1..]);
        }
      }
    }
  }

  ghost predicate NoBreaks(lines: seq<string>) {
    forall i :: 0 <= i < |lines| ==> '\n' !in lines[i]
  }

  lemma {:induction false} SplitJoin(lines: seq<string>)
    requires |lines| > 0 && NoBreaks(lines)
    ensures Split(Join(lines)) == lines
    decreases |lines|, |lines[0]|
  {
    if lines[0] != "" {
      var shorter := [lines[0][1..]] + lines[1..];
      assert '\n' !in lines[0];
      SplitJoin(shorter);
      SplitContent(lines[0], shorter, Join(lines));
    } else if |lines| > 1 {
      SplitJoin(lines[1..]);
      SplitBreak(lines[1..], Join(lines));
      assert [""] + lines[1..] == lines;
    }
  }

  /** A break in front of a text puts an empty line in front of its lines. */
  lemma SplitBreak(rest: seq<string>, text: string)
    requires |rest| > 0 && text == "" + "\n" + Join(rest) && Split(Join(rest)) == rest
    ensures Split(text) == [""] + rest
  {
    assert text[1..] == Join(rest);
  }

  /** A character of content in front of a text goes to the front of its first line. */
  lemma SplitContent(line: string, shorter: seq<string>, text: string)
    requires line != "" && line[0] != '\n' && |shorter| > 0 && shorter[0] == line[1..]
    requires Split(Join(shorter)) == shorter
    requires text == Join([line] + shorter[1..])
    ensures Split(text) == [line] + shorter[1..]
  {
    assert ([line] + shorter[1..])[1..] == shorter[1..];
    assert text == [line[0]] + Join(shorter);
    assert text[1..] == Join(shorter);
    assert [line[0]] + shorter[0] == line;
  }

  /** The line as indentLinesWith leaves it. */
  function Padded(line: string, spaces: int): string {
    if line == "" then "" else Spaces(spaces) + line
  }

  function PadAll(lines: seq<string>, spaces: int): (r: seq<string>)
    ensures |r| == |lines|
    ensures forall i :: 0 <= i < |lines| ==> r[i] == Padded(lines[i], spaces)
  {
    seq(|lines|, i requires 0 <= i < |lines| => Padded(lines[i], spaces))
  }

  /** Padding the lines and joining them is Lay, from the start of a line. */
  lemma {:induction false} JoinPadded(lines: seq<string>, spaces: int)
    requires |lines| > 0
    requires forall i :: 0 <= i < |lines| ==> '\n' !in lines[i]
    ensures Join(PadAll(lines, spaces)) == Lay(Join(lines), true, spaces)
  {
    LayNoBreak(lines[0], true, spaces);
    if |lines| > 1 {
      JoinPadded(lines[1..], spaces);
      assert PadAll(lines, spaces)[1..] == PadAll(lines[1..], spaces);
      LayConcat(lines[0] + "\n", Join(lines[1..]), true, spaces);
      LayConcat(lines[0], "\n", true, spaces);
    }
  }

  /** indentLines: every line with content shifted, blank lines left empty. */
  method IndentLines(text: string, spaces: int) returns (r: string)
    ensures r == Lay(text, true, spaces)
  {
    if spaces <= 0 || text == "" {
      LayNothing(text, true, 0);
      if spaces <= 0 { LayNothing(text, true, spaces); }
      return text;
    }
    var pad := Spaces(spaces);
    var lines := Split(text);
    ghost var was := lines;
    for i := 0 to |lines|
      invariant |lines| == |was|
      invariant forall j :: 0 <= j < i ==> lines[j] == Padded(was[j], spaces)
      invariant forall j :: i <= j < |was| ==> lines[j] == was[j]
    {
      if lines[i] != "" {
        lines := lines[i := pad + lines[i]];
      }
    }
    assert lines == PadAll(was, spaces);
    JoinPadded(was, spaces);
    JoinSplit(text);
    return Join(lines);
  }

  /** Where the first break of s stands, and |s| where it has none. */
  function BreakAt(s: string): (i: nat)
    ensures i <= |s| && (forall j :: 0 <= j < i ==> s[j] != '\n')
    ensures i < |s| ==> s[i] == '\n'
  {
    if s == "" || s[0] == '\n' then 0 else BreakAt(s[1..]) + 1
  }

  /** A text laid out from inside a line: its first line as it stands, the lines under it indented. */
  lemma LayHanging(first: string, rest: string, k: int)
    requires forall j :: 0 <= j < |first| ==> first[j] != '\n'
    ensures Lay(first, false, k) == first
    ensures Lay(first + "\n" + rest, false, k) == first + "\n" + Lay(rest, true, k)
  {
    LayNoBreak(first, false, k);
    Assoc(first, "\n", rest);
    LayConcat(first, "\n" + rest, false, k);
    LayBreak(rest, After(first, false), k);
    Assoc(first, "\n", Lay(rest, true, k));
  }

  /** hangingIndent: every line but the first. */
  method HangingIndent(text: string, spaces: int) returns (r: string)
    ensures r == Lay(text, false, spaces)
  {
    var cut := BreakAt(text);
    var first := text[..cut];
    if cut == |text| {
      assert first == text;
      LayHanging(first, "", spaces);
      return first;
    }
    var under := text[cut + 1..];
    assert text == first + "\n" + under;
    LayHanging(first, under, spaces);
    var rest := IndentLines(under, spaces);
    return first + "\n" + rest;
  }
}
