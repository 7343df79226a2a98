/** Reading a document by bytes (ast/verbatim.go): lines, spacing, comments and what counts as a node's
    text. A document is a string of bytes, each a char below 256. */
module VerbatimText {
  predicate IsBreak(c: char) {
    c == '\n' || c == '\r'
  }

  predicate IsBlank(c: char) {
    c == ' ' || c == '\t'
  }

  predicate IsSpacing(c: char) {
    IsBlank(c) || IsBreak(c)
  }

  function Min(a: nat, b: nat): nat {
    if a < b then a else b
  }

  function Max(a: nat, b: nat): nat {
    if a < b then b else a
  }

  // ---------------------------------------------------------------- lines

  /** Where the line holding at opens. */
  function LineStart(src: string, at: nat): (r: nat)
    requires at <= |src|
    ensures r <= at && (r == 0 || IsBreak(src[r - 1]))
    ensures forall i :: r <= i < at ==> !IsBreak(src[i])
  {
    if at == 0 || IsBreak(src[at - 1]) then at else LineStart(src, at - 1)
  }

  method FindLineStart(src: string, at: nat) returns (r: nat)
    requires at <= |src|
    ensures r == LineStart(src, at)
  {
    var i := at;
    while i > 0
      invariant 0 <= i <= at && LineStart(src, i) == LineStart(src, at)
    {
      if IsBreak(src[i - 1]) {
        return i;
      }
      i := i - 1;
    }
    return 0;
  }

  /** The first break in src[from..end], or end where there is none. */
  function BreakAt(src: string, from: nat, end: nat): (r: nat)
    requires from <= end <= |src|
    ensures from <= r <= end && (r < end ==> IsBreak(src[r]))
    ensures forall i :: from <= i < r ==> !IsBreak(src[i])
    decreases end - from
  {
    if from == end || IsBreak(src[from]) then from else BreakAt(src, from + 1, end)
  }

  method IndexBreak(src: string, from: nat, end: nat) returns (r: nat)
    requires from <= end <= |src|
    ensures r == BreakAt(src, from, end)
  {
    r := from;
    while r < end
      invariant from <= r <= end && BreakAt(src, r, end) == BreakAt(src, from, end)
    {
      if IsBreak(src[r]) {
        return;
      }
      r := r + 1;
    }
  }

  /** Just past the break standing at i, "\r\n" counted as one. */
  function AfterBreak(src: string, i: nat, end: nat): (r: nat)
    requires i < end <= |src|
    ensures i < r <= end
  {
    if src[i] == '\r' && i + 1 < end && src[i + 1] == '\n' then i + 2 else i + 1
  }

  /** end less the break src[..end] ends on. */
  function WithoutBreak(src: string, end: nat): (r: nat)
    requires end <= |src|
    ensures r <= end <= r + 2 && forall i :: r <= i < end ==> IsBreak(src[i])
  {
    var e := if end > 0 && src[end - 1] == '\n' then end - 1 else end;
    if e > 0 && src[e - 1] == '\r' then e - 1 else e
  }

  // ---------------------------------------------------------------- spacing

  ghost predicate Blanks(src: string, from: nat, end: nat)
    requires end <= |src|
  {
    forall i :: from <= i < end ==> IsBlank(src[i])
  }

  method OnlyBlanks(src: string, from: nat, end: nat) returns (r: bool)
    requires from <= end <= |src|
    ensures r == Blanks(src, from, end)
  {
    for i := from to end
      invariant Blanks(src, from, i)
    {
      if !IsBlank(src[i]) {
        return false;
      }
    }
    return true;
  }

  /** Where the blanks in front of at begin, no further back than lo. */
  function BlankStart(src: string, lo: nat, at: nat): (r: nat)
    requires lo <= at <= |src|
    ensures lo <= r <= at && Blanks(src, r, at) && (r > lo ==> !IsBlank(src[r - 1]))
    decreases at
  {
    if at > lo && IsBlank(src[at - 1]) then BlankStart(src, lo, at - 1) else at
  }

  method FindBlankStart(src: string, lo: nat, at: nat) returns (r: nat)
    requires lo <= at <= |src|
    ensures r == BlankStart(src, lo, at)
  {
    r := at;
    while r > lo && IsBlank(src[r - 1])
      invariant lo <= r <= at && BlankStart(src, lo, r) == BlankStart(src, lo, at)
    {
      r := r - 1;
    }
  }

  /** Where the spacing src[start..end] ends on begins. */
  function TextEnd(src: string, start: nat, end: nat): (r: nat)
    requires start <= end <= |src|
    ensures start <= r <= end && (r > start ==> !IsSpacing(src[r - 1]))
    ensures forall i :: r <= i < end ==> IsSpacing(src[i])
    decreases end
  {
    if end > start && IsSpacing(src[end - 1]) then TextEnd(src, start, end - 1) else end
  }

  method FindTextEnd(src: string, start: nat, end: nat) returns (r: nat)
    requires start <= end <= |src|
    ensures r == TextEnd(src, start, end)
  {
    r := end;
    while r > start && IsSpacing(src[r - 1])
      invariant start <= r <= end && TextEnd(src, start, r) == TextEnd(src, start, end)
    {
      r := r - 1;
    }
  }

  /** Where the blanks from `from` on stop. */
  function BlankEnd(src: string, from: nat, end: nat): (r: nat)
    requires from <= end <= |src|
    ensures from <= r <= end && Blanks(src, from, r) && (r < end ==> !IsBlank(src[r]))
    decreases end - from
  {
    if from < end && IsBlank(src[from]) then BlankEnd(src, from + 1, end) else from
  }

  // ---------------------------------------------------------------- what counts as text

  /** A byte order mark stands just before at. */
  predicate AfterByteOrderMark(src: string, at: nat)
    requires at <= |src|
  {
    at >= 3 && src[at - 3] == '\U{EF}' && src[at - 2] == '\U{BB}' && src[at - 1] == '\U{BF}'
  }

  /** A comment opens at i. */
  predicate OpensComment(src: string, i: nat)
    requires i < |src|
  {
    src[i] == '#' && (i == 0 || IsSpacing(src[i - 1]) || AfterByteOrderMark(src, i))
  }

  /** A "-" with nothing behind it that could belong to it. */
  predicate LooseDash(src: string, i: nat, end: nat)
    requires i < end <= |src|
  {
    src[i] == '-' && (i + 1 == end || IsSpacing(src[i + 1]))
  }

  predicate ByteOrderMarkAt(src: string, i: nat, end: nat)
    requires i < end <= |src|
  {
    src[i] == '\U{EF}' && i + 2 < end && src[i + 1] == '\U{BB}' && src[i + 2] == '\U{BF}'
  }

  /** textIn: src[from..end] holds something besides spacing, commas, comments, byte order marks and,
      where dashes is set, loose "-". */
  predicate TextIn(src: string, from: nat, end: nat, dashes: bool)
    requires end <= |src|
    decreases end - from
  {
    if from >= end then false
    else if IsSpacing(src[from]) || src[from] == ',' then TextIn(src, from + 1, end, dashes)
    else if dashes && LooseDash(src, from, end) then TextIn(src, from + 1, end, dashes)
    else if OpensComment(src, from) then TextIn(src, BreakAt(src, from + 1, end), end, dashes)
    else if ByteOrderMarkAt(src, from, end) then TextIn(src, from + 3, end, dashes)
    else true
  }

  method FindText(src: string, from: nat, end: nat, dashes: bool) returns (r: bool)
    requires end <= |src|
    ensures r == TextIn(src, from, end, dashes)
  {
    var i := from;
    while i < end
      invariant TextIn(src, i, end, dashes) == TextIn(src, from, end, dashes)
      decreases end - i
    {
      if IsSpacing(src[i]) || src[i] == ',' || (dashes && LooseDash(src, i, end)) {
        i := i + 1;
      } else if OpensComment(src, i) {
        i := IndexBreak(src, i + 1, end);
      } else if ByteOrderMarkAt(src, i, end) {
        i := i + 3;
      } else {
        return true;
      }
    }
    return false;
  }

  /** A "..." with nothing after it but spacing and a comment. */
  predicate IsDocumentEnd(line: string) {
    |line| >= 3 && line[..3] == "..." && !TextIn(line, 3, |line|, false)
  }

  /** holdsText, for a tree that does or does not record the "-" of its entries. */
  predicate HoldsText(src: string, from: nat, end: nat, dashes: bool)
    requires end <= |src|
  {
    TextIn(src, from, end, false) && TextIn(src, from, end, dashes)
  }

  /** The line src[at..brk] holds text a node left, a "..." opening its line being none. */
  predicate LineHoldsNode(src: string, at: nat, brk: nat, dashes: bool)
    requires at <= brk <= |src|
  {
    !((at == 0 || IsBreak(src[at - 1])) && IsDocumentEnd(src[at..brk])) && HoldsText(src, at, brk, dashes)
  }

  /** holdsNodeText: some line of src[from..end] does. */
  predicate HoldsNodeText(src: string, from: nat, end: nat, dashes: bool)
    requires end <= |src|
    decreases end - from
  {
    if from >= end then false
    else
      var brk := BreakAt(src, from, end);
      LineHoldsNode(src, from, brk, dashes)
      || (brk < end && HoldsNodeText(src, AfterBreak(src, brk, |src|), end, dashes))
  }

  method FindNodeText(src: string, from: nat, end: nat, dashes: bool) returns (r: bool)
    requires end <= |src|
    ensures r == HoldsNodeText(src, from, end, dashes)
  {
    var at := from;
    while at < end
      invariant HoldsNodeText(src, at, end, dashes) == HoldsNodeText(src, from, end, dashes)
      decreases end - at
    {
      var brk := IndexBreak(src, at, end);
      var marker := (at == 0 || IsBreak(src[at - 1])) && IsDocumentEnd(src[at..brk]);
      if !marker {
        var plain := FindText(src, at, brk, false);
        if plain {
          var text := FindText(src, at, brk, dashes);
          if text {
            return true;
          }
        }
      }
      if brk == end {
        break;
      }
      at := AfterBreak(src, brk, |src|);
    }
    return false;
  }

  lemma {:induction false} SpacingIsNoText(src: string, from: nat, end: nat, dashes: bool)
    requires from <= end <= |src| && forall i :: from <= i < end ==> IsSpacing(src[i])
    ensures !TextIn(src, from, end, dashes)
    decreases end - from
  {
    if from < end {
      SpacingIsNoText(src, from + 1, end, dashes);
    }
  }

  // ---------------------------------------------------------------- text, without the scan

  /** A "#" at j that opens the document, or stands behind a blank, a break or a byte order mark. */
  ghost predicate CommentSign(src: string, j: nat) {
    && j < |src| && src[j] == '#'
    && (j == 0 || src[j - 1] in " \t\n\r" || (j >= 3 && src[j - 3..j] == "\U{EF}\U{BB}\U{BF}"))
  }

  /** A comment opens at j and runs over i. */
  ghost predicate RunsOver(src: string, j: nat, i: nat) {
    j <= i < |src| && CommentSign(src, j) && forall k :: j < k <= i ==> src[k] != '\n' && src[k] != '\r'
  }

  /** Position i stands in a comment that opens in src[from..]. */
  ghost predicate InComment(src: string, from: nat, i: nat) {
    exists j :: from <= j && RunsOver(src, j, i)
  }

  /** The three bytes of a byte order mark. */
  ghost predicate StandsMark(src: string, j: nat, end: nat) {
    j + 3 <= end <= |src| && src[j..j + 3] == "\U{EF}\U{BB}\U{BF}"
  }

  /** Position i is a byte of a byte order mark in src[from..end]. */
  ghost predicate InMark(src: string, from: nat, i: nat, end: nat) {
    exists j :: from <= j <= i < j + 3 && StandsMark(src, j, end)
  }

  /** Position i holds a blank, a break, a comma, or where dashes is set a loose "-". */
  ghost predicate IsLayout(src: string, i: nat, end: nat, dashes: bool)
    requires i < end <= |src|
  {
    src[i] in " \t\n\r," || (dashes && src[i] == '-' && (i + 1 == end || src[i + 1] in " \t\n\r"))
  }

  /** A byte of the stretch that is no layout, and stands in no comment and no byte order mark. */
  ghost predicate IsText(src: string, from: nat, i: nat, end: nat, dashes: bool) {
    from <= i < end <= |src| && !IsLayout(src, i, end, dashes) && !InComment(src, from, i) && !InMark(src, from, i, end)
  }

  /** textIn finds text exactly where there is such a byte. */
  lemma TextIs(src: string, from: nat, end: nat, dashes: bool)
    requires end <= |src|
    ensures TextIn(src, from, end, dashes) <==> exists i :: IsText(src, from, i, end, dashes)
  {
    if exists i :: IsText(src, from, i, end, dashes) {
      var i :| IsText(src, from, i, end, dashes);
      TextFound(src, from, end, dashes, i);
    }
    if TextIn(src, from, end, dashes) { var i := TextAt(src, from, end, dashes); }
  }

  /** A document end marker is "..." with no text behind it. */
  lemma DocumentEndIs(line: string)
    ensures IsDocumentEnd(line)
            <==> |line| >= 3 && line[..3] == "..." && forall i :: !IsText(line, 3, i, |line|, false)
  {
    if |line| >= 3 { TextIs(line, 3, |line|, false); }
  }

  /** Where the scan goes on from `from`, or from itself where it stops on text. */
  ghost function Scanned(src: string, from: nat, end: nat, dashes: bool): (r: nat)
    requires from < end <= |src|
    ensures r >= from
    ensures TextIn(src, from, end, dashes) == if r == from then true else TextIn(src, r, end, dashes)
  {
    if IsSpacing(src[from]) || src[from] == ',' || (dashes && LooseDash(src, from, end)) then from + 1
    else if OpensComment(src, from) then BreakAt(src, from + 1, end)
    else if ByteOrderMarkAt(src, from, end) then from + 3
    else from
  }

  lemma {:induction false} TextFound(src: string, from: nat, end: nat, dashes: bool, i: nat)
    requires IsText(src, from, i, end, dashes)
    ensures TextIn(src, from, end, dashes)
    decreases end - from
  {
    var next := Scanned(src, from, end, dashes);
    if next > from {
      PassedIsNone(src, from, end, dashes, next, i);
      TextFound(src, next, end, dashes, i);
    }
  }

  /** What the scan passes over is no text. */
  lemma PassedIsNone(src: string, from: nat, end: nat, dashes: bool, next: nat, i: nat)
    requires from <= i < end <= |src| && next == Scanned(src, from, end, dashes)
    ensures i < next ==> IsLayout(src, i, end, dashes) || InComment(src, from, i) || InMark(src, from, i, end)
  {
    MarkAt(src, from, end);
    if i < next && !IsLayout(src, from, end, dashes) && OpensComment(src, from) { assert RunsOver(src, from, i); }
  }

  lemma MarkAt(src: string, j: nat, end: nat)
    requires j < end <= |src|
    ensures StandsMark(src, j, end) <==> ByteOrderMarkAt(src, j, end)
  {
    if j + 3 <= end {
      var m := src[j..j + 3];
      assert m[0] == src[j] && m[1] == src[j + 1] && m[2] == src[j + 2];
    }
  }

  lemma {:induction false} TextAt(src: string, from: nat, end: nat, dashes: bool) returns (i: nat)
    requires end <= |src| && TextIn(src, from, end, dashes)
    ensures IsText(src, from, i, end, dashes)
    decreases end - from
  {
    var next := Scanned(src, from, end, dashes);
    if next == from {
      i := from;
      MarkAt(src, from, end);
    } else {
      i := TextAt(src, next, end, dashes);
      CommentFurther(src, from, end, dashes, next, i);
      MarkFurther(src, from, end, dashes, next, i);
    }
  }

  /** A comment or a mark over a place further on opens further on. */
  lemma CommentFurther(src: string, from: nat, end: nat, dashes: bool, next: nat, i: nat)
    requires from < end <= |src| && next == Scanned(src, from, end, dashes) <= i < end && next > from
    ensures InComment(src, from, i) ==> InComment(src, next, i)
  {
    if InComment(src, from, i) {
      var j :| from <= j && RunsOver(src, j, i);
      OpensFurther(src, from, end, dashes, next, i, j);
    }
  }

  lemma OpensFurther(src: string, from: nat, end: nat, dashes: bool, next: nat, i: nat, j: nat)
    requires from < end <= |src| && next == Scanned(src, from, end, dashes) <= i < end && next > from
    requires from <= j && RunsOver(src, j, i)
    ensures next <= j
  {
  }

  lemma MarkFurther(src: string, from: nat, end: nat, dashes: bool, next: nat, i: nat)
    requires from < end <= |src| && next == Scanned(src, from, end, dashes) <= i < end && next > from
    ensures InMark(src, from, i, end) ==> InMark(src, next, i, end)
  {
    if InMark(src, from, i, end) {
      var j :| from <= j <= i < j + 3 && StandsMark(src, j, end);
      MarkAt(src, j, end);
      MarkOpens(src, from, end, dashes, next, i, j);
    }
  }

  lemma MarkOpens(src: string, from: nat, end: nat, dashes: bool, next: nat, i: nat, j: nat)
    requires from < end <= |src| && next == Scanned(src, from, end, dashes) <= i < end && next > from
    requires from <= j <= i < j + 3 && j < end && ByteOrderMarkAt(src, j, end)
    ensures next <= j
  {
  }
}
