/** Numbers respelled (codec/tojson.go): what JSON accepts as a number, and a YAML decimal float written
    as one. */
module JsonNumber {

  datatype Option<+T> = None | Some(value: T)

  predicate Digit(c: char) { '0' <= c <= '9' }

  predicate AllDigits(s: string) { forall i :: 0 <= i < |s| ==> Digit(s[i]) }

  /** A decimal number taken apart: its sign, the digits before the point, the point and the digits
      after it, and the exponent with its mark. */
  datatype Num = Num(sign: string, whole: string, point: bool, frac: string, exp: string)

  function Text(n: Num): string {
    n.sign + (n.whole + (Point(n) + n.exp))
  }

  function Point(n: Num): string {
    if n.point then "." + n.frac else ""
  }

  predicate Exponent(s: string) {
    s == "" ||
    (s[0] in "eE" &&
     if |s| > 1 && s[1] in "+-" then s[2..] != "" && AllDigits(s[2..])
     else s[1..] != "" && AllDigits(s[1..]))
  }

  /** The shape all the grammars share: any of the digits may be missing. */
  predicate Loose(n: Num) {
    && n.sign in ["", "+", "-"]
    && AllDigits(n.whole) && AllDigits(n.frac)
    && (!n.point ==> n.frac == "")
    && Exponent(n.exp)
  }

  /** Section 6 of RFC 8259. */
  predicate Json(n: Num) {
    && Loose(n)
    && n.sign != "+"
    && n.whole != "" && (|n.whole| > 1 ==> n.whole[0] != '0')
    && (n.point ==> n.frac != "")
  }

  /** The float production of section 10.3.2 of YAML 1.2.2. */
  predicate YamlFloat(n: Num) {
    Loose(n) && (n.whole != "" || n.frac != "")
  }

  ghost predicate JsonNumber(text: string) {
    exists n :: Json(n) && Text(n) == text
  }

  // ---------------------------------------------------------------- reading a number

  /** How many digits s opens with. */
  function Run(s: string): (n: nat)
    ensures n <= |s| && (forall j :: 0 <= j < n ==> Digit(s[j]))
    ensures n < |s| ==> !Digit(s[n])
  {
    if s == "" || !Digit(s[0]) then 0 else Run(s[1..]) + 1
  }

  function SignOf(s: string): (r: string)
    ensures |r| <= |s| && s[..|r|] == r && r in ["", "+", "-"]
  {
    if s != "" && s[0] in "+-" then [s[0]] else ""
  }

  /** What stands after the digits before the point, taken apart. */
  function Tail(s: string): (bool, string, string) {
    if s != "" && s[0] == '.' then (true, s[1..][..Run(s[1..])], s[1..][Run(s[1..])..])
    else (false, "", s)
  }

  function Taken(text: string): Num {
    var s := text[|SignOf(text)|..];
    var t := Tail(s[Run(s)..]);
    Num(SignOf(text), s[..Run(s)], t.0, t.1, t.2)
  }

  predicate Stops(s: string) { s == "" || !Digit(s[0]) }

  lemma {:induction false} RunOver(a: string, rest: string)
    requires AllDigits(a) && Stops(rest)
    ensures Run(a + rest) == |a|
    ensures (a + rest)[..|a|] == a && (a + rest)[|a|..] == rest
  {
    if a == "" {
      assert a + rest == rest;
    } else {
      assert (a + rest)[1..] == a[1..] + rest;
      RunOver(a[1..], rest);
    }
  }

  lemma TailOver(n: Num)
    requires Loose(n)
    ensures Tail(Point(n) + n.exp) == (n.point, n.frac, n.exp)
    ensures Stops(Point(n) + n.exp)
  {
    var s := Point(n) + n.exp;
    if n.point {
      assert s[1..] == n.frac + n.exp;
      RunOver(n.frac, n.exp);
    } else {
      assert s == n.exp;
    }
  }

  /** A sign, digits and what follows them, taken apart. */
  lemma TakenParts(sign: string, whole: string, tail: string)
    requires sign in ["", "+", "-"] && AllDigits(whole) && Stops(tail)
    requires sign == "" && whole == "" && tail != "" ==> tail[0] !in "+-"
    ensures Taken(sign + (whole + tail)) == Num(sign, whole, Tail(tail).0, Tail(tail).1, Tail(tail).2)
  {
    var body := whole + tail;
    var text := sign + body;
    RunOver(whole, tail);
    assert text[|sign|..] == body;
    assert whole != "" ==> body[0] == whole[0];
    assert whole == "" ==> body == tail;
    assert sign == "" ==> text == body;
    assert SignOf(text) == sign;
  }

  /** A text is taken apart in one way only. */
  lemma TakenOver(n: Num)
    requires Loose(n)
    ensures Taken(Text(n)) == n
  {
    TailOver(n);
    var tail := Point(n) + n.exp;
    assert tail != "" ==> tail[0] == if n.point then '.' else n.exp[0];
    TakenParts(n.sign, n.whole, tail);
  }

  lemma TailText(s: string)
    ensures var t := Tail(s); Point(Num("", "", t.0, t.1, t.2)) + t.2 == s
  {
    if s != "" && s[0] == '.' {
      assert s == "." + s[1..];
      var r := Run(s[1..]);
      assert s[1..] == s[1..][..r] + s[1..][r..];
      Assoc(".", s[1..][..r], s[1..][r..]);
    }
  }

  lemma Assoc(a: string, b: string, c: string)
    ensures (a + b) + c == a + (b + c)
  {
  }

  /** And gives the text back. */
  lemma TextOfTaken(text: string)
    ensures Text(Taken(text)) == text
  {
    var n := Taken(text);
    var s := text[|SignOf(text)|..];
    TailText(s[Run(s)..]);
    Rejoin(s, Run(s));
    Rejoin(text, |SignOf(text)|);
  }

  lemma Rejoin(s: string, i: nat)
    requires i <= |s|
    ensures s[..i] + s[i..] == s
  {
  }

  /** Taken apart, only the exponent can be wrong. */
  lemma TakenShape(text: string)
    ensures var n := Taken(text);
            && n.sign in ["", "+", "-"] && AllDigits(n.whole) && AllDigits(n.frac) && (!n.point ==> n.frac == "")
            && Stops(n.exp) && (!n.point ==> n.exp == "" || n.exp[0] != '.')
            && (Loose(n) <==> Exponent(n.exp))
  {
    var s := text[|SignOf(text)|..];
    var t := s[Run(s)..];
    assert AllDigits(s[..Run(s)]);
    if t != "" && t[0] == '.' { assert AllDigits(t[1..][..Run(t[1..])]); }
  }

  lemma JsonTaken(text: string)
    ensures JsonNumber(text) == Json(Taken(text))
  {
    if Json(Taken(text)) { TextOfTaken(text); }
    if JsonNumber(text) {
      var n :| Json(n) && Text(n) == text;
      TakenOver(n);
    }
  }

  // ---------------------------------------------------------------- isJSONNumber

  /** digitsFrom: where the digits from i on end, -1 where there are none. */
  method DigitsFrom(text: string, start: nat) returns (end: int)
    requires start <= |text|
    ensures end == if Run(text[start..]) == 0 then -1 else start + Run(text[start..])
  {
    var i := start;
    while i < |text| && Digit(text[i])
      invariant start <= i <= |text|
      invariant i + Run(text[i..]) == start + Run(text[start..])
    {
      assert text[i..][1..] == text[i + 1..];
      i := i + 1;
    }
    if i == start {
      return -1;
    }
    return i;
  }

  /** The grammar read from the left: what may follow the digits before the point. */
  predicate FractionAndExponent(s: string) {
    if s != "" && s[0] == '.' then Run(s[1..]) > 0 && Exponent(s[1..][Run(s[1..])..]) else Exponent(s)
  }

  predicate Unsigned(s: string) {
    Run(s) > 0 && !(Run(s) > 1 && s[0] == '0') && FractionAndExponent(s[Run(s)..])
  }

  predicate Numeral(text: string) {
    Unsigned(if text != "" && text[0] == '-' then text[1..] else text)
  }

  lemma NumeralIsJson(text: string)
    ensures Numeral(text) == JsonNumber(text)
  {
    JsonTaken(text);
    TakenShape(text);
    UnsignedIsJson(text, text[|SignOf(text)|..]);
  }

  lemma UnsignedIsJson(text: string, s: string)
    requires s == text[|SignOf(text)|..]
    requires Loose(Taken(text)) <==> Exponent(Taken(text).exp)
    ensures Numeral(text) == Json(Taken(text))
  {
    var n := Taken(text);
    assert FractionAndExponent(s[Run(s)..]) == ((n.point ==> n.frac != "") && Exponent(n.exp));
    assert n.whole == s[..Run(s)];
    if SignOf(text) == "+" {
      assert Run(text) == 0;
    } else if SignOf(text) == "" {
      assert s == text;
    }
  }

  // ---------------------------------------------------------------- the grammar as an automaton

  /** How far into a number of section 6 of RFC 8259 a reader is, character by character. */
  datatype Stage = AtStart | AtSign | AtZero | InWhole | AtPoint | InFrac | AtMark | AtMarkSign | InExp | Off

  predicate CodeOfDigit(c: char) {
    0x30 <= c as int <= 0x39
  }

  function OffZero(c: char): Stage {
    if c as int == 0x2e then AtPoint else if c as int == 0x65 || c as int == 0x45 then AtMark else Off
  }

  function Next(s: Stage, c: char): Stage {
    match s
    case AtStart =>
      if c as int == 0x2d then AtSign else if c as int == 0x30 then AtZero else if CodeOfDigit(c) then InWhole else Off
    case AtSign => if c as int == 0x30 then AtZero else if CodeOfDigit(c) then InWhole else Off
    case AtZero => OffZero(c)
    case InWhole => if CodeOfDigit(c) then InWhole else OffZero(c)
    case AtPoint => if CodeOfDigit(c) then InFrac else Off
    case InFrac =>
      if CodeOfDigit(c) then InFrac else if c as int == 0x65 || c as int == 0x45 then AtMark else Off
    case AtMark => if c as int == 0x2b || c as int == 0x2d then AtMarkSign else if CodeOfDigit(c) then InExp else Off
    case AtMarkSign => if CodeOfDigit(c) then InExp else Off
    case InExp => if CodeOfDigit(c) then InExp else Off
    case Off => Off
  }

  /** The stages a number may end in. */
  predicate MayEnd(s: Stage) {
    s in {AtZero, InWhole, InFrac, InExp}
  }

  predicate EndsWell(s: Stage, text: string)
    decreases |text|
  {
    if text == "" then MayEnd(s) else EndsWell(Next(s, text[0]), text[1..])
  }

  lemma {:induction false} OffForGood(text: string)
    ensures !EndsWell(Off, text)
    decreases |text|
  {
    if text != "" { OffForGood(text[1..]); }
  }

  lemma {:induction false} ExpEnds(s: string)
    ensures EndsWell(InExp, s) <==> AllDigits(s)
    decreases |s|
  {
    if s != "" {
      ExpEnds(s[1..]);
      OffForGood(s[1..]);
      assert AllDigits(s) <==> Digit(s[0]) && AllDigits(s[1..]) by {
        if AllDigits(s[1..]) && Digit(s[0]) {
          forall i | 0 <= i < |s| ensures Digit(s[i]) { if i > 0 { assert s[i] == s[1..][i - 1]; } }
        }
      }
    }
  }

  /** From behind the exponent's mark. */
  lemma MarkEnds(s: string)
    ensures EndsWell(AtMark, s)
            <==> if s != "" && s[0] in "+-" then s[1..] != "" && AllDigits(s[1..]) else s != "" && AllDigits(s)
  {
    if s != "" {
      var more := s[1..];
      ExpEnds(s);
      OffForGood(more);
      if s[0] in "+-" {
        assert Next(AtMark, s[0]) == AtMarkSign;
        ExpEnds(more);
        if more != "" { OffForGood(more[1..]); }
      } else if Digit(s[0]) {
        assert Next(AtMark, s[0]) == Next(InExp, s[0]);
      }
    }
  }

  lemma ExponentEnds(s: string)
    ensures s != "" && s[0] in "eE" ==> (EndsWell(AtMark, s[1..]) <==> Exponent(s))
  {
    if s != "" && s[0] in "eE" {
      MarkEnds(s[1..]);
      if |s| > 1 { assert s[1..][0] == s[1] && s[1..][1..] == s[2..]; }
    }
  }

  lemma {:induction false} FracEnds(s: string)
    ensures EndsWell(InFrac, s) <==> Exponent(s[Run(s)..])
    decreases |s|
  {
    if s != "" {
      if Digit(s[0]) {
        FracEnds(s[1..]);
        assert s[Run(s)..] == s[1..][Run(s[1..])..];
      } else {
        ExponentEnds(s);
        OffForGood(s[1..]);
      }
    }
  }

  /** From behind the point. */
  lemma PointEnds(s: string)
    ensures EndsWell(AtPoint, s) <==> Run(s) > 0 && Exponent(s[Run(s)..])
  {
    if s != "" {
      FracEnds(s);
      FracEnds(s[1..]);
      OffForGood(s[1..]);
    }
  }

  lemma ZeroEnds(s: string)
    ensures EndsWell(AtZero, s) <==> FractionAndExponent(s)
  {
    if s != "" {
      PointEnds(s[1..]);
      ExponentEnds(s);
      OffForGood(s[1..]);
    }
  }

  lemma {:induction false} WholeEnds(s: string)
    ensures EndsWell(InWhole, s) <==> FractionAndExponent(s[Run(s)..])
    decreases |s|
  {
    if s != "" {
      if Digit(s[0]) {
        WholeEnds(s[1..]);
        assert s[Run(s)..] == s[1..][Run(s[1..])..];
      } else {
        ZeroEnds(s);
      }
    }
  }

  lemma SignEnds(s: string)
    ensures EndsWell(AtSign, s) <==> Unsigned(s)
  {
    if s != "" {
      if s[0] == '0' {
        ZeroEnds(s[1..]);
        var n := Run(s[1..]);
        assert Run(s) == n + 1 && s[Run(s)..] == s[1..][n..];
        if n > 0 { assert Digit(s[1..][0]); }
      } else if Digit(s[0]) {
        WholeEnds(s[1..]);
        assert s[Run(s)..] == s[1..][Run(s[1..])..];
      } else {
        OffForGood(s[1..]);
      }
    }
  }

  /** The numbers of RFC 8259 are those the automaton ends well on. */
  lemma NumberByStages(text: string)
    ensures JsonNumber(text) <==> EndsWell(AtStart, text)
  {
    NumeralIsJson(text);
    SignEnds(text);
    if text != "" { SignEnds(text[1..]); }
  }

  /** isJSONNumber accepts exactly the numbers of RFC 8259. */
  method IsJSONNumber(text: string) returns (ok: bool)
    ensures ok == JsonNumber(text) == EndsWell(AtStart, text)
  {
    NumeralIsJson(text);
    NumberByStages(text);
    var i := 0;
    if i < |text| && text[i] == '-' {
      i := i + 1;
    }
    assert Numeral(text) == Unsigned(text[i..]) by { assert text[0..] == text; }
    ok := AcceptsUnsigned(text, i);
  }

  /** The loop over the digits before the point. */
  method SkipDigits(text: string, start: nat) returns (i: nat)
    requires start <= |text|
    ensures start <= i <= |text| && i == start + Run(text[start..])
  {
    i := start;
    while i < |text| && Digit(text[i])
      invariant start <= i <= |text|
      invariant i + Run(text[i..]) == start + Run(text[start..])
    {
      assert text[i..][1..] == text[i + 1..];
      i := i + 1;
    }
  }

  /** What follows the sign. */
  method AcceptsUnsigned(text: string, start: nat) returns (ok: bool)
    requires start <= |text|
    ensures ok == Unsigned(text[start..])
  {
    var i := SkipDigits(text, start);
    ghost var s := text[start..];
    assert Run(s) == i - start && (s != "" ==> s[0] == text[start]);
    if i == start || (i - start > 1 && text[start] == '0') {
      return false;
    }
    assert s[Run(s)..] == text[i..];
    ok := AcceptsTail(text, i);
  }

  /** The rest of isJSONNumber, from where the digits before the point end. */
  method AcceptsTail(text: string, start: nat) returns (ok: bool)
    requires start <= |text|
    ensures ok == FractionAndExponent(text[start..])
  {
    var i: int := start;
    if i < |text| && text[i] == '.' {
      i := i + 1;
      assert text[start..][1..] == text[start + 1..];
      i := DigitsFrom(text, i);
      if i < 0 {
        return false;
      }
      assert text[start + 1..][i - start - 1..] == text[i..];
    }
    assert FractionAndExponent(text[start..]) == Exponent(text[i..]);
    ok := AcceptsExponent(text, i);
  }

  method AcceptsExponent(text: string, start: nat) returns (ok: bool)
    requires start <= |text|
    ensures ok == Exponent(text[start..])
  {
    var i: int := start;
    if i < |text| && text[i] in "eE" {
      i := i + 1;
      if i < |text| && text[i] in "+-" {
        i := i + 1;
      }
      assert text[start..][i - start..] == text[i..];
      ExponentRun(text[start..], text[i..]);
      i := DigitsFrom(text, i);
      if i < 0 {
        return false;
      }
    }
    return i == |text|;
  }

  /** An exponent's digits are all of what follows its mark and sign. */
  lemma ExponentRun(s: string, digits: string)
    requires s != "" && s[0] in "eE"
    requires digits == if |s| > 1 && s[1] in "+-" then s[2..] else s[1..]
    ensures Exponent(s) <==> Run(digits) > 0 && Run(digits) == |digits|
  {
    if digits != "" && AllDigits(digits) {
      RunOver(digits, "");
      assert digits + "" == digits;
    }
    if Run(digits) == |digits| { assert digits[..|digits|] == digits; }
  }

  // ---------------------------------------------------------------- jsonNumberText

  /** strings.ReplaceAll(text, "_", ""). */
  function WithoutUnderscores(text: string): string {
    if text == "" then "" else (if text[0] == '_' then "" else [text[0]]) + WithoutUnderscores(text[1..])
  }

  /** Every "_" goes and nothing else, wherever the text is cut. */
  lemma {:induction false} UnderscoresGone(a: string, b: string)
    ensures WithoutUnderscores(a + b) == WithoutUnderscores(a) + WithoutUnderscores(b)
    ensures forall c :: WithoutUnderscores([c]) == if c as int == 0x5f then "" else [c]
    decreases |a|
  {
    forall c ensures WithoutUnderscores([c]) == if c as int == 0x5f then "" else [c] {
      assert [c][1..] == "";
    }
    if a == "" {
      assert a + b == b;
    } else {
      assert (a + b)[1..] == a[1..] + b;
      UnderscoresGone(a[1..], b);
    }
  }

  /** strings.TrimLeft(s, "0"). */
  function Trimmed(s: string): (r: string)
    ensures AllDigits(s) ==> AllDigits(r)
    ensures r != "" ==> r[0] != '0'
  {
    if s != "" && s[0] == '0' then Trimmed(s[1..]) else s
  }

  function Whole(s: string): string {
    if Trimmed(s) == "" then "0" else Trimmed(s)
  }

  /** The number JSON spells n as: no "+", one digit at least and no leading zero before the point, and
      no point with nothing after it. */
  function Respelled(n: Num): Num {
    Num(if n.sign == "-" then "-" else "", Whole(n.whole), n.frac != "", n.frac, n.exp)
  }

  /** jsonNumberText: what is written is the text taken apart and respelled. */
  method JsonNumberText(text: string) returns (out: string, ok: bool)
    ensures out == Text(Respelled(Taken(WithoutUnderscores(text))))
    ensures ok <==> JsonNumber(out)
  {
    var s := WithoutUnderscores(text);
    ghost var n := Taken(s);
    var b := "";
    if s != "" && s[0] in "+-" {
      if s[0] == '-' {
        b := b + "-";
      }
      s := s[1..];
    }
    assert s == WithoutUnderscores(text)[|n.sign|..];
    var i := DigitsEnd(s);
    var whole := Trimmed(s[..i]);
    if whole == "" {
      whole := "0";
    }
    var tail := WithPoint(s[i..]);
    out := b + whole + tail;
    RespelledText(n, b, whole, tail);
    ok := IsJSONNumber(out);
  }

  method DigitsEnd(s: string) returns (i: nat)
    ensures i == Run(s)
  {
    i := 0;
    while i < |s| && Digit(s[i])
      invariant 0 <= i <= |s|
      invariant i + Run(s[i..]) == Run(s)
    {
      assert s[i..][1..] == s[i + 1..];
      i := i + 1;
    }
  }

  lemma RespelledText(n: Num, sign: string, whole: string, tail: string)
    requires sign == Respelled(n).sign && whole == Whole(n.whole)
    requires tail == Point(Num("", "", n.frac != "", n.frac, n.exp)) + n.exp
    ensures sign + whole + tail == Text(Respelled(n))
  {
    Assoc(sign, whole, tail);
  }

  /** The tail without a point that has nothing after it. */
  method WithPoint(tail: string) returns (out: string)
    ensures var t := Tail(tail); out == Point(Num("", "", t.1 != "", t.1, t.2)) + t.2
  {
    var s := tail;
    out := "";
    if s != "" && s[0] == '.' {
      var j := 1;
      while j < |s| && Digit(s[j])
        invariant 1 <= j <= |s|
        invariant j + Run(s[j..]) == 1 + Run(s[1..])
      {
        assert s[j..][1..] == s[j + 1..];
        j := j + 1;
      }
      assert s[1..][j - 1..] == s[j..] && s[1..][..j - 1] == s[1..j];
      if j > 1 {
        out := out + s[..j];
        assert s[..j] == "." + s[1..j];
      }
      s := s[j..];
    }
    out := out + s;
  }

  /** The case it takes beyond its grammar: a second point, with digits after it, where the first has
      none. The first is dropped and the second read in its place. */
  predicate SecondPoint(n: Num) {
    && n.sign in ["", "+", "-"] && AllDigits(n.whole) && n.point && n.frac == ""
    && n.exp != "" && n.exp[0] == '.' && Run(n.exp[1..]) > 0 && Exponent(n.exp[1..][Run(n.exp[1..])..])
  }

  /** Exactly which texts jsonNumberText gives a number for. */
  lemma RespelledIsJson(text: string)
    ensures var n := Taken(WithoutUnderscores(text));
            JsonNumber(Text(Respelled(n))) == (Loose(n) || SecondPoint(n))
  {
    var n := Taken(WithoutUnderscores(text));
    TakenShape(WithoutUnderscores(text));
    RespelledTaken(n);
    JsonTaken(Text(Respelled(n)));
    TakenShape(Text(Respelled(n)));
    JsonOfRespelled(n, Taken(Text(Respelled(n))));
  }

  lemma JsonOfRespelled(n: Num, t: Num)
    requires n.sign in ["", "+", "-"] && AllDigits(n.whole) && AllDigits(n.frac) && (!n.point ==> n.frac == "")
    requires !n.point ==> n.exp == "" || n.exp[0] != '.'
    requires Loose(n) <==> Exponent(n.exp)
    requires Loose(t) <==> Exponent(t.exp)
    requires t.sign == Respelled(n).sign && t.whole == Respelled(n).whole
    requires if n.frac != "" || n.exp == "" || n.exp[0] != '.' then t == Respelled(n)
             else t.point && t.frac == n.exp[1..][..Run(n.exp[1..])] && t.exp == n.exp[1..][Run(n.exp[1..])..]
    ensures Json(t) == (Loose(n) || SecondPoint(n))
  {
    assert Whole(n.whole) != "" && (|Whole(n.whole)| > 1 ==> Whole(n.whole)[0] != '0');
  }

  /** A respelled text read again: the same but for a tail that opens on a point of its own. */
  lemma RespelledTaken(n: Num)
    requires n.sign in ["", "+", "-"] && AllDigits(n.whole) && AllDigits(n.frac) && (!n.point ==> n.frac == "")
    requires Stops(n.exp) && (!n.point ==> n.exp == "" || n.exp[0] != '.')
    ensures var r := Respelled(n);
            var t := Taken(Text(r));
            && t.sign == r.sign && t.whole == r.whole
            && (if r.point || n.exp == "" || n.exp[0] != '.' then t == r
                else t.point && t.frac == n.exp[1..][..Run(n.exp[1..])] && t.exp == n.exp[1..][Run(n.exp[1..])..])
  {
    var r := Respelled(n);
    var tail := Point(r) + r.exp;
    RespelledTail(n, r, tail);
    TakenParts(r.sign, r.whole, tail);
  }

  lemma RespelledTail(n: Num, r: Num, tail: string)
    requires AllDigits(n.frac) && (!n.point ==> n.frac == "") && r == Respelled(n) && tail == Point(r) + r.exp
    requires Stops(n.exp) && (!n.point ==> n.exp == "" || n.exp[0] != '.')
    ensures Stops(tail) && (tail != "" ==> tail[0] !in "+-" || r.whole != "")
    ensures Tail(tail) == if r.point || n.exp == "" || n.exp[0] != '.' then (r.point, r.frac, r.exp)
                          else (true, n.exp[1..][..Run(n.exp[1..])], n.exp[1..][Run(n.exp[1..])..])
  {
    if r.point {
      assert tail[1..] == r.frac + r.exp;
      RunOver(r.frac, r.exp);
    } else {
      assert tail == r.exp;
    }
  }

  /** Such a text: digits, two points, digits, as 1..5. */
  lemma SecondPointTaken(whole: string, frac: string)
    requires AllDigits(whole) && AllDigits(frac) && frac != ""
    ensures Taken("" + (whole + (".." + frac))) == Num("", whole, true, "", "." + frac)
    ensures SecondPoint(Num("", whole, true, "", "." + frac))
  {
    var tail := ".." + frac;
    assert tail[1..] == "." + frac;
    TakenParts("", whole, tail);
    SecondDigits("." + frac, frac);
  }

  lemma SecondDigits(exp: string, frac: string)
    requires exp == "." + frac && AllDigits(frac) && frac != ""
    ensures Run(exp[1..]) == |frac| && exp[1..][|frac|..] == ""
  {
    assert exp[1..] == frac && frac + "" == frac;
    RunOver(frac, "");
  }

  /** It comes out with one point, as 1..5 does as 1.5. */
  lemma SecondPointDropped(whole: string, frac: string)
    requires Whole(whole) == whole
    ensures Text(Respelled(Num("", whole, true, "", "." + frac))) == whole + ("." + frac)
  {
    var exp := "." + frac;
    assert "" + exp == exp;
    assert "" + (whole + exp) == whole + exp;
  }

  // ---------------------------------------------------------------- the value

  function Val(s: string): nat
    requires AllDigits(s)
  {
    if s == "" then 0 else 10 * Val(s[..|s| - 1]) + (s[|s| - 1] as int - '0' as int)
  }

  function ExpVal(s: string): int
    requires Exponent(s)
  {
    if s == "" then 0
    else if |s| > 1 && s[1] == '-' then 0 - Val(s[2..])
    else if |s| > 1 && s[1] == '+' then Val(s[2..])
    else Val(s[1..])
  }

  function Pow10(e: int): real
    decreases if e < 0 then -e else e
  {
    if e == 0 then 1.0 else if e > 0 then 10.0 * Pow10(e - 1) else Pow10(e + 1) / 10.0
  }

  /** The rational a decimal denotes: its digits without the point, scaled. */
  function Value(n: Num): real
    requires Loose(n)
  {
    AllDigitsConcat(n.whole, n.frac);
    Scaled(n.sign == "-", Val(n.whole + n.frac), ExpVal(n.exp) - |n.frac|)
  }

  function Scaled(minus: bool, m: nat, e: int): real {
    (if minus then -1.0 else 1.0) * (m as real) * Pow10(e)
  }

  /** The digits before the point stand for themselves, each one behind it for a tenth of what it would in
      front, and a "-" turns the sign. */
  lemma ValueOfParts(n: Num)
    requires Loose(n)
    ensures n == Num("", n.whole, false, "", "") ==> Value(n) == Val(n.whole) as real
    ensures n.sign == "-" ==> Value(n) == -Value(n.(sign := ""))
    ensures n.frac != "" ==> Loose(PointMoved(n)) && 10.0 * Value(n) == Value(PointMoved(n))
  {
    if n.frac == "" { assert n.whole + "" == n.whole; }
    if n.sign == "-" { ScaledTurned(Val(n.whole + n.frac), ExpVal(n.exp) - |n.frac|); }
    if n.frac != "" { MovedTenfold(n); }
  }

  lemma ScaledTurned(m: nat, e: int)
    ensures Scaled(true, m, e) == -Scaled(false, m, e)
  {
    assert -1.0 * (m as real) == -(m as real);
  }

  /** The point one digit further on. */
  function PointMoved(n: Num): Num
    requires n.frac != ""
  {
    n.(whole := n.whole + n.frac[..1], frac := n.frac[1..])
  }

  lemma MovedTenfold(n: Num)
    requires Loose(n) && n.frac != ""
    ensures Loose(PointMoved(n)) && 10.0 * Value(n) == Value(PointMoved(n))
  {
    var m := PointMoved(n);
    assert m.whole + m.frac == n.whole + n.frac;
    AllDigitsConcat(n.whole, n.frac);
    ScaledTenfold(n.sign == "-", Val(n.whole + n.frac), ExpVal(n.exp) - |n.frac|);
  }

  lemma TenTimes(e: int)
    ensures Pow10(e + 1) == 10.0 * Pow10(e)
  {
  }

  lemma ScaledTenfold(minus: bool, m: nat, e: int)
    ensures 10.0 * Scaled(minus, m, e) == Scaled(minus, m, e + 1)
  {
    TenTimes(e);
    var f := (if minus then -1.0 else 1.0) * (m as real);
    assert 10.0 * (f * Pow10(e)) == f * (10.0 * Pow10(e));
  }

  /** "-12.5e+2" and "907e-1", by their values. */
  lemma ValuesOf()
    ensures var n, m := Num("-", "12", true, "5", "e+2"), Num("", "907", false, "", "e-1");
            Loose(n) && Loose(m) && Value(n) == -1250.0 && Value(m) == 90.7
  {
    var n, m := Num("-", "12", true, "5", "e+2"), Num("", "907", false, "", "e-1");
    assert "12" + "5" == "125" && "907" + "" == "907";
    assert n.exp[2..] == "2" && m.exp[2..] == "1";
    DigitVal("2", 2);
    DigitVal("1", 1);
    ThreeDigits("125", "12", "1");
    ThreeDigits("907", "90", "9");
    assert Pow10(1) == 10.0 && Pow10(-1) == 0.1;
  }

  lemma DigitVal(s: string, d: nat)
    requires |s| == 1 && d < 10 && s[0] as int == 0x30 + d
    ensures AllDigits(s) && Val(s) == d
  {
    assert s[..0] == "";
  }

  lemma ThreeDigits(s: string, two: string, one: string)
    requires |s| == 3 && AllDigits(s) && two == s[..2] && one == s[..1]
    ensures Val(s) == 100 * (s[0] as int - 0x30) + 10 * (s[1] as int - 0x30) + (s[2] as int - 0x30)
  {
    assert two[..1] == one && one[..0] == "";
    assert Val(two) == 10 * Val(one) + (s[1] as int - 0x30);
  }

  lemma AllDigitsConcat(a: string, b: string)
    requires AllDigits(a) && AllDigits(b)
    ensures AllDigits(a + b)
  {
  }

  /** Zeros in front change nothing. */
  lemma {:induction false} ValZero(s: string)
    requires AllDigits(s)
    ensures AllDigits("0" + s) && Val("0" + s) == Val(s)
    decreases |s|
  {
    var z := "0" + s;
    if s == "" {
      assert z[..0] == "";
    } else {
      ValZero(s[..|s| - 1]);
      assert z[..|z| - 1] == "0" + s[..|s| - 1];
    }
  }

  lemma {:induction false} ValTrimmed(s: string, frac: string)
    requires AllDigits(s) && AllDigits(frac)
    ensures AllDigits(s + frac) && AllDigits(Whole(s) + frac) && Val(Whole(s) + frac) == Val(s + frac)
    decreases |s|
  {
    if s == "" {
      assert s + frac == frac;
      ValZero(frac);
    } else if s[0] == '0' {
      ValTrimmed(s[1..], frac);
      assert s + frac == "0" + (s[1..] + frac);
      ValZero(s[1..] + frac);
    }
  }

  /** On every text of YAML's float production, with or without "_" in it, jsonNumberText succeeds, with
      a JSON number of the same value. */
  lemma RespelledKeepsValue(n: Num)
    requires Loose(n)
    ensures Json(Respelled(n))
    ensures Value(Respelled(n)) == Value(n)
  {
    ValTrimmed(n.whole, n.frac);
  }

  /** withFraction: a number without a point or an exponent given a fraction. */
  method WithFraction(digits: string) returns (r: string)
    ensures r == if Marked(digits) then digits else digits + ".0"
  {
    for i := 0 to |digits|
      invariant !Marked(digits[..i])
    {
      if digits[i] in ".eE" {
        return digits;
      }
    }
    assert digits[..|digits|] == digits;
    return digits + ".0";
  }

  predicate Marked(s: string) { exists i :: 0 <= i < |s| && s[i] in ".eE" }

  function Fractioned(n: Num): Num {
    if n.point || n.exp != "" then n else n.(point := true, frac := "0")
  }

  lemma FractionText(n: Num)
    requires Json(n)
    ensures Marked(Text(n)) <==> n.point || n.exp != ""
    ensures Text(Fractioned(n)) == if Marked(Text(n)) then Text(n) else Text(n) + ".0"
    ensures Marked(Text(Fractioned(n)))
  {
    var text := Text(n);
    var at := |n.sign| + |n.whole|;
    if n.point {
      assert text[at] == '.';
    } else if n.exp != "" {
      assert text[at] == n.exp[0];
    } else {
      assert text == n.sign + n.whole;
      forall i | 0 <= i < |text| ensures text[i] !in ".eE" {
        if i >= |n.sign| { assert text[i] == n.whole[i - |n.sign|]; }
      }
      assert Text(Fractioned(n)) == text + ".0";
      assert Text(Fractioned(n))[|text|] == '.';
    }
  }

  /** A fraction of nothing keeps a JSON number one, and its value. */
  lemma FractionKeepsValue(n: Num)
    requires Json(n)
    ensures Json(Fractioned(n))
    ensures Value(Fractioned(n)) == Value(n)
  {
    if !n.point && n.exp == "" {
      assert n.whole + "" == n.whole;
      var w := n.whole + "0";
      assert w[..|w| - 1] == n.whole;
      assert Val(w) == 10 * Val(n.whole);
      ScaledTenth(n.sign == "-", Val(n.whole));
    }
  }

  lemma ScaledTenth(minus: bool, m: nat)
    ensures Scaled(minus, 10 * m, -1) == Scaled(minus, m, 0)
  {
    var sign := if minus then -1.0 else 1.0;
    assert Pow10(-1) == 1.0 / 10.0;
    assert (10 * m) as real == 10.0 * (m as real);
    assert sign * (10.0 * (m as real)) * (1.0 / 10.0) == sign * (m as real);
  }

  /** decimalJSON on a YAML float: a JSON number of the same value that still reads as a float. */
  method DecimalJson(text: string, ghost n: Num) returns (out: string, ok: bool)
    requires YamlFloat(n) && Text(n) == WithoutUnderscores(text)
    ensures ok
    ensures out == Text(Fractioned(Respelled(n)))
    ensures Json(Fractioned(Respelled(n))) && Value(Fractioned(Respelled(n))) == Value(n) && Marked(out)
  {
    TakenOver(n);
    RespelledKeepsValue(n);
    FractionKeepsValue(Respelled(n));
    FractionText(Respelled(n));
    out, ok := JsonNumberText(text);
    assert JsonNumber(out);
    out := WithFraction(out);
  }
}
